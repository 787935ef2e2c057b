# MeshIoC in Dafny

A Dafny model of the core of MeshIoC, a small dependency-injection container
for TypeScript. A `Mesh` holds a table of bindings from string keys to a
constant value, a service class or an alias of another key. `resolve`
produces a key's instance on demand and caches it per mesh. It delegates keys
the mesh does not bind to a parent mesh, and it "connects" every new value:
the mesh's middlewares run over it, and the value gets a back-reference
(`MESH_REF`) to the mesh. Fields decorated with `@dep` or `@scope` read
through that back-reference. They resolve their key in the instance's mesh
and, with `cache`, pin the value on the instance. The model also covers the
dependency declarations that `@dep` records and `getClassDeps`, the older
binding objects of `bindings.ts`, the error classes, and the handler
registry of `reflect.ts`.

Modules, one per part of the program:

- `Types` (types.dfy): class references with their superclass chain, the
  JavaScript values the container handles (`typeof`, truthiness,
  nullishness), keys, bindings, declarations.
- `Errors` (errors.dfy): the error classes, their `name` and message text.
- `Util` (util.dfy): `keyToString`, `isConstructor`, `instantiate`.
- `Containers` (mesh.dfy): the heap of objects the container tags, the
  binding tables (`Scope`), and the `Mesh` class. `Mesh.ResolveWithin` and
  its helpers are proved equal to `ResolveSpec`, a function of the chain of
  mesh views and the heap.
- `ResolutionFacts` (resolution.dfy): what resolution promises, as lemmas
  about `ResolveSpec`.
- `LegacyBindings` (bindings.dfy): the binding objects with `get()`.
- `Fields` (fields.dfy): reading a decorated field.
- `Declarations` (declarations.dfy): the `@dep` decorators, the declaration
  table, `getClassDeps`, and `@scope`.
- `Handlers` (handlers.dfy): `createHandlerDecorator` and `findHandlers`.

Modelling choices:

- A JavaScript object is an entry of a `Heap` sequence. Its state is its
  class, the `MESH_REF` it carries itself (`ownTag`), the one on the derived
  prototype it was built through (`protoTag`), and its pinned fields.
- A getter installed on a prototype is an `Accessor` in the heap's
  `accessors` map.
- A middleware is a pure function from value to value.
- Resolution of an alias follows the target key. Its depth is bounded by a
  ghost fuel argument, under the precondition that no alias chain of a
  table is cyclic.

Behaviour of the code that the model reproduces as written:

- An alias is cached under its own key (mesh.ts:48-50), like every bound
  key, so it does not follow a later rebinding of its target
  (`ResolutionFacts.CachedAliasIgnoresRebinding`). The target's value is
  connected once for the target and once more for the alias
  (`ResolutionFacts.AliasConnectsTwice`).
- `tryResolve`, which the `@dep` getter calls for optional fields
  (dep.ts:39), is not defined in `mesh.ts`. It is modelled as `resolve` with
  an absent result in place of the error.
- `createScope` replaces the new mesh's table, so the scoped mesh loses its
  own `'Mesh'` binding and `'Mesh'` resolves to the parent.
- A cached falsy value does not count as a cache hit
  (`ResolutionFacts.FalsyConstantReconnected`).
- Binding `null` as a constant makes resolution throw, because
  `Object.defineProperty` rejects `null` (`ResolutionFacts.NullConstantThrows`).
- The `MeshInvalidBinding` message lacks a space in "orconstructor".

## Model

| member | source | states |
|---|---|---|
| Types.IsPrototypeOf | src/main/reflect.ts:24 | `a.isPrototypeOf(c)` for classes: `a` is a proper superclass of `c`; related to the ancestry by `Types.AncestryIsPrototypeOf` |
| Types.AncestryIsPrototypeOf | src/main/reflect.ts:24 | a class is in the superclass chain of `c` exactly when it is `c` or `isPrototypeOf(c)` holds |
| Errors.Name | src/main/errors.ts:3 | each error's `name` is its class's name; no container error is named `TypeError` |
| Errors.Message | src/main/errors.ts:7-43 | the message texts of the four error classes; their shape is proved in the lemmas below |
| Errors.DepErrorsLocateMember | src/main/errors.ts:7-24 | both field errors begin with `Class.property: ` and carry their own class name as `name` |
| Errors.NamesDistinguishKinds | src/main/errors.ts:1-5 | two container errors have the same `name` exactly when they are of the same class |
| Errors.InvalidBindingQuotesKey | src/main/errors.ts:34-43 | the invalid-binding message starts with the offending key in quotes |
| Errors.NotFoundMessageIdentifies | src/main/errors.ts:26-32 | for keys without quote characters, equal not-found messages mean the same key and the same mesh name |
| Util.SameNameSameKey | src/main/util.ts:3-5 | two classes with one name are the same key |
| Util.KeyToStringIdempotent | src/main/util.ts:3-5 | normalising an already normalised key changes nothing |
| Util.IsConstructor | src/main/util.ts:7-9 | `typeof v === 'function'` and a non-null prototype; its cases are proved in `Util.IsConstructorCases` |
| Util.InstantiateDispatch | src/main/util.ts:11-16 | a class is always constructed with `new`; an arrow function and a non-function value are plainly called |
| Util.IsConstructorCases | src/main/util.ts:7-9 | exactly classes and functions that have a prototype are constructors |
| Containers.ResolveShape | src/main/mesh.ts:40-57 | resolution changes only instance caches and own back-references, and only adds objects to the heap |
| Containers.Heap.DefineRef | src/main/mesh.ts:120-124 | only the object's own back-reference is set; every other object is unchanged |
| Containers.Heap.Pin | src/main/dep.ts:44-47 | only the field `p` of object `id` is set, to `v` |
| Containers.Heap.Install | src/main/dep.ts:32-51 | the getter of `(c, p)` is set and every other getter kept |
| Containers.Scope.Set | src/main/mesh.ts:30-38 | the table stays a duplicate-free insertion-ordered map; a new key goes last, a rebound key keeps its place |
| Containers.Scope.Copy | src/main/mesh.ts:81 | the new table holds exactly the entries of the copied one, in its order, or none |
| Containers.Scope.Service | src/main/mesh.ts:23-28 | a class key binds to itself or to the given implementation; a string key without one is `MeshInvalidBinding` and nothing changes |
| Containers.Scope.Constant | src/main/mesh.ts:30-33 | the normalised key is bound to the constant and nothing else changes |
| Containers.Scope.Alias | src/main/mesh.ts:35-38 | the normalised key is bound to an alias of the normalised target key |
| Containers.Mesh.constructor | src/main/mesh.ts:15-21 | a new mesh's table binds exactly `'Mesh'`, to the mesh's own object; caches and middlewares are empty |
| Containers.Mesh.Service | src/main/mesh.ts:23-28 | binds in the current table, a new key last in its order, and returns the mesh, or reports `MeshInvalidBinding` with the table and its order unchanged |
| Containers.Mesh.Constant | src/main/mesh.ts:30-33 | binds the constant in the current table, a new key last in its order, and returns the mesh |
| Containers.Mesh.Alias | src/main/mesh.ts:35-38 | binds the alias in the current table, a new key last in its order, and returns the mesh |
| Containers.Mesh.ResolveWithin | src/main/mesh.ts:40-57 | result, new caches of every mesh of the chain and new heap are those of `ResolveSpec` on the old state |
| Containers.Mesh.ResolveBound | src/main/mesh.ts:46-52 | a bound key is instantiated, then connected and cached unless instantiation failed |
| Containers.Mesh.Delegate | src/main/mesh.ts:53-55 | an unbound key is the parent's resolution; the mesh's own view is unchanged |
| Containers.Mesh.ConnectAndCache | src/main/mesh.ts:49-50 | the connected value is cached under the key in this mesh only |
| Containers.Mesh.Cache | src/main/mesh.ts:50 | only this mesh's cache entry for the key changes |
| Containers.Mesh.Resolve | src/main/mesh.ts:40-57 | `resolve(key)` is `ResolveSpec` of the normalised key |
| Containers.Mesh.TryResolve | src/main/dep.ts:39 | as `resolve`, with an error turned into an absent result and the same effects |
| Containers.Mesh.Connect | src/main/mesh.ts:59-63 | the value is run through the middleware chain, then the result is tagged with this mesh; the views do not change |
| Containers.Mesh.Use | src/main/mesh.ts:65-68 | the middleware is appended after the earlier ones and the mesh returned |
| Containers.Mesh.ApplyMiddleware | src/main/mesh.ts:105-114 | the result is the own middlewares in order, then the parent chain's |
| Containers.Mesh.InjectRef | src/main/mesh.ts:116-125 | only objects are tagged; `null` throws a `TypeError` and the heap is unchanged |
| Containers.Mesh.Instantiate | src/main/mesh.ts:87-103 | a constant is its value, a service a new object tagged through its prototype, an alias the mesh's own resolution of the target |
| Containers.Mesh.ConstructService | src/main/mesh.ts:91-99 | exactly one object is added, of the bound class, whose prototype carries this mesh |
| Containers.Mesh.Scope | src/main/mesh.ts:70-77 | returns the table stored under the id, or stores and returns a new empty one |
| Containers.Mesh.CreateScope | src/main/mesh.ts:79-85 | a new child mesh whose table copies the named table's entries and order, or is empty; its parent is this mesh |
| Containers.Mesh.Child | src/main/mesh.ts:82-83 | the child's table is the given scope, with no `'Mesh'` self-binding |
| ResolutionFacts.PipeConcat | src/main/mesh.ts:105-109 | middlewares added in two batches run as one batch, in the same order |
| ResolutionFacts.UseRunsLastLocally | src/main/mesh.ts:65-68 | a new middleware runs after the mesh's earlier ones and before the parent's |
| ResolutionFacts.NoMiddlewareIdentity | src/main/mesh.ts:105-114 | with no middlewares, connecting returns the value unchanged |
| ResolutionFacts.ResolveIdempotent | src/main/mesh.ts:42-51 | after a truthy resolution, resolving again returns the identical value and changes nothing |
| ResolutionFacts.FalsyConstantReconnected | src/main/mesh.ts:42-51 | a falsy cached value is no hit: the constant is instantiated, connected and stored again |
| ResolutionFacts.UnboundKeyNotFound | src/main/mesh.ts:53-56 | a key no mesh of the chain binds fails with the root mesh's name, and nothing changes |
| ResolutionFacts.DelegationCachesNothingLocally | src/main/mesh.ts:53-55 | an unbound key is resolved by the parent and nothing is cached in the child |
| ResolutionFacts.ParentServiceShared | src/main/mesh.ts:53-55 | two children that do not bind a parent's service get the identical instance, and the second constructs nothing |
| ResolutionFacts.ServiceInstanceIsFresh | src/main/mesh.ts:91-99 | resolving an uncached service builds one new object tagged with the mesh, and caches it |
| ResolutionFacts.ScopedServiceDistinct | src/main/mesh.ts:79-85 | a scope that binds a service itself gets an instance distinct from the parent's |
| ResolutionFacts.SiblingScopesDistinct | src/test/specs/scope.test.ts:41-51 | two scopes created from one table each build their own instance of a service it binds, even after the other resolved it |
| ResolutionFacts.AliasConnectsTwice | src/main/mesh.ts:46-51 | an alias caches its target's connected value connected once more |
| ResolutionFacts.CachedAliasIgnoresRebinding | src/main/mesh.ts:42-45 | after a truthy resolution, an alias keeps its value when its target is rebound |
| ResolutionFacts.NullConstantThrows | src/main/mesh.ts:116-125 | resolving a `null` constant fails with a `TypeError` |
| LegacyBindings.ConstantBinding.Create | src/main/bindings.ts:12-15 | the value is connected once at creation; a failed connect fails the creation |
| LegacyBindings.ServiceGet | src/main/bindings.ts:31-37 | a truthy instance is returned as is; otherwise one object of the class, tagged through its prototype, is built and connected, and kept only on success |
| LegacyBindings.ServiceBinding.constructor | src/main/bindings.ts:26-29 | a new binding holds no instance |
| LegacyBindings.ServiceBinding.Get | src/main/bindings.ts:31-46 | result, new instance and heap are those of `ServiceGet` on the old state |
| LegacyBindings.ServiceGetTwice | src/main/bindings.ts:31-37 | a second `get` after a truthy first one returns the same instance and builds nothing |
| LegacyBindings.FreshServiceBindingsDiffer | src/main/bindings.ts:26-37 | the first `get` of two fresh bindings returns two distinct new objects |
| LegacyBindings.ClassBinding.Get | src/main/bindings.ts:55-57 | `get` returns the class itself, which is a constructor |
| LegacyBindings.ProxyBinding.Get | src/main/bindings.ts:66-68 | every `get` is a fresh resolution of the aliased key |
| Fields.LookupAccessor | src/main/dep.ts:32 | the getter found is the one of the nearest class in the chain that has one; none exactly when no class has one |
| Fields.FindProperty | src/main/dep.ts:43-48 | a pinned own field shadows the getter; undefined exactly when nothing defines the field |
| Fields.Get | src/main/dep.ts:34-50 | without a back-reference the read fails with `DepInstanceNotConnected` and changes nothing; otherwise it is `GetterSpec` on the old state |
| Fields.Read | src/main/dep.ts:32-51 | a pinned value is returned and an undefined field reads as `undefined`, with the heap and the mesh chain unchanged; a getter runs, and one on an unconnected object fails with the heap unchanged |
| Fields.CachedReadPins | src/main/dep.ts:43-49 | a successful cached read pins its value, so the next read finds it without asking the mesh |
| Fields.OptionalMissRetries | src/main/dep.ts:39-42 | an optional read that finds nothing returns `undefined` and leaves the field's lookup as it was |
| Fields.UncachedReadPinsNothing | src/main/scope.ts:10-18 | a getter without `cache` leaves the field's lookup as it was |
| Fields.ConstructedReadsThroughMesh | src/main/mesh.ts:94-98 | a service object is connected before its constructor body runs, and its fields read through the getter |
| Fields.RequiredUnboundFails | src/main/dep.ts:36-39 | a required field with an unbound key fails with the root mesh's not-found error and changes nothing |
| Fields.OptionalUnboundIsUndefined | src/main/dep.ts:39-42 | an optional field with an unbound key reads as `undefined` and changes nothing |
| Declarations.DeclaredKey | src/main/dep.ts:19-26 | the explicit key, else the design type's name; an empty or missing key is `DepKeyNotInferred`, in both directions |
| Declarations.LegacyRecordFields | src/main/decorators/dep.ts:16-26 | the older decorators succeed exactly when the key is declared and a design type exists |
| Declarations.ExplicitKeyWithoutDesignType | src/main/decorators/dep.ts:17-24 | an explicit key without a design type: `@dep` accepts it, the older decorators throw |
| Declarations.DepTable.Dep | src/main/dep.ts:15-53 | one record is appended and a getter with the defaulted options installed, or `DepKeyNotInferred` with nothing changed |
| Declarations.DepTable.GetClassDeps | src/main/dep.ts:55-64 | the declarations of the class, then of each ancestor nearest first, each in declaration order |
| Declarations.PrototypeOf | src/main/dep.ts:61 | each step of the prototype walk gets closer to `Object.prototype` |
| Declarations.OwnDeps | src/main/dep.ts:59 | only declarations of the class itself, no more than there are |
| Declarations.OwnDepsMembers | src/main/dep.ts:59 | a declaration is selected exactly when it was made on that class |
| Declarations.ClassDepsMembers | src/main/dep.ts:55-64 | a declaration is listed exactly when it was made on the class or one of its ancestors |
| Declarations.DeclarationReachesSubclasses | src/main/dep.ts:27-31 | a new declaration is listed for its class and its subclasses, and for no other class |
| Declarations.OwnDepsFirst | src/main/dep.ts:58-60 | the class's own declarations come first |
| Declarations.SubclassDepsInOrder | src/test/specs/deps.test.ts:40-42 | `EImpl` lists its own field, then `E.d` and `E.b`, with keys `EDep`, `D`, `B` |
| Declarations.SecondSubclassDepsInOrder | src/test/specs/deps.test.ts:44-46 | `FImpl` lists its own field, then `F.c` and `F.e`, with keys `FDep`, `C`, `E` |
| Declarations.TypedDepTable.Dep | src/main/decorators/dep.ts:13-37 | a record with the class and design type name is appended and a plain getter installed, or the error with nothing changed |
| Declarations.NamedDepTable.Dep | src/main/decorators.ts:7-31 | as the typed variant, with a record that names the class instead of referencing it |
| Declarations.SameNamedClassesShareRecords | src/main/decorators.ts:15-20 | two classes with one name make indistinguishable records |
| Declarations.ScopeField | src/main/scope.ts:7-20 | only a getter is installed, for the key as given, neither cached nor optional |
| Handlers.HandlerDecorator.Decorate | src/main/reflect.ts:10-15 | the method is registered after every earlier registration under that name |
| Handlers.HandlerRegistry.CreateHandlerDecorator | src/main/reflect.ts:6-16 | decorators of one name share one list; a new name gets an empty one |
| Handlers.HandlerRegistry.Targets | src/main/reflect.ts:20 | the registrations under a name, or none for a name never used |
| Handlers.FindHandlers | src/main/reflect.ts:19-36 | the corrected search: each match is at the level of a mesh of the chain, and only at the first without `recursive` |
| Handlers.FindHandlersAsWritten | src/main/reflect.ts:21 | the search as written: the loop over the missing `mesh.bindings` throws a `TypeError` |
| Handlers.MatchesFor | src/main/reflect.ts:23-30 | at most one match per registration, all for the given mesh level and key |
| Handlers.LocalHandlers | src/main/reflect.ts:21-32 | every match of one mesh is at that mesh's level |
| Handlers.MatchesForMembers | src/main/reflect.ts:23-30 | a match exists exactly for a registration on the service's class or a superclass of it |
| Handlers.LocalHandlersMembers | src/main/reflect.ts:21-32 | a mesh yields a match exactly for a service binding whose class a registration applies to |
| Handlers.FindHandlersMembers | src/main/reflect.ts:19-36 | a handler is found exactly for a matching service of some mesh of the chain, above the first only when recursive |
| Handlers.NoTargetsNoHandlers | src/main/reflect.ts:20 | a name without registrations yields nothing |
| Handlers.NoServiceNoMatch | src/main/reflect.ts:22 | a mesh without service bindings yields nothing |
| Handlers.LocalHandlersAppend | src/main/reflect.ts:21-32 | within one mesh, the matches of bindings earlier in the table come before those of later ones |
| Handlers.LocalMatchesFirst | src/main/reflect.ts:21-35 | all matches of the first mesh come before the parent's |
| Handlers.MatchesInRegistrationOrder | src/main/reflect.ts:23-29 | a later registration's match comes after the earlier ones |
| Handlers.AsWrittenMissesMatches | src/main/reflect.ts:21 | where a service of the mesh has a handler, the search as written throws instead of yielding it |

## Left out

- Containers.Mesh.Resolve: requires that no alias chain of any table in the mesh chain is cyclic. The code has no cycle check, and a key whose alias chain cycles overflows the stack. The requirement also excludes chains where the resolved key never reaches the cycle, or where the cycle passes through a key with a truthy cached value; the code returns normally there (mesh.ts:43-51), and the model does not cover those resolutions.
- Containers.Mesh.ResolveWithin: requires acyclic alias chains in every table, with the same consequence as for `Containers.Mesh.Resolve`.
- Containers.Mesh.TryResolve: requires acyclic alias chains in every table, with the same consequence as for `Containers.Mesh.Resolve`.
- Fields.Get: requires acyclic alias chains in the instance's mesh chain, with the same consequence as for `Containers.Mesh.Resolve`.
- Fields.Read: requires acyclic alias chains, as `Fields.Get` does.
- LegacyBindings.ProxyBinding.Get: requires acyclic alias chains, as `Containers.Mesh.Resolve` does.
- The `Scope` class of the binding tables is not part of this model. Its behaviour is taken from its uses in `mesh.ts`: a map in insertion order, built from a name and an optional table to copy. One rule is inferred instead from the error text of src/main/errors.ts:36-40: `Containers.Scope.Service` rejects a string key without an implementation with `MeshInvalidBinding`, the one shape that message does not list as valid.
- The binders of `Scope` return nothing, rather than the table for chaining.
- The `name` parameter default `'default'`, and the `scopeName` default of `createScope`: the model passes both explicitly.
- Middlewares are pure functions; their side effects are not modelled.
- Numbers are abstract values, with no floating point and no `NaN`.
- A `null` option key is not distinguished from an absent one. src/main/dep.ts:19-24 applies its destructuring default only to `undefined`, so it treats `null` as a given key and rejects it; the older decorators (decorators/dep.ts:17, decorators.ts:11) use `??` and treat `null` as absent, as the model does.
- Constructor bodies of services do not run; a constructed object is its class and its tags.
- `instanceof` through the derived class is not modelled; the derived class is identified with the class it extends.
- `findHandlers` is a generator that resolves each match's instance as it yields it. The model returns the list of matches, each naming the mesh level and the key, without resolving them lazily.
- The default `recursive = true` of `findHandlers` is not modelled; `Handlers.FindHandlers` takes the flag explicitly.
- `invokeHandlers` is left out because it is asynchronous: it calls every found handler and awaits them all.
- The `configurable` flags are not modelled. `MESH_REF` (mesh.ts:123) and the getters of dep.ts (dep.ts:33, 45) are configurable, so re-tagging an object that is connected again (as an alias's value is) and pinning a field both succeed; the model takes that as given.
- `Reflect.getMetadata('design:type', …)` becomes an optional design-type parameter.
- src/main/metadata.ts, which the declarations of `decorators.ts` are pushed to, is not part of this model; it is a table appended to as in the other variants.
- src/main/proxy.ts, src/main/decorators/service.ts and the test services are outside the core.
- `allDeps` and `missingDeps` are not implemented in `mesh.ts`, so they are not modelled.
- The abstract `Binding` base class of `bindings.ts` is not a separate type; each binding class carries its `mesh` and `key`.

## Findings

| source | as written | input that shows it | evidently intended | confidence | as-written member | corrected member |
|---|---|---|---|---|---|---|
| src/main/reflect.ts:21 | `findHandlers` iterates `mesh.bindings`, which `Mesh` does not have; its table is `currentScope.bindings`, so the loop throws a `TypeError` on any mesh | any mesh, e.g. `new Mesh()` with a service whose class has a registered handler | iterate the current table's entries in insertion order, and recurse to the parent when `recursive` is set | not executed; the TypeScript source also would not type-check as written | Handlers.AsWrittenMissesMatches | Handlers.FindHandlersMembers |
