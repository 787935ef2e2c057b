/**
 * The container of src/main/mesh.ts: the heap of JavaScript objects the
 * container tags, the `Scope` binding tables, and the `Mesh` class with its
 * resolution engine. `Mesh.ResolveWithin` is proved against `ResolveSpec`, a
 * function of the views of the mesh chain and the heap, and the properties of
 * resolution are lemmas about that function (module ResolutionFacts).
 */
module Containers {
  import opened Types
  import opened Errors
  import opened Util

  /** The class of a mesh object itself; the key 'Mesh' is bound to the mesh's own object. */
  const MeshClass: ClassRef := ClassRef(0, "Mesh", None)

  /**
   * A JavaScript object. `ownTag` is the MESH_REF property that `injectRef`
   * defines on the object itself; `protoTag` is the one on the throwaway
   * derived prototype the object was constructed through; `pinned` holds the
   * own data properties that replaced a prototype getter.
   */
  datatype ObjState = ObjState(
    cls: ClassRef,
    ownTag: Option<Mesh>,
    protoTag: Option<Mesh>,
    pinned: map<string, Value>)

  /** `obj[MESH_REF]`: the own property shadows the prototype's. */
  function MeshRefOf(o: ObjState): (r: Option<Mesh>)
    ensures o.ownTag.Some? ==> r == o.ownTag
    ensures o.ownTag.None? ==> r == o.protoTag
  {
    if o.ownTag.Some? then o.ownTag else o.protoTag
  }

  /** The state of one mesh of a chain, as resolution sees it. */
  datatype MeshView = MeshView(
    self: Mesh,
    name: string,
    bindings: map<string, Binding>,
    order: seq<string>,
    instances: map<string, Value>,
    middlewares: seq<Middleware>)

  /** The outcome of a step: its result, the new views of the chain and the new heap. */
  datatype Resolution = Resolution(result: Result<Value>, views: seq<MeshView>, objects: seq<ObjState>)

  /** Following aliases from `k` in `b` reaches a non-alias key within `n` steps. */
  ghost predicate AliasWithin(b: map<string, Binding>, k: string, n: nat)
    decreases n
  {
    k in b && b[k].Alias? ==> n > 0 && AliasWithin(b, b[k].key, n - 1)
  }

  /** No alias chain of the table is a cycle. */
  ghost predicate Acyclic(b: map<string, Binding>)
  {
    forall k :: AliasWithin(b, k, |b|)
  }

  ghost predicate ChainAcyclic(vs: seq<MeshView>)
  {
    forall j | 0 <= j < |vs| :: Acyclic(vs[j].bindings)
  }

  /** `b` differs from `a` at most in the instance caches. */
  ghost predicate SameShape(a: seq<MeshView>, b: seq<MeshView>)
  {
    |a| == |b| && forall j | 0 <= j < |a| :: a[j].(instances := map[]) == b[j].(instances := map[])
  }

  /** `objs2` only adds objects to `objs` and changes at most the own back-references. */
  ghost predicate Extends(objs: seq<ObjState>, objs2: seq<ObjState>)
  {
    |objs| <= |objs2| && forall i | 0 <= i < |objs| :: objs2[i].(ownTag := None) == objs[i].(ownTag := None)
  }

  /** Views of the same shape agree on everything but the caches. */
  lemma SameShapeAt(a: seq<MeshView>, b: seq<MeshView>, j: nat)
    requires SameShape(a, b) && j < |a|
    ensures a[j].self == b[j].self && a[j].name == b[j].name && a[j].bindings == b[j].bindings
    ensures a[j].order == b[j].order && a[j].middlewares == b[j].middlewares
  {
    assert a[j].(instances := map[]).bindings == a[j].bindings;
    assert b[j].(instances := map[]).bindings == b[j].bindings;
  }

  lemma SameShapeAcyclic(a: seq<MeshView>, b: seq<MeshView>)
    requires SameShape(a, b) && ChainAcyclic(a)
    ensures ChainAcyclic(b)
  {
    forall j | 0 <= j < |b|
      ensures Acyclic(b[j].bindings)
    {
      SameShapeAt(a, b, j);
    }
  }

  /** The views of a chain depend only on the meshes and scopes of the chain. */
  twostate lemma ViewsFrame(m: Mesh)
    requires m.Valid()
    requires unchanged(m) && unchanged(m.ancestors) && unchanged(m.scopes)
    ensures m.Views() == old(m.Views())
  {
  }

  /** The middlewares `ms` applied in registration order. */
  function Pipe(ms: seq<Middleware>, v: Value): Value
    decreases |ms|
  {
    if ms == [] then v else ms[|ms| - 1](Pipe(ms[..|ms| - 1], v))
  }

  /** `applyMiddleware`: the mesh's own middlewares, then its parent's chain. */
  function ChainMiddleware(vs: seq<MeshView>, v: Value): Value
    decreases |vs|
  {
    if vs == [] then v else ChainMiddleware(vs[1..], Pipe(vs[0].middlewares, v))
  }

  /**
   * `injectRef`: only a value whose `typeof` is "object" is tagged; for `null`
   * `Object.defineProperty` throws. An id the heap does not hold is left alone.
   */
  function InjectRefSpec(objs: seq<ObjState>, m: Mesh, v: Value): Result<seq<ObjState>>
  {
    if TypeOf(v) != "object" then Ok(objs)
    else if v.Null? then Err(TypeError("Object.defineProperty called on non-object"))
    else if v.id < |objs| then Ok(objs[v.id := objs[v.id].(ownTag := Some(m))])
    else Ok(objs)
  }

  /** `connect`: middlewares, then the back-reference of the first mesh of the chain. */
  function ConnectSpec(vs: seq<MeshView>, objs: seq<ObjState>, v: Value): (Result<Value>, seq<ObjState>)
    requires vs != []
  {
    var res := ChainMiddleware(vs, v);
    match InjectRefSpec(objs, vs[0].self, res)
    case Err(e) => (Err(e), objs)
    case Ok(tagged) => (Ok(res), tagged)
  }

  /** Connect `v` and cache the connected value under `k` in the first mesh of the chain. */
  ghost function Store(vs: seq<MeshView>, objs: seq<ObjState>, k: string, v: Value): (r: Resolution)
    requires vs != []
    ensures |r.views| == |vs|
  {
    var c := ConnectSpec(vs, objs, v);
    if c.0.Err? then Resolution(c.0, vs, objs)
    else Resolution(c.0, [vs[0].(instances := vs[0].instances[k := c.0.value])] + vs[1..], c.1)
  }

  /** The object allocated for a service: class `c`, derived prototype tagged with `m`. */
  function Constructed(c: ClassRef, m: Mesh): ObjState
  {
    ObjState(c, None, Some(m), map[])
  }

  /** `instantiate` of a binding by the first mesh of the chain. */
  ghost function InstantiateSpec(vs: seq<MeshView>, objs: seq<ObjState>, b: Binding, fuel: nat): (r: Resolution)
    requires vs != [] && ChainAcyclic(vs)
    requires b.Alias? ==> fuel > 0 && AliasWithin(vs[0].bindings, b.key, fuel - 1)
    ensures |r.views| == |vs|
    decreases |vs|, fuel, 0
  {
    match b
    case Constant(v) => Resolution(Ok(v), vs, objs)
    case Service(c) => Resolution(Ok(Obj(|objs|)), vs, objs + [Constructed(c, vs[0].self)])
    case Alias(t) => ResolveSpec(vs, objs, t, fuel - 1)
  }

  /** `resolve` of the string key `k` by the first mesh of the chain `vs`. */
  ghost function ResolveSpec(vs: seq<MeshView>, objs: seq<ObjState>, k: string, fuel: nat): (r: Resolution)
    requires vs != [] && ChainAcyclic(vs) && AliasWithin(vs[0].bindings, k, fuel)
    ensures |r.views| == |vs|
    decreases |vs|, fuel, 1
  {
    var m := vs[0];
    if k in m.instances && Truthy(m.instances[k]) then Resolution(Ok(m.instances[k]), vs, objs)
    else if k in m.bindings then
      var i := InstantiateSpec(vs, objs, m.bindings[k], fuel);
      if i.result.Err? then i else Store(i.views, i.objects, k, i.result.value)
    else if |vs| > 1 then
      var up := ResolveSpec(vs[1..], objs, k, |vs[1].bindings|);
      Resolution(up.result, [m] + up.views, up.objects)
    else Resolution(Err(MeshBindingNotFound(m.name, k)), vs, objs)
  }

  /** Storing a value only fills a cache, and connecting it only tags an object. */
  lemma StoreShape(vs: seq<MeshView>, objs: seq<ObjState>, k: string, v: Value)
    requires vs != []
    ensures var r := Store(vs, objs, k, v); SameShape(vs, r.views) && Extends(objs, r.objects)
  {
    var r := Store(vs, objs, k, v);
    if r.result.Ok? {
      forall j | 0 <= j < |vs| ensures r.views[j].(instances := map[]) == vs[j].(instances := map[]) {
        if j > 0 {
          assert r.views[j] == vs[j];
        }
      }
    }
  }

  /**
   * Instantiating a binding changes nothing but instance caches and own
   * back-references, and only adds objects to the heap.
   */
  lemma {:induction false} InstantiateShape(vs: seq<MeshView>, objs: seq<ObjState>, b: Binding, fuel: nat)
    requires vs != [] && ChainAcyclic(vs)
    requires b.Alias? ==> fuel > 0 && AliasWithin(vs[0].bindings, b.key, fuel - 1)
    ensures var r := InstantiateSpec(vs, objs, b, fuel); SameShape(vs, r.views) && Extends(objs, r.objects)
    decreases |vs|, fuel, 0
  {
    if b.Alias? {
      ResolveShape(vs, objs, b.key, fuel - 1);
    }
  }

  /** Resolution changes nothing but instance caches and own back-references, and only adds objects. */
  lemma {:induction false} ResolveShape(vs: seq<MeshView>, objs: seq<ObjState>, k: string, fuel: nat)
    requires vs != [] && ChainAcyclic(vs) && AliasWithin(vs[0].bindings, k, fuel)
    ensures var r := ResolveSpec(vs, objs, k, fuel); SameShape(vs, r.views) && Extends(objs, r.objects)
    decreases |vs|, fuel, 1
  {
    var m := vs[0];
    var r := ResolveSpec(vs, objs, k, fuel);
    if k in m.instances && Truthy(m.instances[k]) {
    } else if k in m.bindings {
      var i := InstantiateSpec(vs, objs, m.bindings[k], fuel);
      InstantiateShape(vs, objs, m.bindings[k], fuel);
      if i.result.Ok? {
        StoreShape(i.views, i.objects, k, i.result.value);
        var st := Store(i.views, i.objects, k, i.result.value);
        assert SameShape(vs, st.views) by {
          forall j | 0 <= j < |vs| ensures vs[j].(instances := map[]) == st.views[j].(instances := map[]) {
            assert vs[j].(instances := map[]) == i.views[j].(instances := map[]);
          }
        }
      }
    } else if |vs| > 1 {
      ChainTail(vs);
      var up := ResolveSpec(vs[1..], objs, k, |vs[1].bindings|);
      ResolveShape(vs[1..], objs, k, |vs[1].bindings|);
      assert SameShape(vs, r.views) by {
        forall j | 0 <= j < |vs| ensures vs[j].(instances := map[]) == r.views[j].(instances := map[]) {
          if j > 0 {
            assert vs[j] == vs[1..][j - 1] && r.views[j] == up.views[j - 1];
          }
        }
      }
    }
  }

  lemma ChainTail(vs: seq<MeshView>)
    requires vs != [] && ChainAcyclic(vs)
    ensures ChainAcyclic(vs[1..])
  {
    forall j | 0 <= j < |vs[1..]| ensures Acyclic(vs[1..][j].bindings) {
      assert vs[1..][j] == vs[j + 1];
    }
  }

  /** The JavaScript heap: its objects by identity, and the getters installed on class prototypes. */
  class Heap {
    var objects: seq<ObjState>
    var accessors: map<(ClassRef, string), Accessor>

    constructor()
      ensures objects == [] && accessors == map[]
    {
      objects, accessors := [], map[];
    }

    /** An object constructed outside any mesh: no back-reference anywhere. */
    method Alloc(c: ClassRef) returns (id: nat)
      modifies this`objects
      ensures id == old(|objects|) && objects == old(objects) + [ObjState(c, None, None, map[])]
    {
      id := |objects|;
      objects := objects + [ObjState(c, None, None, map[])];
    }

    /** `new derived()` where `derived`'s prototype already carries `m`'s back-reference. */
    method Construct(c: ClassRef, m: Mesh) returns (id: nat)
      modifies this`objects
      ensures id == old(|objects|) && objects == old(objects) + [Constructed(c, m)]
    {
      id := |objects|;
      objects := objects + [Constructed(c, m)];
    }

    /** `Object.defineProperty(obj, MESH_REF, { get: () => m })`. */
    method DefineRef(id: nat, m: Mesh)
      requires id < |objects|
      modifies this`objects
      ensures objects == old(objects)[id := old(objects)[id].(ownTag := Some(m))]
    {
      objects := objects[id := objects[id].(ownTag := Some(m))];
    }

    /** `Object.defineProperty(obj, p, { value: v })`: an own data property shadowing the getter. */
    method Pin(id: nat, p: string, v: Value)
      requires id < |objects|
      modifies this`objects
      ensures objects == old(objects)[id := old(objects)[id].(pinned := old(objects)[id].pinned[p := v])]
    {
      objects := objects[id := objects[id].(pinned := objects[id].pinned[p := v])];
    }

    /** `Object.defineProperty(C.prototype, p, { get })`. */
    method Install(c: ClassRef, p: string, a: Accessor)
      modifies this`accessors
      ensures accessors == old(accessors)[(c, p) := a]
    {
      accessors := accessors[(c, p) := a];
    }
  }

  /** A binding table: a map, iterated in insertion order like a JavaScript Map. */
  class Scope {
    const name: string
    var bindings: map<string, Binding>
    var keys: seq<string>

    ghost predicate Valid()
      reads this
    {
      && (forall i, j | 0 <= i < j < |keys| :: keys[i] != keys[j])
      && (forall k :: k in bindings <==> k in keys)
    }

    constructor(name: string)
      ensures Valid() && this.name == name && bindings == map[] && keys == []
    {
      this.name := name;
      bindings, keys := map[], [];
    }

    /** `new Scope(name, from ?? [])`: a new table holding the entries of `from`, if any. */
    constructor Copy(name: string, from: Scope?)
      requires from != null ==> from.Valid()
      ensures Valid() && this.name == name
      ensures from != null ==> bindings == from.bindings && keys == from.keys
      ensures from == null ==> bindings == map[] && keys == []
    {
      this.name := name;
      if from != null {
        bindings, keys := from.bindings, from.keys;
      } else {
        bindings, keys := map[], [];
      }
    }

    /** `Map.set`: a new key goes last, an existing key keeps its place. */
    method Set(k: string, b: Binding)
      requires Valid()
      modifies this
      ensures Valid()
      ensures bindings == old(bindings)[k := b]
      ensures keys == if k in old(bindings) then old(keys) else old(keys) + [k]
    {
      if k !in bindings {
        keys := keys + [k];
      }
      bindings := bindings[k := b];
    }

    method Constant(key: ServiceKey, value: Value)
      requires Valid()
      modifies this
      ensures Valid() && bindings == old(bindings)[KeyToString(key) := Binding.Constant(value)]
      ensures keys == if KeyToString(key) in old(bindings) then old(keys) else old(keys) + [KeyToString(key)]
    {
      Set(KeyToString(key), Binding.Constant(value));
    }

    /**
     * `service(impl)` binds a class to its own name; `service(key, impl)`
     * binds `impl` under `key`. A string key without an implementation
     * matches none of the shapes named in MeshInvalidBinding's message.
     */
    method Service(key: ServiceKey, impl: Option<ClassRef>) returns (r: Result<()>)
      requires Valid()
      modifies this
      ensures Valid()
      ensures r.Err? <==> key.StringKey? && impl.None?
      ensures r.Err? ==> r.error == MeshInvalidBinding(key.s) && bindings == old(bindings) && keys == old(keys)
      ensures r.Ok? ==> bindings == old(bindings)[KeyToString(key) :=
        Binding.Service(if impl.Some? then impl.value else key.cls)]
      ensures r.Ok? ==> keys == if KeyToString(key) in old(bindings) then old(keys) else old(keys) + [KeyToString(key)]
    {
      match impl
      case Some(c) =>
        Set(KeyToString(key), Binding.Service(c));
        r := Ok(());
      case None =>
        if key.ClassKey? {
          Set(KeyToString(key), Binding.Service(key.cls));
          r := Ok(());
        } else {
          r := Err(MeshInvalidBinding(key.s));
        }
    }

    /** An alias stores its target as a string key. */
    method Alias(key: ServiceKey, referenceKey: ServiceKey)
      requires Valid()
      modifies this
      ensures Valid() && bindings == old(bindings)[KeyToString(key) := Binding.Alias(KeyToString(referenceKey))]
      ensures keys == if KeyToString(key) in old(bindings) then old(keys) else old(keys) + [KeyToString(key)]
    {
      Set(KeyToString(key), Binding.Alias(KeyToString(referenceKey)));
    }
  }

  class Mesh {
    const name: string
    const parent: Mesh?
    const heap: Heap
    /** The mesh's own object on the heap. */
    const objId: nat
    const currentScope: Scope
    /** Distance to the root, and the meshes and scopes of the parent chain: fixed at construction. */
    const depth: nat
    const ancestors: set<Mesh>
    const scopes: set<Scope>
    var childScopes: map<string, Scope>
    var instances: map<string, Value>
    var middlewares: seq<Middleware>

    /** The link to the parent: a shorter chain on the same heap, not containing this mesh. */
    ghost predicate Linked()
    {
      && currentScope in scopes
      && (parent == null ==> ancestors == {} && scopes == {currentScope})
      && (parent != null ==>
            && parent.depth < depth && parent.heap == heap
            && ancestors == {parent} + parent.ancestors && this !in ancestors
            && scopes == {currentScope} + parent.scopes)
    }

    /** The parent chain is finite and shares one heap. */
    ghost predicate Valid()
      decreases depth
    {
      Linked() && (parent != null ==> parent.Valid())
    }

    /** `new Mesh(name, parent)`: the key 'Mesh' is bound to the new mesh itself. */
    constructor(name: string, parent: Mesh?, heap: Heap)
      requires parent != null ==> parent.Valid() && parent.heap == heap
      modifies heap`objects
      ensures Valid() && this.name == name && this.parent == parent && this.heap == heap
      ensures objId == old(|heap.objects|) && heap.objects == old(heap.objects) + [ObjState(MeshClass, None, None, map[])]
      ensures fresh(currentScope) && currentScope.Valid() && currentScope.name == name
      ensures currentScope.bindings == map["Mesh" := Binding.Constant(Obj(objId))] && currentScope.keys == ["Mesh"]
      ensures childScopes == map[] && instances == map[] && middlewares == []
    {
      var id := heap.Alloc(MeshClass);
      var s := new Scope(name);
      s.Constant(StringKey("Mesh"), Obj(id));
      this.name, this.parent, this.heap, objId, currentScope := name, parent, heap, id, s;
      depth := if parent == null then 0 else parent.depth + 1;
      ancestors := if parent == null then {} else {parent} + parent.ancestors;
      scopes := if parent == null then {s} else {s} + parent.scopes;
      childScopes, instances, middlewares := map[], map[], [];
      new;
    }

    /**
     * The mesh `createScope` returns: `new Mesh(name, parent)` whose scope is
     * then replaced by `scope`, so it has no 'Mesh' self-binding.
     */
    constructor Child(name: string, parent: Mesh, scope: Scope)
      requires parent.Valid()
      modifies parent.heap`objects
      ensures Valid() && this.name == name && this.parent == parent && heap == parent.heap
      ensures objId == old(|parent.heap.objects|)
      ensures heap.objects == old(parent.heap.objects) + [ObjState(MeshClass, None, None, map[])]
      ensures currentScope == scope
      ensures childScopes == map[] && instances == map[] && middlewares == []
    {
      var id := parent.heap.Alloc(MeshClass);
      this.name, this.parent, heap, objId, currentScope := name, parent, parent.heap, id, scope;
      depth := parent.depth + 1;
      ancestors := {parent} + parent.ancestors;
      scopes := {scope} + parent.scopes;
      childScopes, instances, middlewares := map[], map[], [];
      new;
    }

    function View(): MeshView
      reads this, currentScope
    {
      MeshView(this, name, currentScope.bindings, currentScope.keys, instances, middlewares)
    }

    /** This mesh's view followed by its parent's chain. */
    function Views(): (vs: seq<MeshView>)
      requires Valid()
      reads this, ancestors, scopes
      ensures vs != [] && vs[0] == View()
      decreases depth
    {
      [View()] + if parent == null then [] else parent.Views()
    }

    method Service(key: ServiceKey, impl: Option<ClassRef>) returns (r: Result<Mesh>)
      requires currentScope.Valid()
      modifies currentScope
      ensures currentScope.Valid()
      ensures r.Err? <==> key.StringKey? && impl.None?
      ensures r.Err? ==> r.error == MeshInvalidBinding(key.s) && currentScope.bindings == old(currentScope.bindings)
      ensures r.Err? ==> currentScope.keys == old(currentScope.keys)
      ensures r.Ok? ==> r.value == this && currentScope.bindings == old(currentScope.bindings)[KeyToString(key) :=
        Binding.Service(if impl.Some? then impl.value else key.cls)]
      ensures r.Ok? ==> currentScope.keys == (if KeyToString(key) in old(currentScope.bindings)
        then old(currentScope.keys) else old(currentScope.keys) + [KeyToString(key)])
    {
      var s := currentScope.Service(key, impl);
      r := if s.Ok? then Ok(this) else Err(s.error);
    }

    method Constant(key: ServiceKey, value: Value) returns (self: Mesh)
      requires currentScope.Valid()
      modifies currentScope
      ensures self == this && currentScope.Valid()
      ensures currentScope.bindings == old(currentScope.bindings)[KeyToString(key) := Binding.Constant(value)]
      ensures currentScope.keys ==
        if KeyToString(key) in old(currentScope.bindings) then old(currentScope.keys) else old(currentScope.keys) + [KeyToString(key)]
    {
      currentScope.Constant(key, value);
      self := this;
    }

    method Alias(key: ServiceKey, referenceKey: ServiceKey) returns (self: Mesh)
      requires currentScope.Valid()
      modifies currentScope
      ensures self == this && currentScope.Valid()
      ensures currentScope.bindings == old(currentScope.bindings)[KeyToString(key) := Binding.Alias(KeyToString(referenceKey))]
      ensures currentScope.keys ==
        if KeyToString(key) in old(currentScope.bindings) then old(currentScope.keys) else old(currentScope.keys) + [KeyToString(key)]
    {
      currentScope.Alias(key, referenceKey);
      self := this;
    }

    method Use(fn: Middleware) returns (self: Mesh)
      modifies this`middlewares
      ensures self == this && middlewares == old(middlewares) + [fn]
    {
      middlewares := middlewares + [fn];
      self := this;
    }

    /** The mesh's own middlewares in registration order, then the parent's chain. */
    method ApplyMiddleware(value: Value) returns (res: Value)
      requires Valid()
      ensures res == ChainMiddleware(Views(), value)
      decreases depth
    {
      res := value;
      for i := 0 to |middlewares|
        invariant res == Pipe(middlewares[..i], value)
      {
        assert middlewares[..i + 1][..i] == middlewares[..i];
        res := middlewares[i](res);
      }
      assert middlewares[..|middlewares|] == middlewares;
      if parent != null {
        res := parent.ApplyMiddleware(res);
      }
    }

    method InjectRef(value: Value) returns (r: Result<()>)
      modifies heap`objects
      ensures var s := InjectRefSpec(old(heap.objects), this, value);
        if s.Ok? then r.Ok? && heap.objects == s.value else r == Err(s.error) && heap.objects == old(heap.objects)
    {
      if TypeOf(value) != "object" {
        return Ok(());
      }
      if value.Null? {
        return Err(TypeError("Object.defineProperty called on non-object"));
      }
      if value.id < |heap.objects| {
        heap.DefineRef(value.id, this);
      }
      r := Ok(());
    }

    /** `connect`: adopt a value into this mesh. */
    method Connect(value: Value) returns (r: Result<Value>)
      requires Valid()
      modifies heap`objects
      ensures (r, heap.objects) == ConnectSpec(old(Views()), old(heap.objects), value)
      ensures Views() == old(Views())
    {
      var res := ApplyMiddleware(value);
      var t := InjectRef(res);
      r := if t.Ok? then Ok(res) else Err(t.error);
    }

    /** `instantiate`: for an alias, this mesh's own `resolve` of the target. */
    method Instantiate(b: Binding, ghost fuel: nat) returns (r: Result<Value>)
      requires Valid() && ChainAcyclic(Views())
      requires b.Alias? ==> fuel > 0 && AliasWithin(currentScope.bindings, b.key, fuel - 1)
      modifies this`instances, ancestors`instances, heap`objects
      ensures var s := InstantiateSpec(old(Views()), old(heap.objects), b, fuel);
        r == s.result && Views() == s.views && heap.objects == s.objects
      decreases depth, fuel, 0
    {
      if b.Alias? {
        r := ResolveWithin(b.key, fuel - 1);
      } else if b.Service? {
        var instance := ConstructService(b.cls);
        r := Ok(instance);
      } else {
        r := Ok(b.value);
      }
    }

    /**
     * `new derived()` for a throwaway subclass of `c` that keeps `c`'s name
     * and whose prototype carries this mesh's back-reference.
     */
    method ConstructService(c: ClassRef) returns (instance: Value)
      requires Valid()
      modifies heap`objects
      ensures instance == Obj(old(|heap.objects|)) && heap.objects == old(heap.objects) + [Constructed(c, this)]
      ensures Views() == old(Views())
    {
      var id := heap.Construct(c, this);
      instance := Obj(id);
    }

    /** Connect `x` and cache the connected value under `k`. */
    method ConnectAndCache(k: string, x: Value) returns (r: Result<Value>)
      requires Valid()
      modifies this`instances, heap`objects
      ensures var s := Store(old(Views()), old(heap.objects), k, x);
        r == s.result && Views() == s.views && heap.objects == s.objects
    {
      r := Connect(x);
      if r.Ok? {
        Cache(k, r.value);
      }
    }

    /** `this.instances.set(k, v)`. */
    method Cache(k: string, v: Value)
      requires Valid()
      modifies this`instances
      ensures instances == old(instances)[k := v]
      ensures Views() == [old(View()).(instances := old(instances)[k := v])] + old(Views())[1..]
    {
      instances := instances[k := v];
      if parent != null {
        ViewsFrame(parent);
      }
    }

    /** `resolve` of a normalised key; `fuel` bounds the alias chain that can follow. */
    method ResolveWithin(k: string, ghost fuel: nat) returns (r: Result<Value>)
      requires Valid() && ChainAcyclic(Views()) && AliasWithin(currentScope.bindings, k, fuel)
      modifies this`instances, ancestors`instances, heap`objects
      ensures var s := ResolveSpec(old(Views()), old(heap.objects), k, fuel);
        r == s.result && Views() == s.views && heap.objects == s.objects
      decreases depth, fuel, 2
    {
      var cached := if k in instances then instances[k] else Undefined;
      if Truthy(cached) {
        r := Ok(cached);
      } else if k in currentScope.bindings {
        r := ResolveBound(k, fuel);
      } else if parent != null {
        r := Delegate(k);
      } else {
        r := Err(MeshBindingNotFound(name, k));
      }
    }

    /** A key this mesh binds: instantiate, connect, cache. */
    method ResolveBound(k: string, ghost fuel: nat) returns (r: Result<Value>)
      requires Valid() && ChainAcyclic(Views()) && AliasWithin(currentScope.bindings, k, fuel)
      requires k in currentScope.bindings
      modifies this`instances, ancestors`instances, heap`objects
      ensures var vs, objs := old(Views()), old(heap.objects);
        var i := InstantiateSpec(vs, objs, vs[0].bindings[k], fuel);
        var s := if i.result.Err? then i else Store(i.views, i.objects, k, i.result.value);
        r == s.result && Views() == s.views && heap.objects == s.objects
      decreases depth, fuel, 1
    {
      ghost var vs, objs := Views(), heap.objects;
      var b := currentScope.bindings[k];
      var inst := Instantiate(b, fuel);
      if inst.Err? {
        return inst;
      }
      r := ConnectAndCache(k, inst.value);
    }

    /** A key this mesh does not bind: `this.parent.resolve(key)`. */
    method Delegate(k: string) returns (r: Result<Value>)
      requires Valid() && parent != null && ChainAcyclic(Views())
      modifies ancestors`instances, heap`objects
      ensures var vs := old(Views());
        var up := ResolveSpec(vs[1..], old(heap.objects), k, |vs[1].bindings|);
        r == up.result && Views() == [vs[0]] + up.views && heap.objects == up.objects
      decreases depth, 0, 0
    {
      ghost var vs := Views();
      ChainTail(vs);
      r := parent.ResolveWithin(k, |parent.currentScope.bindings|);
      assert View() == vs[0];
    }

    /** `resolve(key)`. */
    method Resolve(key: ServiceKey) returns (r: Result<Value>)
      requires Valid() && ChainAcyclic(Views())
      modifies this`instances, ancestors`instances, heap`objects
      ensures var s := ResolveSpec(old(Views()), old(heap.objects), KeyToString(key), |old(currentScope.bindings)|);
        r == s.result && Views() == s.views && heap.objects == s.objects
    {
      r := ResolveWithin(KeyToString(key), |currentScope.bindings|);
    }

    /** `tryResolve(key)`: `resolve` with an absent result instead of an error. */
    method TryResolve(key: ServiceKey) returns (r: Option<Value>)
      requires Valid() && ChainAcyclic(Views())
      modifies this`instances, ancestors`instances, heap`objects
      ensures var s := ResolveSpec(old(Views()), old(heap.objects), KeyToString(key), |old(currentScope.bindings)|);
        r == (if s.result.Ok? then Some(s.result.value) else None) && Views() == s.views && heap.objects == s.objects
    {
      var res := Resolve(key);
      r := if res.Ok? then Some(res.value) else None;
    }

    /** `scope(id)`: get or create the named binding table. */
    method Scope(scopeId: string) returns (s: Scope)
      modifies this`childScopes
      ensures scopeId in old(childScopes) ==> s == old(childScopes[scopeId]) && childScopes == old(childScopes)
      ensures scopeId !in old(childScopes) ==>
        fresh(s) && s.Valid() && s.name == scopeId && s.bindings == map[]
        && childScopes == old(childScopes)[scopeId := s]
    {
      if scopeId in childScopes {
        s := childScopes[scopeId];
      } else {
        s := new Scope(scopeId);
        childScopes := childScopes[scopeId := s];
      }
    }

    /** `createScope(id, name)`: a new child mesh holding a copy of the named table. */
    method CreateScope(scopeId: string, scopeName: string) returns (mesh: Mesh)
      requires Valid()
      requires scopeId in childScopes ==> childScopes[scopeId].Valid()
      modifies heap`objects
      ensures fresh(mesh) && fresh(mesh.currentScope) && mesh.Valid() && mesh.currentScope.Valid()
      ensures mesh.name == scopeId && mesh.parent == this && mesh.heap == heap
      ensures mesh.currentScope.name == scopeName
      ensures mesh.currentScope.bindings == if scopeId in childScopes then childScopes[scopeId].bindings else map[]
      ensures mesh.currentScope.keys == if scopeId in childScopes then childScopes[scopeId].keys else []
      ensures mesh.instances == map[] && mesh.middlewares == [] && mesh.childScopes == map[]
      ensures heap.objects == old(heap.objects) + [ObjState(MeshClass, None, None, map[])]
    {
      var childScope := if scopeId in childScopes then childScopes[scopeId] else null;
      var newScope := new Scope.Copy(scopeName, childScope);
      mesh := new Mesh.Child(scopeId, this, newScope);
    }
  }
}
