/**
 * The older binding-object design of src/main/bindings.ts: each binding is an
 * object attached to a mesh that produces its value through `get()`,
 * caching it or forwarding to the mesh.
 */
module LegacyBindings {
  import opened Types
  import opened Errors
  import opened Util
  import opened Containers
  import opened ResolutionFacts

  /** A binding whose value is connected once, when the binding is created. */
  class ConstantBinding {
    const mesh: Mesh
    const key: string
    const value: Value

    constructor(mesh: Mesh, key: string, connected: Value)
      ensures this.mesh == mesh && this.key == key && value == connected
    {
      this.mesh, this.key, value := mesh, key, connected;
    }

    /**
     * `new ConstantBinding(mesh, key, value)`: `mesh.connect(value)` runs
     * here, and its failure is the constructor's failure.
     */
    static method Create(mesh: Mesh, key: string, value: Value) returns (r: Result<ConstantBinding>)
      requires mesh.Valid()
      modifies mesh.heap`objects
      ensures var c := ConnectSpec(old(mesh.Views()), old(mesh.heap.objects), value);
        && mesh.heap.objects == c.1
        && (r.Ok? <==> c.0.Ok?)
        && (r.Err? ==> r.error == c.0.error)
        && (r.Ok? ==> fresh(r.value) && r.value.mesh == mesh && r.value.key == key && r.value.Get() == c.0.value)
    {
      var connected := mesh.Connect(value);
      if connected.Err? {
        return Err(connected.error);
      }
      var b := new ConstantBinding(mesh, key, connected.value);
      r := Ok(b);
    }

    /** The stored value: the mesh is not consulted again. */
    function Get(): (v: Value)
      ensures v == value
    {
      value
    }
  }

  /**
   * `ServiceBinding.get` as a function of the mesh chain, the heap and the
   * cached instance: its result, the new cached instance and the new heap.
   * Only a falsy cache is refilled: the class is constructed through the
   * prototype that `processClass` tagged with the mesh, then connected.
   */
  function ServiceGet(vs: seq<MeshView>, objs: seq<ObjState>, ctor: ClassRef, instance: Value): (r: (Result<Value>, Value, seq<ObjState>))
    requires vs != []
    ensures Truthy(instance) ==> r == (Ok(instance), instance, objs)
    ensures !Truthy(instance) ==> |r.2| == |objs| + 1 && r.2[|objs|].cls == ctor && r.2[|objs|].protoTag == Some(vs[0].self)
    ensures r.0.Ok? ==> r.1 == r.0.value
    ensures r.0.Err? ==> r.1 == instance
  {
    if Truthy(instance) then (Ok(instance), instance, objs)
    else
      var c := ConnectSpec(vs, objs + [Constructed(ctor, vs[0].self)], Obj(|objs|));
      if c.0.Err? then (c.0, instance, c.1) else (c.0, c.0.value, c.1)
  }

  /** A binding that constructs its class lazily and keeps the instance. */
  class ServiceBinding {
    const mesh: Mesh
    const key: string
    /**
     * The class `processClass` returns: a subclass that keeps the name of
     * `ctor` and whose prototype carries the mesh's back-reference; its
     * instances are the objects `Constructed(ctor, mesh)`.
     */
    const ctor: ClassRef
    var instance: Value

    constructor(mesh: Mesh, key: string, ctor: ClassRef)
      ensures this.mesh == mesh && this.key == key && this.ctor == ctor && instance == Undefined
    {
      this.mesh, this.key, this.ctor := mesh, key, ctor;
      instance := Undefined;
    }

    method Get() returns (r: Result<Value>)
      requires mesh.Valid()
      modifies this`instance, mesh.heap`objects
      ensures var s := ServiceGet(old(mesh.Views()), old(mesh.heap.objects), ctor, old(instance));
        r == s.0 && instance == s.1 && mesh.heap.objects == s.2
    {
      if Truthy(instance) {
        return Ok(instance);
      }
      var id := mesh.heap.Construct(ctor, mesh);
      r := mesh.Connect(Obj(id));
      if r.Ok? {
        instance := r.value;
      }
    }
  }

  /** A second `get` after a successful, truthy first one returns the same instance and constructs nothing. */
  lemma ServiceGetTwice(vs: seq<MeshView>, objs: seq<ObjState>, ctor: ClassRef, instance: Value)
    requires vs != []
    requires var s := ServiceGet(vs, objs, ctor, instance); s.0.Ok? && Truthy(s.0.value)
    ensures var s := ServiceGet(vs, objs, ctor, instance);
      ServiceGet(vs, s.2, ctor, s.1) == (s.0, s.1, s.2)
  {
  }

  /**
   * Without middlewares, the first `get` of a fresh binding constructs one
   * object of the binding's class, tagged with the mesh, and returns it; a
   * binding created later for the same key has a different instance.
   */
  lemma {:induction false} FreshServiceBindingsDiffer(vs: seq<MeshView>, objs: seq<ObjState>, c1: ClassRef, c2: ClassRef)
    requires vs != [] && NoMiddleware(vs)
    ensures var s1 := ServiceGet(vs, objs, c1, Undefined);
      var s2 := ServiceGet(vs, s1.2, c2, Undefined);
      && s1.0 == Ok(Obj(|objs|)) && s2.0 == Ok(Obj(|objs| + 1))
      && s2.2[|objs| + 1].cls == c2 && s1.0 != s2.0
  {
    NoMiddlewareIdentity(vs, Obj(|objs|));
    NoMiddlewareIdentity(vs, Obj(|objs| + 1));
  }

  /** A binding to a class itself: `get` returns the constructor, never an instance. */
  class ClassBinding {
    const mesh: Mesh
    const key: string
    const ctor: ClassRef

    constructor(mesh: Mesh, key: string, ctor: ClassRef)
      ensures this.mesh == mesh && this.key == key && this.ctor == ctor
    {
      this.mesh, this.key, this.ctor := mesh, key, ctor;
    }

    function Get(): (v: Value)
      ensures v.Class? && v.cls == ctor && IsConstructor(v)
    {
      Class(ctor)
    }
  }

  /** A binding that forwards to another key of the mesh and keeps no state of its own. */
  class ProxyBinding {
    const mesh: Mesh
    const key: string
    const alias: string

    constructor(mesh: Mesh, key: string, alias: string)
      ensures this.mesh == mesh && this.key == key && this.alias == alias
    {
      this.mesh, this.key, this.alias := mesh, key, alias;
    }

    /** Every call is a fresh `mesh.resolve(alias)`. */
    method Get() returns (r: Result<Value>)
      requires mesh.Valid() && ChainAcyclic(mesh.Views())
      modifies mesh`instances, mesh.ancestors`instances, mesh.heap`objects
      ensures var s := ResolveSpec(old(mesh.Views()), old(mesh.heap.objects), alias, |old(mesh.currentScope.bindings)|);
        r == s.result && mesh.Views() == s.views && mesh.heap.objects == s.objects
    {
      r := mesh.Resolve(StringKey(alias));
    }
  }
}
