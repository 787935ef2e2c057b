/**
 * Reading a decorated field: the getter that `@dep` (src/main/dep.ts and its
 * two older variants) and `@scope` (src/main/scope.ts) install on a class
 * prototype. The getter finds the instance's mesh through its back-reference,
 * resolves the key there and, when asked to, pins the value on the instance.
 */
module Fields {
  import opened Types
  import opened Errors
  import opened Util
  import opened Containers
  import opened ResolutionFacts

  /** What `obj[p]` finds: an own pinned value, else the nearest getter on the class chain, else nothing. */
  datatype Property = Pinned(value: Value) | Getter(accessor: Accessor) | Absent

  /** The getter for `p` installed on the first class of `chain` that has one. */
  function LookupAccessor(chain: seq<ClassRef>, accessors: map<(ClassRef, string), Accessor>, p: string): (r: Option<Accessor>)
    ensures r.None? <==> forall i | 0 <= i < |chain| :: (chain[i], p) !in accessors
    ensures r.Some? ==> exists i | 0 <= i < |chain| ::
      && (chain[i], p) in accessors && r.value == accessors[(chain[i], p)]
      && forall j | 0 <= j < i :: (chain[j], p) !in accessors
    decreases |chain|
  {
    if chain == [] then None
    else if (chain[0], p) in accessors then Some(accessors[(chain[0], p)])
    else LookupAccessor(chain[1..], accessors, p)
  }

  /** Property lookup on an instance: own properties first, then the prototypes of its class and its ancestors. */
  function FindProperty(o: ObjState, accessors: map<(ClassRef, string), Accessor>, p: string): (r: Property)
    ensures p in o.pinned ==> r == Pinned(o.pinned[p])
    ensures p !in o.pinned && (o.cls, p) in accessors ==> r == Getter(accessors[(o.cls, p)])
    ensures r.Absent? <==> p !in o.pinned && forall c | c in Ancestry(o.cls) :: (c, p) !in accessors
  {
    if p in o.pinned then Pinned(o.pinned[p])
    else
      match LookupAccessor(Ancestry(o.cls), accessors, p)
      case None => Absent
      case Some(a) => Getter(a)
  }

  /**
   * The getter of `a` run on object `o` whose mesh has the chain `vs`:
   * `tryResolve` for an optional field, whose absent or nullish value reads
   * as `undefined` and is not pinned; `resolve` otherwise, whose error is the
   * read's error; with `cache`, the value is pinned on `o`.
   */
  ghost function GetterSpec(a: Accessor, vs: seq<MeshView>, objs: seq<ObjState>, o: nat): (r: Resolution)
    requires vs != [] && ChainAcyclic(vs) && o < |objs|
    ensures |r.views| == |vs|
  {
    var k := KeyToString(a.key);
    var s := ResolveSpec(vs, objs, k, |vs[0].bindings|);
    if a.optional && (s.result.Err? || IsNullish(s.result.value)) then Resolution(Ok(Undefined), s.views, s.objects)
    else if s.result.Err? || !a.cache then s
    else
      ResolveShape(vs, objs, k, |vs[0].bindings|);
      Resolution(s.result, s.views, s.objects[o := s.objects[o].(pinned := s.objects[o].pinned[a.propertyName := s.result.value])])
  }

  /** The meshes whose caches a read of a field of `o` may fill: the mesh `o` is connected to and its ancestors. */
  function Chain(o: ObjState): set<Mesh>
  {
    match MeshRefOf(o)
    case None => {}
    case Some(m) => {m} + m.ancestors
  }

  /** The getter `a` called with `this` the object `o` of `heap`. */
  method Get(a: Accessor, heap: Heap, o: nat) returns (r: Result<Value>)
    requires o < |heap.objects|
    requires var t := MeshRefOf(heap.objects[o]);
      t.Some? ==> t.value.Valid() && t.value.heap == heap && ChainAcyclic(t.value.Views())
    modifies heap`objects, Chain(heap.objects[o])`instances
    ensures var t := MeshRefOf(old(heap.objects[o]));
      t.None? ==> r == Err(DepInstanceNotConnected(a.className, a.propertyName)) && heap.objects == old(heap.objects)
    ensures var t := MeshRefOf(old(heap.objects[o]));
      t.Some? ==> var s := GetterSpec(a, old(t.value.Views()), old(heap.objects), o);
        r == s.result && heap.objects == s.objects && t.value.Views() == s.views
  {
    var t := MeshRefOf(heap.objects[o]);
    if t.None? {
      return Err(DepInstanceNotConnected(a.className, a.propertyName));
    }
    var m := t.value;
    ghost var vs, objs := m.Views(), heap.objects;
    var value: Value;
    if a.optional {
      var found := m.TryResolve(a.key);
      if found.None? || IsNullish(found.value) {
        return Ok(Undefined);
      }
      value := found.value;
    } else {
      r := m.Resolve(a.key);
      if r.Err? {
        return;
      }
      value := r.value;
    }
    if a.cache {
      ResolveShape(vs, objs, KeyToString(a.key), |vs[0].bindings|);
      label BeforePin:
      heap.Pin(o, a.propertyName, value);
      ViewsFrame@BeforePin(m);
    }
    r := Ok(value);
  }

  /**
   * `obj[p]` on the object `o` of `heap`: a pinned value is returned as it
   * is, a getter runs, and a property nobody defined reads as `undefined`.
   */
  method Read(heap: Heap, o: nat, p: string) returns (r: Result<Value>)
    requires o < |heap.objects|
    requires var t := MeshRefOf(heap.objects[o]);
      t.Some? ==> t.value.Valid() && t.value.heap == heap && ChainAcyclic(t.value.Views())
    modifies heap`objects, Chain(heap.objects[o])`instances
    ensures var f := FindProperty(old(heap.objects[o]), heap.accessors, p);
      && (f.Pinned? ==> r == Ok(f.value) && heap.objects == old(heap.objects))
      && (f.Absent? ==> r == Ok(Undefined) && heap.objects == old(heap.objects))
    ensures var f := FindProperty(old(heap.objects[o]), heap.accessors, p);
      var t := MeshRefOf(old(heap.objects[o]));
      !f.Getter? && t.Some? ==> t.value.Views() == old(t.value.Views())
    ensures var f := FindProperty(old(heap.objects[o]), heap.accessors, p);
      var t := MeshRefOf(old(heap.objects[o]));
      f.Getter? ==>
        && (t.None? ==> r == Err(DepInstanceNotConnected(f.accessor.className, f.accessor.propertyName)))
        && (t.None? ==> heap.objects == old(heap.objects))
        && (t.Some? ==> var s := GetterSpec(f.accessor, old(t.value.Views()), old(heap.objects), o);
              r == s.result && heap.objects == s.objects && t.value.Views() == s.views)
  {
    var f := FindProperty(heap.objects[o], heap.accessors, p);
    if f.Pinned? {
      r := Ok(f.value);
    } else if f.Getter? {
      r := Get(f.accessor, heap, o);
    } else {
      r := Ok(Undefined);
    }
  }

  /**
   * A cached read that succeeds pins its value under the getter's property:
   * a later read of that property finds the pinned value and does not run
   * the getter, so the mesh is not consulted again.
   */
  lemma CachedReadPins(a: Accessor, vs: seq<MeshView>, objs: seq<ObjState>, o: nat, accessors: map<(ClassRef, string), Accessor>)
    requires vs != [] && ChainAcyclic(vs) && o < |objs| && a.cache
    requires var s := ResolveSpec(vs, objs, KeyToString(a.key), |vs[0].bindings|);
      s.result.Ok? && (a.optional ==> !IsNullish(s.result.value))
    ensures var s := ResolveSpec(vs, objs, KeyToString(a.key), |vs[0].bindings|);
      var r := GetterSpec(a, vs, objs, o);
      && r.result == s.result && o < |r.objects|
      && FindProperty(r.objects[o], accessors, a.propertyName) == Pinned(s.result.value)
  {
    ResolveShape(vs, objs, KeyToString(a.key), |vs[0].bindings|);
  }

  /**
   * A read of an optional field that finds nothing keeps the instance as it
   * was: the getter is still in place and the next read asks the mesh again.
   */
  lemma OptionalMissRetries(a: Accessor, vs: seq<MeshView>, objs: seq<ObjState>, o: nat, accessors: map<(ClassRef, string), Accessor>)
    requires vs != [] && ChainAcyclic(vs) && o < |objs| && a.optional
    requires var s := ResolveSpec(vs, objs, KeyToString(a.key), |vs[0].bindings|);
      s.result.Err? || IsNullish(s.result.value)
    ensures var r := GetterSpec(a, vs, objs, o);
      && r.result == Ok(Undefined) && o < |r.objects|
      && FindProperty(r.objects[o], accessors, a.propertyName) == FindProperty(objs[o], accessors, a.propertyName)
  {
    var s := ResolveSpec(vs, objs, KeyToString(a.key), |vs[0].bindings|);
    ResolveShape(vs, objs, KeyToString(a.key), |vs[0].bindings|);
    assert s.objects[o].(ownTag := None) == objs[o].(ownTag := None);
    assert s.objects[o].pinned == objs[o].pinned && s.objects[o].cls == objs[o].cls;
  }

  /** A getter without `cache` pins nothing: every read runs it again. */
  lemma UncachedReadPinsNothing(a: Accessor, vs: seq<MeshView>, objs: seq<ObjState>, o: nat, accessors: map<(ClassRef, string), Accessor>)
    requires vs != [] && ChainAcyclic(vs) && o < |objs| && !a.cache
    ensures var r := GetterSpec(a, vs, objs, o);
      o < |r.objects| && FindProperty(r.objects[o], accessors, a.propertyName) == FindProperty(objs[o], accessors, a.propertyName)
  {
    var s := ResolveSpec(vs, objs, KeyToString(a.key), |vs[0].bindings|);
    ResolveShape(vs, objs, KeyToString(a.key), |vs[0].bindings|);
    assert s.objects[o].(ownTag := None) == objs[o].(ownTag := None);
    assert s.objects[o].pinned == objs[o].pinned && s.objects[o].cls == objs[o].cls;
  }

  /**
   * A service instance is connected before its constructor body runs: its
   * derived prototype already carries the mesh, and a field declared on the
   * class reads through the getter.
   */
  lemma ConstructedReadsThroughMesh(c: ClassRef, m: Mesh, accessors: map<(ClassRef, string), Accessor>, p: string)
    requires (c, p) in accessors
    ensures MeshRefOf(Constructed(c, m)) == Some(m)
    ensures FindProperty(Constructed(c, m), accessors, p) == Getter(accessors[(c, p)])
  {
  }

  /**
   * A required field whose key no mesh of the chain binds fails when it is
   * read, with the not-found error of the root mesh, and changes nothing.
   */
  lemma RequiredUnboundFails(a: Accessor, vs: seq<MeshView>, objs: seq<ObjState>, o: nat)
    requires vs != [] && ChainAcyclic(vs) && o < |objs| && !a.optional
    requires Unbound(vs, KeyToString(a.key))
    ensures GetterSpec(a, vs, objs, o) ==
      Resolution(Err(MeshBindingNotFound(vs[|vs| - 1].name, KeyToString(a.key))), vs, objs)
  {
    UnboundKeyNotFound(vs, objs, KeyToString(a.key), |vs[0].bindings|);
  }

  /** The same field declared optional reads as `undefined` instead, and pins nothing. */
  lemma OptionalUnboundIsUndefined(a: Accessor, vs: seq<MeshView>, objs: seq<ObjState>, o: nat)
    requires vs != [] && ChainAcyclic(vs) && o < |objs| && a.optional
    requires Unbound(vs, KeyToString(a.key))
    ensures GetterSpec(a, vs, objs, o) == Resolution(Ok(Undefined), vs, objs)
  {
    UnboundKeyNotFound(vs, objs, KeyToString(a.key), |vs[0].bindings|);
  }
}
