/**
 * Declaring dependency fields: the `@dep` decorator of src/main/dep.ts with
 * its table of declarations and `getClassDeps`, the two older `@dep`
 * variants (src/main/decorators/dep.ts and src/main/decorators.ts) and the
 * `@scope` accessor (src/main/scope.ts). Each decorator installs an
 * `Accessor` on the class's prototype; reading it is modelled in module Fields.
 */
module Declarations {
  import opened Types
  import opened Errors
  import opened Containers

  /** The options object of `@dep`; an absent member takes its default. */
  datatype DepOptions = DepOptions(key: Option<string>, cache: Option<bool>, optional: Option<bool>)

  function OrDefault(o: Option<bool>, d: bool): (b: bool)
    ensures o.Some? ==> b == o.value
    ensures o.None? ==> b == d
  {
    if o.Some? then o.value else d
  }

  /**
   * The key a declaration resolves: the explicit key if one is given, else
   * the name of the field's design type. An empty key is rejected rather
   * than replaced: an explicit `''` does not fall back to the design type.
   */
  function DeclaredKey(className: string, propertyName: string, explicit: Option<string>, designType: Option<ClassRef>): (r: Result<string>)
    ensures r.Ok? ==> r.value != ""
    ensures explicit.Some? && r.Ok? ==> r.value == explicit.value
    ensures explicit.None? && r.Ok? ==> designType.Some? && r.value == designType.value.name
    ensures r.Err? ==> r.error == DepKeyNotInferred(className, propertyName)
    ensures r.Err? <==>
      || (explicit.Some? && explicit.value == "")
      || (explicit.None? && (designType.None? || designType.value.name == ""))
  {
    var key := if explicit.Some? then explicit else if designType.Some? then Some(designType.value.name) else None;
    if key.None? || key.value == "" then Err(DepKeyNotInferred(className, propertyName))
    else Ok(key.value)
  }

  /** The error JavaScript raises for `designType.name` when there is no design type. */
  const NoDesignTypeName: MeshError := TypeError("Cannot read properties of undefined (reading 'name')")

  /**
   * The key and design-type name the older decorators record: after the key
   * check they read the design type's name unguarded, so an explicit key
   * without a design type fails too.
   */
  function LegacyRecordFields(className: string, propertyName: string, explicit: Option<string>, designType: Option<ClassRef>): (r: Result<(string, string)>)
    ensures r.Ok? <==> DeclaredKey(className, propertyName, explicit, designType).Ok? && designType.Some?
    ensures r.Ok? ==> r.value == (DeclaredKey(className, propertyName, explicit, designType).value, designType.value.name)
    ensures DeclaredKey(className, propertyName, explicit, designType).Err? ==> r == Err(DepKeyNotInferred(className, propertyName))
    ensures DeclaredKey(className, propertyName, explicit, designType).Ok? && designType.None? ==> r == Err(NoDesignTypeName)
  {
    var key := DeclaredKey(className, propertyName, explicit, designType);
    if key.Err? then Err(key.error)
    else if designType.None? then Err(NoDesignTypeName)
    else Ok((key.value, designType.value.name))
  }

  /** An explicit key with no design type is accepted by `@dep` but rejected by the older decorators. */
  lemma ExplicitKeyWithoutDesignType(className: string, propertyName: string, key: string)
    requires key != ""
    ensures DeclaredKey(className, propertyName, Some(key), None) == Ok(key)
    ensures LegacyRecordFields(className, propertyName, Some(key), None) == Err(NoDesignTypeName)
  {
  }

  /** The records of `records` that belong to class `c`, in recording order. */
  function OwnDeps(records: seq<DepMetadata>, c: ClassRef): (r: seq<DepMetadata>)
    ensures |r| <= |records|
    ensures forall i | 0 <= i < |r| :: r[i].cls == c
  {
    if records == [] then []
    else (if records[0].cls == c then [records[0]] else []) + OwnDeps(records[1..], c)
  }

  /** The declarations of `c` and then those of each ancestor, nearest first. */
  function ClassDeps(records: seq<DepMetadata>, c: ClassRef): seq<DepMetadata>
    decreases c
  {
    OwnDeps(records, c) + match c.base { case None => [] case Some(b) => ClassDeps(records, b) }
  }

  /** What `Object.getPrototypeOf` walks through from a class: its ancestors, `Function.prototype`, `Object.prototype`. */
  datatype Proto = ClassProto(c: ClassRef) | FunctionPrototype | ObjectPrototype

  function PrototypeOf(p: Proto): (q: Proto)
    requires !p.ObjectPrototype?
    ensures Rank(q) < Rank(p)
  {
    match p
    case ClassProto(c) => if c.base.Some? then ClassProto(c.base.value) else FunctionPrototype
    case FunctionPrototype => ObjectPrototype
  }

  function Rank(p: Proto): nat
  {
    match p
    case ClassProto(c) => |Ancestry(c)| + 1
    case FunctionPrototype => 1
    case ObjectPrototype => 0
  }

  /** The declarations still to be collected from `p` on. */
  function DepsFrom(records: seq<DepMetadata>, p: Proto): seq<DepMetadata>
  {
    if p.ClassProto? then ClassDeps(records, p.c) else []
  }

  /** The module-level `depMetadata` array of src/main/dep.ts. */
  class DepTable {
    var records: seq<DepMetadata>

    constructor()
      ensures records == []
    {
      records := [];
    }

    /**
     * `@dep(options)` applied to field `propertyName` of class `target`:
     * one record appended and a getter installed, or `DepKeyNotInferred`
     * with nothing changed. `cache` defaults to true, `optional` to false.
     */
    method Dep(heap: Heap, target: ClassRef, propertyName: string, designType: Option<ClassRef>, options: DepOptions) returns (r: Result<()>)
      modifies this`records, heap`accessors
      ensures var key := DeclaredKey(target.name, propertyName, options.key, designType);
        && (r.Err? <==> key.Err?)
        && (r.Err? ==> r.error == key.error && records == old(records) && heap.accessors == old(heap.accessors))
        && (r.Ok? ==>
              && records == old(records) + [DepMetadata(target, propertyName, key.value)]
              && heap.accessors == old(heap.accessors)[(target, propertyName) :=
                   Accessor(target.name, propertyName, StringKey(key.value),
                            OrDefault(options.cache, true), OrDefault(options.optional, false))])
    {
      var key := DeclaredKey(target.name, propertyName, options.key, designType);
      if key.Err? {
        return Err(key.error);
      }
      records := records + [DepMetadata(target, propertyName, key.value)];
      heap.Install(target, propertyName,
        Accessor(target.name, propertyName, StringKey(key.value), OrDefault(options.cache, true), OrDefault(options.optional, false)));
      r := Ok(());
    }

    /** `getClassDeps(ctor)`: follows the prototype chain until `Object.prototype`. */
    method GetClassDeps(ctor: ClassRef) returns (result: seq<DepMetadata>)
      ensures result == ClassDeps(records, ctor)
    {
      result := [];
      var proto := ClassProto(ctor);
      while proto != ObjectPrototype
        invariant result + DepsFrom(records, proto) == ClassDeps(records, ctor)
        decreases Rank(proto)
      {
        var deps := if proto.ClassProto? then OwnDeps(records, proto.c) else [];
        DepsFromStep(records, proto, result);
        result := result + deps;
        proto := PrototypeOf(proto);
      }
    }
  }

  /** One step of the walk: the declarations of `p` itself, then those from its prototype on. */
  lemma DepsFromStep(records: seq<DepMetadata>, p: Proto, done: seq<DepMetadata>)
    requires !p.ObjectPrototype?
    ensures done + (if p.ClassProto? then OwnDeps(records, p.c) else []) + DepsFrom(records, PrototypeOf(p))
      == done + DepsFrom(records, p)
  {
    if p.ClassProto? && p.c.base.None? {
      assert ClassDeps(records, p.c) == OwnDeps(records, p.c) + [];
    }
  }

  lemma {:induction false} OwnDepsMembers(records: seq<DepMetadata>, c: ClassRef, d: DepMetadata)
    ensures d in OwnDeps(records, c) <==> d in records && d.cls == c
  {
    if records != [] {
      OwnDepsMembers(records[1..], c, d);
      assert records == [records[0]] + records[1..];
    }
  }

  /**
   * `getClassDeps` returns exactly the declarations made on the class or on
   * one of its ancestors, so a subclass inherits its parents' fields.
   */
  lemma {:induction false} ClassDepsMembers(records: seq<DepMetadata>, c: ClassRef, d: DepMetadata)
    ensures d in ClassDeps(records, c) <==> d in records && d.cls in Ancestry(c)
    decreases c
  {
    OwnDepsMembers(records, c, d);
    match c.base
    case None =>
    case Some(b) =>
      ClassDepsMembers(records, b, d);
      assert Ancestry(c) == [c] + Ancestry(b);
  }

  /** A declaration counts for its own class and every subclass, and for nothing else. */
  lemma {:induction false} DeclarationReachesSubclasses(records: seq<DepMetadata>, d: DepMetadata, c: ClassRef)
    ensures d in ClassDeps(records + [d], c) <==> d.cls == c || IsPrototypeOf(d.cls, c)
  {
    ClassDepsMembers(records + [d], c, d);
    AncestryIsPrototypeOf(d.cls, c);
  }

  /** The class's own declarations come first, in the order they were made. */
  lemma OwnDepsFirst(records: seq<DepMetadata>, c: ClassRef)
    ensures var own := OwnDeps(records, c);
      |own| <= |ClassDeps(records, c)| && ClassDeps(records, c)[..|own|] == own
  {
  }

  /** When the declarations of `c` are the contiguous block `i..j`, they are exactly that block. */
  lemma {:induction false} OwnDepsBlock(records: seq<DepMetadata>, c: ClassRef, i: nat, j: nat)
    requires i <= j <= |records|
    requires forall k | 0 <= k < |records| :: records[k].cls == c <==> i <= k < j
    ensures OwnDeps(records, c) == records[i..j]
    decreases |records|
  {
    if records != [] {
      var rest := records[1..];
      var i', j' := if i > 0 then i - 1 else 0, if j > 0 then j - 1 else 0;
      forall k | 0 <= k < |rest| ensures rest[k].cls == c <==> i' <= k < j' {
        assert rest[k] == records[k + 1];
      }
      OwnDepsBlock(rest, c, i', j');
      if i == 0 && j > 0 {
        assert records[i..j] == [records[0]] + rest[i'..j'];
      } else {
        assert records[i..j] == rest[i'..j'];
      }
    }
  }

  /**
   * The class hierarchy of the dependency-analysis tests
   * (src/test/specs/deps.test.ts:12-46): `EImpl extends E`, `FImpl extends F`.
   */
  const ClassA := ClassRef(1, "A", None)
  const ClassB := ClassRef(2, "B", None)
  const ClassC := ClassRef(3, "C", None)
  const ClassD := ClassRef(4, "D", None)
  const ClassE := ClassRef(5, "E", None)
  const ClassF := ClassRef(6, "F", None)
  const ClassG := ClassRef(7, "G", None)
  const ClassEImpl := ClassRef(8, "EImpl", Some(ClassE))
  const ClassFImpl := ClassRef(9, "FImpl", Some(ClassF))

  /** The `@dep()` declarations of that hierarchy, in declaration order, with their inferred keys. */
  const HierarchyRecords: seq<DepMetadata> := [
    DepMetadata(ClassB, "a", "A"), DepMetadata(ClassC, "b", "B"), DepMetadata(ClassD, "a", "A"),
    DepMetadata(ClassE, "d", "D"), DepMetadata(ClassE, "b", "B"), DepMetadata(ClassF, "c", "C"),
    DepMetadata(ClassF, "e", "E"), DepMetadata(ClassG, "c", "C"),
    DepMetadata(ClassEImpl, "eDep", "EDep"), DepMetadata(ClassFImpl, "fDep", "FDep")]

  /** A subclass's own declaration comes first, then its parent's two, in declaration order. */
  lemma SubclassDepsInOrder()
    ensures ClassDeps(HierarchyRecords, ClassEImpl) ==
      [DepMetadata(ClassEImpl, "eDep", "EDep"), DepMetadata(ClassE, "d", "D"), DepMetadata(ClassE, "b", "B")]
  {
    OwnDepsBlock(HierarchyRecords, ClassEImpl, 8, 9);
    OwnDepsBlock(HierarchyRecords, ClassE, 3, 5);
  }

  /** The same for `FImpl extends F`, whose fields resolve 'FDep', 'C' and 'E'. */
  lemma SecondSubclassDepsInOrder()
    ensures ClassDeps(HierarchyRecords, ClassFImpl) ==
      [DepMetadata(ClassFImpl, "fDep", "FDep"), DepMetadata(ClassF, "c", "C"), DepMetadata(ClassF, "e", "E")]
  {
    OwnDepsBlock(HierarchyRecords, ClassFImpl, 9, 10);
    OwnDepsBlock(HierarchyRecords, ClassF, 5, 7);
  }

  /** A record of the older `@dep` of src/main/decorators/dep.ts. */
  datatype TypedDepRecord = TypedDepRecord(cls: ClassRef, propertyName: string, designTypeName: string, key: string)

  /** The `depMetadata` array of src/main/decorators/dep.ts. */
  class TypedDepTable {
    var records: seq<TypedDepRecord>

    constructor()
      ensures records == []
    {
      records := [];
    }

    /** The older `@dep({ key })`: records the design type's name; its getter neither pins nor is optional. */
    method Dep(heap: Heap, target: ClassRef, propertyName: string, designType: Option<ClassRef>, key: Option<string>) returns (r: Result<()>)
      modifies this`records, heap`accessors
      ensures var f := LegacyRecordFields(target.name, propertyName, key, designType);
        && (r.Err? <==> f.Err?)
        && (r.Err? ==> r.error == f.error && records == old(records) && heap.accessors == old(heap.accessors))
        && (r.Ok? ==>
              && records == old(records) + [TypedDepRecord(target, propertyName, f.value.1, f.value.0)]
              && heap.accessors == old(heap.accessors)[(target, propertyName) :=
                   Accessor(target.name, propertyName, StringKey(f.value.0), false, false)])
    {
      var f := LegacyRecordFields(target.name, propertyName, key, designType);
      if f.Err? {
        return Err(f.error);
      }
      records := records + [TypedDepRecord(target, propertyName, f.value.1, f.value.0)];
      heap.Install(target, propertyName, Accessor(target.name, propertyName, StringKey(f.value.0), false, false));
      r := Ok(());
    }
  }

  /** A record of the `@dep` of src/main/decorators.ts: the owner is known only by its name. */
  datatype NamedDepRecord = NamedDepRecord(className: string, propertyName: string, designTypeName: string, key: string)

  /** The shared `depMetadata` array that src/main/decorators.ts appends to. */
  class NamedDepTable {
    var records: seq<NamedDepRecord>

    constructor()
      ensures records == []
    {
      records := [];
    }

    /** `@dep({ key })` of src/main/decorators.ts: as the typed variant, but the record keeps the class name only. */
    method Dep(heap: Heap, target: ClassRef, propertyName: string, designType: Option<ClassRef>, key: Option<string>) returns (r: Result<()>)
      modifies this`records, heap`accessors
      ensures var f := LegacyRecordFields(target.name, propertyName, key, designType);
        && (r.Err? <==> f.Err?)
        && (r.Err? ==> r.error == f.error && records == old(records) && heap.accessors == old(heap.accessors))
        && (r.Ok? ==>
              && records == old(records) + [NamedRecord(target, propertyName, f.value.1, f.value.0)]
              && heap.accessors == old(heap.accessors)[(target, propertyName) :=
                   Accessor(target.name, propertyName, StringKey(f.value.0), false, false)])
    {
      var f := LegacyRecordFields(target.name, propertyName, key, designType);
      if f.Err? {
        return Err(f.error);
      }
      records := records + [NamedRecord(target, propertyName, f.value.1, f.value.0)];
      heap.Install(target, propertyName, Accessor(target.name, propertyName, StringKey(f.value.0), false, false));
      r := Ok(());
    }
  }

  /** The record src/main/decorators.ts appends for field `p` of class `c`. */
  function NamedRecord(c: ClassRef, p: string, designTypeName: string, key: string): (r: NamedDepRecord)
    ensures r.className == c.name && r.propertyName == p && r.designTypeName == designTypeName && r.key == key
  {
    NamedDepRecord(c.name, p, designTypeName, key)
  }

  /** Two distinct classes with one name declare indistinguishable records. */
  lemma SameNamedClassesShareRecords(c1: ClassRef, c2: ClassRef, p: string, t: string, k: string)
    requires c1.name == c2.name
    ensures NamedRecord(c1, p, t, k) == NamedRecord(c2, p, t, k)
  {
  }

  /**
   * `@scope(serviceKey)` on field `propertyName` of class `target`: only a
   * getter is installed, no declaration is recorded, and the key is passed
   * through to `resolve` as it is; the getter neither pins nor is optional.
   */
  method ScopeField(heap: Heap, target: ClassRef, propertyName: string, serviceKey: ServiceKey)
    modifies heap`accessors
    ensures heap.accessors == old(heap.accessors)[(target, propertyName) := Accessor(target.name, propertyName, serviceKey, false, false)]
  {
    heap.Install(target, propertyName, Accessor(target.name, propertyName, serviceKey, false, false));
  }
}
