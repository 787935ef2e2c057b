/** Helpers of src/main/util.ts: key normalisation and the constructor-or-factory dispatch. */
module Util {
  import opened Types

  /** The string under which a key is stored: a string itself, a class its name. */
  function KeyToString(key: ServiceKey): (k: string)
    ensures key.StringKey? ==> k == key.s
    ensures key.ClassKey? ==> k == key.cls.name
  {
    match key
    case StringKey(s) => s
    case ClassKey(c) => c.name
  }

  /** Two different classes that share a name collide on the same key. */
  lemma SameNameSameKey(a: ClassRef, b: ClassRef)
    requires a.name == b.name
    ensures KeyToString(ClassKey(a)) == KeyToString(ClassKey(b))
  {
  }

  /** Normalising a key twice changes nothing: a delegated resolve sees the same string. */
  lemma KeyToStringIdempotent(key: ServiceKey)
    ensures KeyToString(StringKey(KeyToString(key))) == KeyToString(key)
  {
  }

  /** `typeof v === 'function' && v.prototype != null`. */
  predicate IsConstructor(v: Value)
  {
    TypeOf(v) == "function" && (v.Class? || v.hasPrototype)
  }

  /** How `instantiate` invokes its callee: with `new`, or as a plain call. */
  datatype Invocation = Construct(callee: Value, args: seq<Value>) | Call(callee: Value, args: seq<Value>)

  function Instantiate(constructorOrFactory: Value, args: seq<Value>): (i: Invocation)
    ensures i.callee == constructorOrFactory && i.args == args
    ensures i.Construct? <==> IsConstructor(constructorOrFactory)
  {
    if IsConstructor(constructorOrFactory) then Construct(constructorOrFactory, args)
    else Call(constructorOrFactory, args)
  }

  /** Only functions can be constructors; every class is one; a function without a prototype is not. */
  lemma IsConstructorCases(v: Value)
    ensures IsConstructor(v) <==> v.Class? || (v.Func? && v.hasPrototype)
  {
  }

  /**
   * A class is always constructed with `new`; a factory without a prototype
   * (an arrow function) and any value that is not a function are plainly
   * called.
   */
  lemma InstantiateDispatch(v: Value, args: seq<Value>)
    ensures v.Class? ==> Instantiate(v, args) == Construct(v, args)
    ensures v.Func? && !v.hasPrototype ==> Instantiate(v, args) == Call(v, args)
    ensures !v.Class? && !v.Func? ==> Instantiate(v, args) == Call(v, args)
  {
    IsConstructorCases(v);
  }
}
