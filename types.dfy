/**
 * The data of src/main/types.ts, together with the few JavaScript runtime
 * notions the container relies on: classes and their static prototype chain,
 * values with their truthiness and `typeof`, and the property getters that the
 * decorators install on class prototypes.
 */
module Types {

  datatype Option<+T> = None | Some(value: T)

  /**
   * A JavaScript class. `base` is the class it extends (its static
   * prototype); `id` tells apart two classes that share a name. A class is
   * identified by the whole value.
   */
  datatype ClassRef = ClassRef(id: nat, name: string, base: Option<ClassRef>)

  /** `a.isPrototypeOf(c)` on two constructors: `a` is a strict ancestor of `c`. */
  predicate IsPrototypeOf(a: ClassRef, c: ClassRef)
    decreases c
  {
    match c.base
    case None => false
    case Some(b) => b == a || IsPrototypeOf(a, b)
  }

  /** The class itself followed by its ancestors, nearest first. */
  function Ancestry(c: ClassRef): (r: seq<ClassRef>)
    decreases c
    ensures |r| > 0 && r[0] == c
  {
    match c.base
    case None => [c]
    case Some(b) => [c] + Ancestry(b)
  }

  /** A class is `a` itself or one of its subclasses exactly when `a` occurs in its ancestry. */
  lemma {:induction false} AncestryIsPrototypeOf(a: ClassRef, c: ClassRef)
    ensures a in Ancestry(c) <==> (a == c || IsPrototypeOf(a, c))
    decreases c
  {
    match c.base
    case None =>
    case Some(b) =>
      AncestryIsPrototypeOf(a, b);
      assert Ancestry(c) == [c] + Ancestry(b);
  }

  /**
   * A JavaScript value. Numbers are integers (NaN and fractions are not
   * modelled); `Obj` is an object by identity, an index into the heap;
   * `Class` is a class (a function with a prototype); `Func` is any other
   * function, with or without a `prototype` property.
   */
  datatype Value =
    | Undefined
    | Null
    | Bool(b: bool)
    | Num(n: int)
    | Str(s: string)
    | Obj(id: nat)
    | Class(cls: ClassRef)
    | Func(fid: nat, hasPrototype: bool)

  /** JavaScript truthiness: `undefined`, `null`, `false`, `0` and `''` are falsy. */
  predicate Truthy(v: Value)
  {
    match v
    case Undefined => false
    case Null => false
    case Bool(b) => b
    case Num(n) => n != 0
    case Str(s) => s != ""
    case _ => true
  }

  /** The JavaScript `typeof` operator; note that `typeof null` is "object". */
  function TypeOf(v: Value): string
  {
    match v
    case Undefined => "undefined"
    case Null => "object"
    case Bool(_) => "boolean"
    case Num(_) => "number"
    case Str(_) => "string"
    case Obj(_) => "object"
    case Class(_) => "function"
    case Func(_, _) => "function"
  }

  /** Loose equality with null: `v == null`. */
  predicate IsNullish(v: Value)
  {
    v.Undefined? || v.Null?
  }

  /** A service key: a class (constructor or abstract class) or a string. */
  datatype ServiceKey = ClassKey(cls: ClassRef) | StringKey(s: string)

  /** One entry of a binding table: exactly one of three tagged variants. */
  datatype Binding =
    | Constant(value: Value)
    | Service(cls: ClassRef)
    | Alias(key: string)

  /** A middleware maps one value to one value. */
  type Middleware = Value -> Value

  /** One dependency declaration: owner class, property name and resolution key. */
  datatype DepMetadata = DepMetadata(cls: ClassRef, propertyName: string, key: string)

  /**
   * A getter installed on a class prototype by a decorator. `className` and
   * `propertyName` are captured when the decorator runs; `cache` pins the
   * first value read, `optional` turns a missing binding into `undefined`.
   */
  datatype Accessor = Accessor(
    className: string,
    propertyName: string,
    key: ServiceKey,
    cache: bool,
    optional: bool)

  /** A decorated handler method: the class that declares it and the method name. */
  datatype ServiceHandler = ServiceHandler(target: ClassRef, methodName: string)
}
