/**
 * The container's error classes (src/main/errors.ts), with their `name` and
 * `message`, plus the runtime TypeError that JavaScript itself raises on the
 * two paths the model reaches it (tagging `null`; reading `.name` of a missing
 * design type).
 */
module Errors {

  datatype MeshError =
    | DepKeyNotInferred(className: string, propertyName: string)
    | DepInstanceNotConnected(className: string, propertyName: string)
    | MeshBindingNotFound(meshName: string, serviceKey: string)
    | MeshInvalidBinding(key: string)
    | TypeError(message: string)

  /** A failing operation throws one of the errors above. */
  datatype Result<+T> = Ok(value: T) | Err(error: MeshError)

  /** Every error's `name` is the name of its concrete class. */
  function Name(e: MeshError): (n: string)
    ensures n == "TypeError" <==> e.TypeError?
  {
    match e
    case DepKeyNotInferred(_, _) => "DepKeyNotInferred"
    case DepInstanceNotConnected(_, _) => "DepInstanceNotConnected"
    case MeshBindingNotFound(_, _) => "MeshBindingNotFound"
    case MeshInvalidBinding(_) => "MeshInvalidBinding"
    case TypeError(_) => "TypeError"
  }

  /** The qualified member `<className>.<propertyName>: ` that opens the two `@dep` errors. */
  function Location(className: string, propertyName: string): string
  {
    className + "." + propertyName + ": "
  }

  function Quoted(s: string): string
  {
    "\"" + s + "\""
  }

  function Message(e: MeshError): string
  {
    match e
    case DepKeyNotInferred(c, p) =>
      Location(c, p)
      + "@dep cannot infer the binding key (possibly due to circular dependency); "
      + "please specify @dep({ key }) explicitly"
    case DepInstanceNotConnected(c, p) =>
      Location(c, p) + "Cannot access @dep(): instance is not connected to Mesh"
    case MeshBindingNotFound(meshName, key) =>
      Quoted(key) + " not found in Mesh " + Quoted(meshName)
    case MeshInvalidBinding(key) =>
      "Invalid binding " + Quoted(key) + ". Valid bindings are: "
      + "string to constructor e.g. (\"MyService\", MyService) or "
      + "abstract class to constructor e.g. (MyService, MyServiceImpl) or"
      + "constructor to self e.g. (MyService)"
    case TypeError(m) => m
  }

  /** The two `@dep` errors open with the failing member and keep both names as fields. */
  lemma DepErrorsLocateMember(e: MeshError)
    requires e.DepKeyNotInferred? || e.DepInstanceNotConnected?
    ensures var loc := Location(e.className, e.propertyName);
      |loc| <= |Message(e)| && Message(e)[..|loc|] == loc
    ensures Name(e) == if e.DepKeyNotInferred? then "DepKeyNotInferred" else "DepInstanceNotConnected"
  {
    var loc := Location(e.className, e.propertyName);
    var rest := if e.DepKeyNotInferred? then
        "@dep cannot infer the binding key (possibly due to circular dependency); "
        + "please specify @dep({ key }) explicitly"
      else "Cannot access @dep(): instance is not connected to Mesh";
    assert Message(e) == loc + rest;
  }

  /** The container's own error classes all have different names. */
  lemma NamesDistinguishKinds(e1: MeshError, e2: MeshError)
    requires !e1.TypeError? && !e2.TypeError?
    ensures Name(e1) == Name(e2) <==>
      (&& e1.DepKeyNotInferred? == e2.DepKeyNotInferred?
       && e1.DepInstanceNotConnected? == e2.DepInstanceNotConnected?
       && e1.MeshBindingNotFound? == e2.MeshBindingNotFound?)
  {
  }

  /** The invalid-binding message embeds the offending key in quotes, right after "Invalid binding ". */
  lemma InvalidBindingQuotesKey(key: string)
    ensures var m := Message(MeshInvalidBinding(key));
      |m| > 18 + |key| && m[..16] == "Invalid binding " && m[16] == '"'
      && m[17..17 + |key|] == key && m[17 + |key|] == '"'
  {
    var m := Message(MeshInvalidBinding(key));
    assert m == "Invalid binding " + ("\"" + key + "\"") + (". Valid bindings are: "
      + "string to constructor e.g. (\"MyService\", MyService) or "
      + "abstract class to constructor e.g. (MyService, MyServiceImpl) or"
      + "constructor to self e.g. (MyService)");
  }

  predicate NoQuote(s: string)
  {
    forall i | 0 <= i < |s| :: s[i] != '"'
  }

  /** The text after the quoted key in a not-found message. */
  function NotFoundTail(meshName: string): string
  {
    " not found in Mesh " + Quoted(meshName)
  }

  lemma QuotedAt(s: string, i: nat)
    requires i <= |s|
    ensures |Quoted(s)| == |s| + 2
    ensures Quoted(s)[i + 1] == if i == |s| then '"' else s[i]
  {
  }

  /**
   * The not-found message is exactly `"<key>" not found in Mesh "<meshName>"`,
   * and for a key without a double quote it names the key and the mesh
   * unambiguously: two such messages are equal only for the same key and the
   * same mesh name.
   */
  lemma {:induction false} NotFoundMessageIdentifies(n1: string, k1: string, n2: string, k2: string)
    requires NoQuote(k1) && NoQuote(k2)
    ensures Message(MeshBindingNotFound(n1, k1)) == Message(MeshBindingNotFound(n2, k2))
      <==> n1 == n2 && k1 == k2
  {
    var q1, q2 := Quoted(k1), Quoted(k2);
    var m1, m2 := q1 + NotFoundTail(n1), q2 + NotFoundTail(n2);
    assert Message(MeshBindingNotFound(n1, k1)) == m1;
    assert Message(MeshBindingNotFound(n2, k2)) == m2;
    if |k1| < |k2| {
      QuotedAt(k1, |k1|);
      QuotedAt(k2, |k1|);
      assert m1[1 + |k1|] != m2[1 + |k1|];
    } else if |k2| < |k1| {
      QuotedAt(k2, |k2|);
      QuotedAt(k1, |k2|);
      assert m1[1 + |k2|] != m2[1 + |k2|];
    }
    if m1 == m2 {
      assert q1 == m1[..|q1|] == m2[..|q2|] == q2;
      assert k1 == q1[1..|q1| - 1] == q2[1..|q2| - 1] == k2;
      var t1, t2 := NotFoundTail(n1), NotFoundTail(n2);
      assert t1 == m1[|q1|..] == m2[|q2|..] == t2;
      var p := " not found in Mesh ";
      assert Quoted(n1) == t1[|p|..] == t2[|p|..] == Quoted(n2);
      assert n1 == Quoted(n1)[1..|n1| + 1] == Quoted(n2)[1..|n2| + 1] == n2;
    }
  }
}
