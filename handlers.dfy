/**
 * Handler discovery of src/main/reflect.ts: decorators that register a
 * class's methods under a handler name, and `findHandlers`, which walks a
 * mesh's service bindings (and its parent's) for classes with registered
 * handlers.
 */
module Handlers {
  import opened Types
  import opened Errors
  import opened Containers

  /** The array of handlers registered under one name; the decorators of that name share it. */
  class HandlerList {
    var handlers: seq<ServiceHandler>

    constructor()
      ensures handlers == []
    {
      handlers := [];
    }
  }

  /** The decorator `createHandlerDecorator(name)()` returns: it appends to the list it captured. */
  class HandlerDecorator {
    const list: HandlerList

    constructor(list: HandlerList)
      ensures this.list == list
    {
      this.list := list;
    }

    /** Decorating method `methodName` of class `target` registers it, after every earlier registration. */
    method Decorate(target: ClassRef, methodName: string)
      modifies list
      ensures list.handlers == old(list.handlers) + [ServiceHandler(target, methodName)]
    {
      list.handlers := list.handlers + [ServiceHandler(target, methodName)];
    }
  }

  /** The module-level `handlersMap`. */
  class HandlerRegistry {
    var lists: map<string, HandlerList>

    constructor()
      ensures lists == map[]
    {
      lists := map[];
    }

    /** `createHandlerDecorator(name)`: reuses the list already stored under `name`, or stores a new empty one. */
    method CreateHandlerDecorator(name: string) returns (d: HandlerDecorator)
      modifies this
      ensures fresh(d)
      ensures name in old(lists) ==> d.list == old(lists[name]) && lists == old(lists)
      ensures name !in old(lists) ==> fresh(d.list) && d.list.handlers == [] && lists == old(lists)[name := d.list]
    {
      var handlers: HandlerList;
      if name in lists {
        handlers := lists[name];
      } else {
        handlers := new HandlerList();
      }
      lists := lists[name := handlers];
      d := new HandlerDecorator(handlers);
    }

    /** `handlersMap.get(name) ?? []`. */
    function Targets(name: string): seq<ServiceHandler>
      reads this, set l | l in lists.Values
    {
      if name in lists then lists[name].handlers else []
    }
  }

  /**
   * One result of `findHandlers`: the method `methodName` of the instance
   * bound to `key` in the mesh `level` steps up the parent chain.
   */
  datatype HandlerMatch = HandlerMatch(level: nat, key: string, methodName: string)

  /** A handler registered on class `t.target` applies to instances of that class and of its subclasses. */
  predicate Applies(t: ServiceHandler, cls: ClassRef)
  {
    t.target == cls || IsPrototypeOf(t.target, cls)
  }

  /** The handlers that apply to a service of class `cls`, in registration order. */
  function MatchesFor(targets: seq<ServiceHandler>, cls: ClassRef, level: nat, key: string): (r: seq<HandlerMatch>)
    ensures |r| <= |targets|
    ensures forall i | 0 <= i < |r| :: r[i].level == level && r[i].key == key
  {
    if targets == [] then []
    else
      (if Applies(targets[0], cls) then [HandlerMatch(level, key, targets[0].methodName)] else [])
      + MatchesFor(targets[1..], cls, level, key)
  }

  /** The matches of one mesh: its bindings in insertion order, services only. */
  function LocalHandlers(order: seq<string>, bindings: map<string, Binding>, targets: seq<ServiceHandler>, level: nat): (r: seq<HandlerMatch>)
    ensures forall i | 0 <= i < |r| :: r[i].level == level
  {
    if order == [] then []
    else
      var k := order[0];
      (if k in bindings && bindings[k].Service? then MatchesFor(targets, bindings[k].cls, level, k) else [])
      + LocalHandlers(order[1..], bindings, targets, level)
  }

  /**
   * `findHandlers(mesh, name, recursive)` over the bindings of each mesh of
   * the chain `vs`, starting at `level`; the parent is searched only when
   * `recursive` is set.
   */
  function FindHandlers(vs: seq<MeshView>, targets: seq<ServiceHandler>, recursive: bool, level: nat): (r: seq<HandlerMatch>)
    ensures forall i | 0 <= i < |r| :: level <= r[i].level < level + |vs| && (recursive || r[i].level == level)
    decreases |vs|
  {
    if vs == [] then []
    else
      var up := if recursive && |vs| > 1 then FindHandlers(vs[1..], targets, recursive, level + 1) else [];
      LocalHandlers(vs[0].order, vs[0].bindings, targets, level) + up
  }

  /**
   * `findHandlers` as written: it iterates `mesh.bindings`, a property the
   * `Mesh` class does not have (its table is `currentScope.bindings`), so the
   * `for … of` throws on the first step, whatever the mesh.
   */
  function FindHandlersAsWritten(vs: seq<MeshView>, targets: seq<ServiceHandler>, recursive: bool): Result<seq<HandlerMatch>>
  {
    Err(TypeError("mesh.bindings is not iterable"))
  }

  /** Where a handler matches a service of the first mesh, the corrected search yields it but the code as written throws. */
  lemma AsWrittenMissesMatches(vs: seq<MeshView>, targets: seq<ServiceHandler>, recursive: bool, k: string, methodName: string)
    requires vs != [] && k in vs[0].order && ServiceMatch(vs[0].bindings, targets, k, methodName)
    ensures HandlerMatch(0, k, methodName) in FindHandlers(vs, targets, recursive, 0)
    ensures FindHandlersAsWritten(vs, targets, recursive).Err?
  {
    FindHandlersMembers(vs, targets, recursive, 0, HandlerMatch(0, k, methodName));
  }

  lemma {:induction false} MatchesForMembers(targets: seq<ServiceHandler>, cls: ClassRef, level: nat, key: string, m: HandlerMatch)
    ensures m in MatchesFor(targets, cls, level, key) <==>
      m.level == level && m.key == key && exists t | t in targets :: Applies(t, cls) && t.methodName == m.methodName
  {
    if targets != [] {
      MatchesForMembers(targets[1..], cls, level, key, m);
      assert targets == [targets[0]] + targets[1..];
    }
  }

  /** `k` is bound to a service in `b` and the handler `m` matches it. */
  predicate ServiceMatch(b: map<string, Binding>, targets: seq<ServiceHandler>, k: string, methodName: string)
  {
    && k in b && b[k].Service?
    && exists t | t in targets :: Applies(t, b[k].cls) && t.methodName == methodName
  }

  lemma {:induction false} LocalHandlersMembers(order: seq<string>, bindings: map<string, Binding>, targets: seq<ServiceHandler>, level: nat, m: HandlerMatch)
    ensures m in LocalHandlers(order, bindings, targets, level) <==>
      m.level == level && m.key in order && ServiceMatch(bindings, targets, m.key, m.methodName)
  {
    if order != [] {
      var k := order[0];
      LocalHandlersMembers(order[1..], bindings, targets, level, m);
      if k in bindings && bindings[k].Service? {
        MatchesForMembers(targets, bindings[k].cls, level, k, m);
      }
      assert order == [k] + order[1..];
    }
  }

  /**
   * A handler is found exactly for a service binding of some mesh of the
   * chain whose class is the handler's target or a subclass of it; meshes
   * above the first are searched only when `recursive` is set.
   */
  lemma {:induction false} FindHandlersMembers(vs: seq<MeshView>, targets: seq<ServiceHandler>, recursive: bool, level: nat, m: HandlerMatch)
    ensures m in FindHandlers(vs, targets, recursive, level) <==>
      && level <= m.level < level + |vs|
      && (recursive || m.level == level)
      && m.key in vs[m.level - level].order
      && ServiceMatch(vs[m.level - level].bindings, targets, m.key, m.methodName)
    decreases |vs|
  {
    if vs != [] {
      var local := LocalHandlers(vs[0].order, vs[0].bindings, targets, level);
      var up := if recursive && |vs| > 1 then FindHandlers(vs[1..], targets, recursive, level + 1) else [];
      assert FindHandlers(vs, targets, recursive, level) == local + up;
      LocalHandlersMembers(vs[0].order, vs[0].bindings, targets, level, m);
      if recursive && |vs| > 1 {
        FindHandlersMembers(vs[1..], targets, recursive, level + 1, m);
        if level < m.level < level + |vs| {
          assert vs[1..][m.level - (level + 1)] == vs[m.level - level];
        }
      } else {
        assert m !in up;
      }
    }
  }

  /** A name nobody registered handlers under yields nothing. */
  lemma {:induction false} NoTargetsNoHandlers(vs: seq<MeshView>, recursive: bool, level: nat)
    ensures FindHandlers(vs, [], recursive, level) == []
    decreases |vs|
  {
    if vs != [] {
      NoServiceNoMatch(vs[0].order, vs[0].bindings, [], level);
      if recursive && |vs| > 1 {
        NoTargetsNoHandlers(vs[1..], recursive, level + 1);
      }
    }
  }

  lemma {:induction false} NoServiceNoMatch(order: seq<string>, bindings: map<string, Binding>, targets: seq<ServiceHandler>, level: nat)
    requires targets == [] || forall k | k in bindings :: !bindings[k].Service?
    ensures LocalHandlers(order, bindings, targets, level) == []
  {
    if order != [] {
      NoServiceNoMatch(order[1..], bindings, targets, level);
    }
  }

  /**
   * Within one mesh the results follow the table's order: the matches of the
   * bindings listed first come before those of the bindings listed after.
   */
  lemma {:induction false} LocalHandlersAppend(o1: seq<string>, o2: seq<string>, bindings: map<string, Binding>, targets: seq<ServiceHandler>, level: nat)
    ensures LocalHandlers(o1 + o2, bindings, targets, level) ==
      LocalHandlers(o1, bindings, targets, level) + LocalHandlers(o2, bindings, targets, level)
  {
    if o1 == [] {
      assert o1 + o2 == o2;
    } else {
      var k := o1[0];
      var head := if k in bindings && bindings[k].Service? then MatchesFor(targets, bindings[k].cls, level, k) else [];
      var rest1, rest2 := LocalHandlers(o1[1..], bindings, targets, level), LocalHandlers(o2, bindings, targets, level);
      assert (o1 + o2)[0] == k && (o1 + o2)[1..] == o1[1..] + o2;
      assert LocalHandlers(o1 + o2, bindings, targets, level) == head + LocalHandlers(o1[1..] + o2, bindings, targets, level);
      LocalHandlersAppend(o1[1..], o2, bindings, targets, level);
      assert LocalHandlers(o1, bindings, targets, level) == head + rest1;
      assert head + (rest1 + rest2) == (head + rest1) + rest2;
    }
  }

  /**
   * The results come mesh by mesh: first every match of the first mesh, in
   * the order of its bindings, and only then the parent's.
   */
  lemma LocalMatchesFirst(vs: seq<MeshView>, targets: seq<ServiceHandler>, level: nat)
    requires vs != []
    ensures var local := LocalHandlers(vs[0].order, vs[0].bindings, targets, level);
      var all := FindHandlers(vs, targets, true, level);
      |local| <= |all| && all[..|local|] == local
      && forall i | |local| <= i < |all| :: all[i].level > level
  {
    var local := LocalHandlers(vs[0].order, vs[0].bindings, targets, level);
    if |vs| > 1 {
      var up := FindHandlers(vs[1..], targets, true, level + 1);
      forall i | 0 <= i < |up| ensures up[i].level > level {
        FindHandlersMembers(vs[1..], targets, true, level + 1, up[i]);
      }
    }
  }

  /** Within one binding, the handlers come in registration order: the matches for a class are a filter of the registrations. */
  lemma MatchesInRegistrationOrder(targets: seq<ServiceHandler>, cls: ClassRef, level: nat, key: string, t: ServiceHandler)
    requires Applies(t, cls)
    ensures MatchesFor(targets + [t], cls, level, key) ==
      MatchesFor(targets, cls, level, key) + [HandlerMatch(level, key, t.methodName)]
  {
    MatchesForAppend(targets, [t], cls, level, key);
  }

  lemma {:induction false} MatchesForAppend(a: seq<ServiceHandler>, b: seq<ServiceHandler>, cls: ClassRef, level: nat, key: string)
    ensures MatchesFor(a + b, cls, level, key) == MatchesFor(a, cls, level, key) + MatchesFor(b, cls, level, key)
  {
    if a != [] {
      MatchesForAppend(a[1..], b, cls, level, key);
      assert (a + b)[1..] == a[1..] + b;
    } else {
      assert a + b == b;
    }
  }
}
