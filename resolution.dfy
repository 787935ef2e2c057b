/**
 * What `Mesh.resolve` (src/main/mesh.ts:40-57) promises, stated about
 * `ResolveSpec`: identity-stable caching, parent delegation and sharing,
 * fresh scoped instances, the not-found error, alias caching and the order of
 * middlewares.
 */
module ResolutionFacts {
  import opened Types
  import opened Errors
  import opened Containers

  /** No mesh of the chain has a middleware. */
  predicate NoMiddleware(vs: seq<MeshView>)
  {
    forall j | 0 <= j < |vs| :: vs[j].middlewares == []
  }

  /** No mesh of the chain binds `k` or holds a truthy instance for it. */
  predicate Unbound(vs: seq<MeshView>, k: string)
  {
    forall j | 0 <= j < |vs| :: k !in vs[j].bindings && !(k in vs[j].instances && Truthy(vs[j].instances[k]))
  }

  /** Middlewares registered in two batches run as one batch, in order. */
  lemma {:induction false} PipeConcat(a: seq<Middleware>, b: seq<Middleware>, v: Value)
    ensures Pipe(a + b, v) == Pipe(b, Pipe(a, v))
    decreases |b|
  {
    if b == [] {
      assert a + b == a;
    } else {
      var b' := b[..|b| - 1];
      PipeConcat(a, b', v);
      assert (a + b)[..|a + b| - 1] == a + b';
    }
  }

  /** `use(fn)` runs `fn` after the mesh's earlier middlewares and before the parent's. */
  lemma UseRunsLastLocally(vs: seq<MeshView>, fn: Middleware, v: Value)
    requires vs != []
    ensures ChainMiddleware([vs[0].(middlewares := vs[0].middlewares + [fn])] + vs[1..], v)
      == ChainMiddleware(vs[1..], fn(Pipe(vs[0].middlewares, v)))
  {
    var vs' := [vs[0].(middlewares := vs[0].middlewares + [fn])] + vs[1..];
    PipeConcat(vs[0].middlewares, [fn], v);
    assert vs'[1..] == vs[1..];
  }

  /** Without middlewares, `applyMiddleware` returns its argument. */
  lemma {:induction false} NoMiddlewareIdentity(vs: seq<MeshView>, v: Value)
    requires NoMiddleware(vs)
    ensures ChainMiddleware(vs, v) == v
    decreases |vs|
  {
    if vs != [] {
      assert NoMiddleware(vs[1..]) by {
        forall j | 0 <= j < |vs[1..]| ensures vs[1..][j].middlewares == [] {
          assert vs[1..][j] == vs[j + 1];
        }
      }
      NoMiddlewareIdentity(vs[1..], v);
    }
  }

  /**
   * Resolving a key a second time returns the identical value and changes
   * nothing, provided the first result was truthy: the value was cached by the
   * mesh that owns the binding, and the lookup takes the same path to it.
   */
  lemma {:induction false} ResolveIdempotent(vs: seq<MeshView>, objs: seq<ObjState>, k: string, fuel: nat)
    requires vs != [] && ChainAcyclic(vs) && AliasWithin(vs[0].bindings, k, fuel)
    requires var r := ResolveSpec(vs, objs, k, fuel); r.result.Ok? && Truthy(r.result.value)
    ensures var r := ResolveSpec(vs, objs, k, fuel);
      && ChainAcyclic(r.views) && r.views != [] && AliasWithin(r.views[0].bindings, k, fuel)
      && ResolveSpec(r.views, r.objects, k, fuel) == Resolution(r.result, r.views, r.objects)
    decreases |vs|
  {
    var r := ResolveSpec(vs, objs, k, fuel);
    ResolveShape(vs, objs, k, fuel);
    SameShapeAcyclic(vs, r.views);
    SameShapeAt(vs, r.views, 0);
    var m := vs[0];
    if k in m.instances && Truthy(m.instances[k]) {
    } else if k in m.bindings {
      var i := InstantiateSpec(vs, objs, m.bindings[k], fuel);
      assert r == Store(i.views, i.objects, k, i.result.value);
      assert r.views[0].instances[k] == r.result.value;
    } else if |vs| > 1 {
      ChainTail(vs);
      var up := ResolveSpec(vs[1..], objs, k, |vs[1].bindings|);
      ResolveIdempotent(vs[1..], objs, k, |vs[1].bindings|);
      ResolveShape(vs[1..], objs, k, |vs[1].bindings|);
      assert r.views == [m] + up.views;
      assert r.views[1..] == up.views;
      SameShapeAt(vs[1..], up.views, 0);
    }
  }

  /**
   * A falsy cached value is no cache hit: a constant whose connected value is
   * falsy is instantiated, connected and stored again on every resolve, so
   * the middlewares run again on the bound value.
   */
  lemma FalsyConstantReconnected(vs: seq<MeshView>, objs: seq<ObjState>, k: string, v: Value)
    requires vs != [] && ChainAcyclic(vs)
    requires k in vs[0].bindings && vs[0].bindings[k] == Constant(v)
    requires !(k in vs[0].instances && Truthy(vs[0].instances[k]))
    requires TypeOf(ChainMiddleware(vs, v)) != "object" && !Truthy(ChainMiddleware(vs, v))
    ensures AliasWithin(vs[0].bindings, k, 0)
    ensures var r1 := ResolveSpec(vs, objs, k, 0);
      && r1.result == Ok(ChainMiddleware(vs, v)) && r1.objects == objs
      && r1.views == [vs[0].(instances := vs[0].instances[k := ChainMiddleware(vs, v)])] + vs[1..]
      && ChainAcyclic(r1.views) && AliasWithin(r1.views[0].bindings, k, 0)
      && ResolveSpec(r1.views, r1.objects, k, 0) == Store(r1.views, r1.objects, k, v)
      && ResolveSpec(r1.views, r1.objects, k, 0) == r1
  {
    var r1 := ResolveSpec(vs, objs, k, 0);
    assert InstantiateSpec(vs, objs, Constant(v), 0) == Resolution(Ok(v), vs, objs);
    assert r1 == Store(vs, objs, k, v);
    StoreShape(vs, objs, k, v);
    SameShapeAcyclic(vs, r1.views);
    var w := r1.views;
    assert w[0].bindings == vs[0].bindings && w[0].middlewares == vs[0].middlewares;
    assert w[1..] == vs[1..];
    ChainSameMiddleware(vs, w, v);
    assert InstantiateSpec(w, objs, Constant(v), 0) == Resolution(Ok(v), w, objs);
    assert ResolveSpec(w, objs, k, 0) == Store(w, objs, k, v);
    assert w[0].instances[k := ChainMiddleware(vs, v)] == w[0].instances;
    assert Store(w, objs, k, v).views == w;
  }

  /** Chains that agree on their middlewares transform values alike. */
  lemma ChainSameMiddleware(vs: seq<MeshView>, ws: seq<MeshView>, v: Value)
    requires vs != [] && |ws| == |vs| && ws[0].middlewares == vs[0].middlewares && ws[1..] == vs[1..]
    ensures ChainMiddleware(ws, v) == ChainMiddleware(vs, v)
  {
  }

  /** A key that no mesh of the chain binds fails with the name of the root mesh. */
  lemma {:induction false} UnboundKeyNotFound(vs: seq<MeshView>, objs: seq<ObjState>, k: string, fuel: nat)
    requires vs != [] && ChainAcyclic(vs) && Unbound(vs, k)
    ensures AliasWithin(vs[0].bindings, k, fuel)
      && ResolveSpec(vs, objs, k, fuel) == Resolution(Err(MeshBindingNotFound(vs[|vs| - 1].name, k)), vs, objs)
    decreases |vs|
  {
    if |vs| > 1 {
      assert Unbound(vs[1..], k) by {
        forall j | 0 <= j < |vs[1..]|
          ensures k !in vs[1..][j].bindings && !(k in vs[1..][j].instances && Truthy(vs[1..][j].instances[k]))
        {
          assert vs[1..][j] == vs[j + 1];
        }
      }
      UnboundKeyNotFound(vs[1..], objs, k, |vs[1].bindings|);
      assert [vs[0]] + vs[1..] == vs;
    }
  }

  /** A key the mesh does not bind is resolved by the parent, and nothing is cached locally. */
  lemma DelegationCachesNothingLocally(vs: seq<MeshView>, objs: seq<ObjState>, k: string, fuel: nat)
    requires |vs| > 1 && ChainAcyclic(vs) && k !in vs[0].bindings
    requires !(k in vs[0].instances && Truthy(vs[0].instances[k]))
    ensures var r := ResolveSpec(vs, objs, k, fuel);
      var up := ResolveSpec(vs[1..], objs, k, |vs[1].bindings|);
      r.result == up.result && r.objects == up.objects && r.views[0] == vs[0] && r.views[1..] == up.views
  {
  }

  /**
   * A service bound only in the parent is shared by its scoped children:
   * after one child resolves it, a sibling that does not bind the key either
   * gets the identical instance, and no object is constructed.
   */
  lemma ParentServiceShared(c1: MeshView, c2: MeshView, ps: seq<MeshView>, objs: seq<ObjState>, k: string)
    requires ps != [] && ChainAcyclic([c1] + ps) && Acyclic(c2.bindings)
    requires k !in c1.bindings && k !in c2.bindings && k !in c1.instances && k !in c2.instances
    requires var r1 := ResolveSpec([c1] + ps, objs, k, |c1.bindings|); r1.result.Ok? && Truthy(r1.result.value)
    ensures var r1 := ResolveSpec([c1] + ps, objs, k, |c1.bindings|);
      && ChainAcyclic([c2] + r1.views[1..])
      && var r2 := ResolveSpec([c2] + r1.views[1..], r1.objects, k, |c2.bindings|);
         r2.result == r1.result && r2.objects == r1.objects
  {
    var vs := [c1] + ps;
    assert vs[1..] == ps;
    assert ChainAcyclic(ps) by {
      forall j | 0 <= j < |ps| ensures Acyclic(ps[j].bindings) {
        assert ps[j] == vs[j + 1];
      }
    }
    var up := ResolveSpec(ps, objs, k, |ps[0].bindings|);
    var r1 := ResolveSpec(vs, objs, k, |c1.bindings|);
    assert r1.result == up.result && r1.views[1..] == up.views && r1.objects == up.objects;
    ResolveIdempotent(ps, objs, k, |ps[0].bindings|);
    ResolveShape(ps, objs, k, |ps[0].bindings|);
    SameShapeAt(ps, up.views, 0);
    var ws := [c2] + up.views;
    assert ws[1..] == up.views;
    assert ChainAcyclic(ws) by {
      forall j | 0 <= j < |ws| ensures Acyclic(ws[j].bindings) {
        if j > 0 {
          assert ws[j] == up.views[j - 1];
        }
      }
    }
  }

  /**
   * Without middlewares, resolving a service the mesh binds and has not cached
   * constructs one new object through the mesh-tagged prototype, tags the
   * instance itself with the same mesh, and caches it.
   */
  lemma ServiceInstanceIsFresh(vs: seq<MeshView>, objs: seq<ObjState>, k: string, fuel: nat)
    requires vs != [] && ChainAcyclic(vs) && AliasWithin(vs[0].bindings, k, fuel)
    requires k in vs[0].bindings && vs[0].bindings[k].Service?
    requires !(k in vs[0].instances && Truthy(vs[0].instances[k]))
    requires NoMiddleware(vs)
    ensures var r := ResolveSpec(vs, objs, k, fuel);
      && r.result == Ok(Obj(|objs|)) && |r.objects| == |objs| + 1 && r.objects[..|objs|] == objs
      && r.objects[|objs|] == ObjState(vs[0].bindings[k].cls, Some(vs[0].self), Some(vs[0].self), map[])
      && r.views == [vs[0].(instances := vs[0].instances[k := Obj(|objs|)])] + vs[1..]
  {
    NoMiddlewareIdentity(vs, Obj(|objs|));
  }

  /**
   * A scoped mesh that binds a service itself gets its own instance, distinct
   * from any object that existed before, in particular from the instance its
   * parent already produced for the same key.
   */
  lemma ScopedServiceDistinct(child: MeshView, ps: seq<MeshView>, objs: seq<ObjState>, k: string)
    requires ps != [] && ChainAcyclic(ps) && Acyclic(child.bindings) && NoMiddleware([child] + ps)
    requires k in child.bindings && child.bindings[k].Service? && k !in child.instances
    requires var rp := ResolveSpec(ps, objs, k, |ps[0].bindings|);
      rp.result.Ok? && rp.result.value.Obj? && rp.result.value.id < |rp.objects|
    ensures var rp := ResolveSpec(ps, objs, k, |ps[0].bindings|);
      && ChainAcyclic([child] + rp.views)
      && ResolveSpec([child] + rp.views, rp.objects, k, |child.bindings|).result != rp.result
  {
    var rp := ResolveSpec(ps, objs, k, |ps[0].bindings|);
    var ws := [child] + rp.views;
    ResolveShape(ps, objs, k, |ps[0].bindings|);
    SameShapeAcyclic(ps, rp.views);
    assert ChainAcyclic(ws) by {
      forall j | 0 <= j < |ws| ensures Acyclic(ws[j].bindings) {
        if j > 0 {
          assert ws[j] == rp.views[j - 1];
        }
      }
    }
    assert NoMiddleware(ws) by {
      forall j | 0 <= j < |ws| ensures ws[j].middlewares == [] {
        if j > 0 {
          SameShapeAt(ps, rp.views, j - 1);
          assert ([child] + ps)[j] == ps[j - 1];
        } else {
          assert ([child] + ps)[0] == child;
        }
      }
    }
    ServiceInstanceIsFresh(ws, rp.objects, k, |child.bindings|);
  }

  /**
   * Two sibling scopes created from the same binding table each construct
   * their own instance of a service the table binds: the second resolution
   * sees the parent chain the first left behind, and still builds a new object.
   */
  lemma SiblingScopesDistinct(c1: MeshView, c2: MeshView, ps: seq<MeshView>, objs: seq<ObjState>, k: string)
    requires ps != [] && ChainAcyclic([c1] + ps) && Acyclic(c2.bindings)
    requires NoMiddleware([c1] + ps) && c2.middlewares == []
    requires k in c1.bindings && c1.bindings[k].Service? && k !in c1.instances
    requires k in c2.bindings && c2.bindings[k].Service? && k !in c2.instances
    ensures var r1 := ResolveSpec([c1] + ps, objs, k, |c1.bindings|);
      && |r1.views| > 1 && ChainAcyclic([c2] + r1.views[1..])
      && var r2 := ResolveSpec([c2] + r1.views[1..], r1.objects, k, |c2.bindings|);
        && r1.result == Ok(Obj(|objs|)) && r2.result == Ok(Obj(|objs| + 1))
        && r1.result != r2.result
  {
    var vs := [c1] + ps;
    assert AliasWithin(c1.bindings, k, |c1.bindings|) by {
      assert Acyclic(vs[0].bindings);
    }
    ServiceInstanceIsFresh(vs, objs, k, |c1.bindings|);
    var r1 := ResolveSpec(vs, objs, k, |c1.bindings|);
    assert r1.views[1..] == ps;
    var ws := [c2] + ps;
    assert ChainAcyclic(ws) by {
      forall j | 0 <= j < |ws| ensures Acyclic(ws[j].bindings) {
        if j > 0 {
          assert ws[j] == vs[j];
        }
      }
    }
    assert NoMiddleware(ws) by {
      forall j | 0 <= j < |ws| ensures ws[j].middlewares == [] {
        if j > 0 {
          assert ws[j] == vs[j];
        }
      }
    }
    assert AliasWithin(c2.bindings, k, |c2.bindings|);
    ServiceInstanceIsFresh(ws, r1.objects, k, |c2.bindings|);
  }

  /**
   * An alias is resolved through the same mesh's `resolve` and its result is
   * connected again: the target is cached with middlewares applied once, the
   * alias with middlewares applied twice.
   */
  lemma AliasConnectsTwice(vs: seq<MeshView>, objs: seq<ObjState>, k: string, t: string, v: Value)
    requires vs != [] && ChainAcyclic(vs) && k != t
    requires k in vs[0].bindings && vs[0].bindings[k] == Alias(t)
    requires t in vs[0].bindings && vs[0].bindings[t] == Constant(v)
    requires k !in vs[0].instances && t !in vs[0].instances
    requires TypeOf(ChainMiddleware(vs, v)) != "object"
    requires TypeOf(ChainMiddleware(vs, ChainMiddleware(vs, v))) != "object"
    ensures AliasWithin(vs[0].bindings, k, 1)
    ensures var once := ChainMiddleware(vs, v);
      var twice := ChainMiddleware(vs, once);
      var r := ResolveSpec(vs, objs, k, 1);
      && r.result == Ok(twice) && r.objects == objs
      && r.views == [vs[0].(instances := vs[0].instances[t := once][k := twice])] + vs[1..]
  {
    var b := vs[0].bindings;
    assert AliasWithin(b, t, 0);
    var once := ChainMiddleware(vs, v);
    var inner := ResolveSpec(vs, objs, t, 0);
    var vs1 := [vs[0].(instances := vs[0].instances[t := once])] + vs[1..];
    assert InstantiateSpec(vs, objs, Constant(v), 0) == Resolution(Ok(v), vs, objs);
    assert InjectRefSpec(objs, vs[0].self, once) == Ok(objs);
    assert Store(vs, objs, t, v) == Resolution(Ok(once), vs1, objs);
    assert inner == Resolution(Ok(once), vs1, objs);
    assert vs1[1..] == vs[1..];
    assert ChainMiddleware(vs1, once) == ChainMiddleware(vs, once);
  }

  /**
   * Once an alias has been resolved to a truthy value it no longer follows its
   * target: rebinding the target leaves the alias's result unchanged.
   */
  lemma CachedAliasIgnoresRebinding(vs: seq<MeshView>, objs: seq<ObjState>, k: string, t: string, b: Binding, fuel: nat)
    requires vs != [] && ChainAcyclic(vs) && k != t
    requires k in vs[0].instances && Truthy(vs[0].instances[k])
    requires var ws := [vs[0].(bindings := vs[0].bindings[t := b])] + vs[1..];
      ChainAcyclic(ws) && AliasWithin(ws[0].bindings, k, fuel)
    ensures var ws := [vs[0].(bindings := vs[0].bindings[t := b])] + vs[1..];
      ResolveSpec(ws, objs, k, fuel).result == Ok(vs[0].instances[k])
  {
  }

  /** Binding `null` as a constant makes its resolution throw: `injectRef` cannot tag `null`. */
  lemma NullConstantThrows(vs: seq<MeshView>, objs: seq<ObjState>, k: string, fuel: nat)
    requires vs != [] && ChainAcyclic(vs) && NoMiddleware(vs)
    requires k in vs[0].bindings && vs[0].bindings[k] == Constant(Null)
    requires !(k in vs[0].instances && Truthy(vs[0].instances[k]))
    ensures AliasWithin(vs[0].bindings, k, fuel)
    ensures var r := ResolveSpec(vs, objs, k, fuel);
      r.result.Err? && r.result.error.TypeError? && r.views == vs && r.objects == objs
  {
    NoMiddlewareIdentity(vs, Null);
  }
}
