/**
 The two worklists that walk Lean imports from the root source: the registry check marks a source when it
 is popped and reports missing ones, the coverage check marks it when it is pushed and keeps every name
 imported on the way.
 */
module ImportGraph {
  import opened Finite

  const ROOT: string := "RubinFormal"
  const PREFIX: string := "RubinFormal."

  /** The sources that exist, each with the modules its import lines name, in order. */
  type Tree = map<string, seq<string>>

  predicate Inner(m: string) {
    PREFIX <= m
  }

  predicate Followed(m: string) {
    m == ROOT || Inner(m)
  }

  ghost predicate Names(g: Tree, s: string, m: string) {
    s in g && m in g[s] && Followed(m)
  }

  /** `m` exists and is `n` imports away from the root. */
  ghost predicate Within(g: Tree, m: string, n: nat)
    decreases n
  {
    m in g && if n == 0 then m == ROOT else exists s :: Within(g, s, n - 1) && Names(g, s, m)
  }

  ghost predicate Reaches(g: Tree, m: string) {
    exists n: nat :: Within(g, m, n)
  }

  /** What the registry check must return: the sources reached, and the followed names that have no source. */
  ghost predicate RegistryAnswer(g: Tree, reachable: set<string>, missing: set<string>) {
    && (forall m :: m in reachable <==> Reaches(g, m))
    && (forall m :: m in missing <==> m !in g && exists s :: Reaches(g, s) && Names(g, s, m))
  }

  /** What the coverage check collects: every name below the root that a reached source imports. */
  ghost predicate CoverageAnswer(g: Tree, named: set<string>) {
    forall m :: m in named <==> Inner(m) && exists s :: Reaches(g, s) && Names(g, s, m)
  }

  // ---------------------------------------------------------------- reachability

  lemma RootReaches(g: Tree)
    requires ROOT in g
    ensures Reaches(g, ROOT)
  {
    assert Within(g, ROOT, 0);
  }

  lemma StepReaches(g: Tree, s: string, m: string)
    requires Reaches(g, s) && Names(g, s, m) && m in g
    ensures Reaches(g, m)
  {
    var n: nat :| Within(g, s, n);
    assert Within(g, m, n + 1);
  }

  /** Holds the root and, with a source, every existing source it names below the root. */
  ghost predicate Closed(g: Tree, marked: set<string>) {
    && (ROOT in g ==> ROOT in marked)
    && forall s, m :: s in marked && Names(g, s, m) && m in g && Inner(m) ==> m in marked
  }

  lemma {:induction false} ClosedHoldsWithin(g: Tree, marked: set<string>, m: string, n: nat)
    requires Closed(g, marked) && Within(g, m, n)
    ensures m in marked
    decreases n
  {
    if n > 0 && m != ROOT {
      var s :| Within(g, s, n - 1) && Names(g, s, m);
      ClosedHoldsWithin(g, marked, s, n - 1);
    }
  }

  lemma ClosedHoldsReached(g: Tree, marked: set<string>)
    requires Closed(g, marked)
    ensures forall m :: Reaches(g, m) ==> m in marked
  {
    forall m | Reaches(g, m)
      ensures m in marked
    {
      var n: nat :| Within(g, m, n);
      ClosedHoldsWithin(g, marked, m, n);
    }
  }

  // ---------------------------------------------------------------- marking on pop

  /** The inner loop of the registry check: existing imports are pushed, the others reported. */
  method PushImports(g: Tree, source: string, pending: seq<string>, missing: set<string>)
    returns (pushed: seq<string>, reported: set<string>)
    requires source in g
    ensures forall m :: m in pushed <==> m in pending || (Names(g, source, m) && m in g)
    ensures forall m :: m in reported <==> m in missing || (Names(g, source, m) && m !in g)
  {
    pushed, reported := pending, missing;
    var modules := g[source];
    for i := 0 to |modules|
      invariant forall m :: m in pushed <==> m in pending || (m in modules[..i] && Followed(m) && m in g)
      invariant forall m :: m in reported <==> m in missing || (m in modules[..i] && Followed(m) && m !in g)
    {
      assert modules[..i + 1] == modules[..i] + [modules[i]];
      if Followed(modules[i]) {
        if modules[i] !in g {
          reported := reported + {modules[i]};
        } else {
          pushed := pushed + [modules[i]];
        }
      }
    }
    assert modules[..|modules|] == modules;
  }

  /** What the registry worklist keeps: marked and pending sources are reached, and marked ones are expanded. */
  ghost predicate PopInvariant(g: Tree, pending: seq<string>, marked: set<string>, missing: set<string>) {
    && ROOT in g
    && (ROOT in marked || ROOT in pending)
    && (forall m :: m in marked ==> Reaches(g, m))
    && (forall m :: m in pending ==> Reaches(g, m))
    && (forall s, m :: s in marked && Names(g, s, m) && m in g ==> m in marked || m in pending)
    && (forall m :: m in missing <==> m !in g && exists s :: s in marked && Names(g, s, m))
  }

  lemma PopKept(g: Tree, pending: seq<string>, marked: set<string>, missing: set<string>)
    requires pending != [] && PopInvariant(g, pending, marked, missing)
    requires pending[|pending| - 1] in marked
    ensures PopInvariant(g, pending[..|pending| - 1], marked, missing)
  {
    forall m | m in pending
      ensures m in pending[..|pending| - 1] || m == pending[|pending| - 1]
    {
      var i :| 0 <= i < |pending| && pending[i] == m;
      if i < |pending| - 1 {
        assert pending[..|pending| - 1][i] == m;
      }
    }
  }

  lemma ExpandKept(g: Tree, pending: seq<string>, marked: set<string>, missing: set<string>,
                   rest: seq<string>, source: string, pushed: seq<string>, reported: set<string>)
    requires PopInvariant(g, pending, marked, missing) && pending == rest + [source] && source in g
    requires forall m :: m in pushed <==> m in rest || (Names(g, source, m) && m in g)
    requires forall m :: m in reported <==> m in missing || (Names(g, source, m) && m !in g)
    ensures PopInvariant(g, pushed, marked + {source}, reported)
  {
    hide Names, Reaches;
    forall m | Names(g, source, m) && m in g
      ensures Reaches(g, m)
    {
      StepReaches(g, source, m);
    }
  }

  /** The registry walk, on every finite import graph, cycles included. */
  method SourceImportReachability(g: Tree) returns (reachable: set<string>, missing: set<string>, rooted: bool)
    ensures rooted <==> ROOT in g
    ensures RegistryAnswer(g, reachable, missing)
  {
    reachable, missing, rooted := {}, {}, ROOT in g;
    if !rooted {
      NothingReached(g);
      return;
    }
    RootReaches(g);
    var pending := [ROOT];
    while pending != []
      invariant PopInvariant(g, pending, reachable, missing)
      invariant reachable <= g.Keys
      decreases |g.Keys - reachable|, |pending|
    {
      var path := pending[|pending| - 1];
      var rest := pending[..|pending| - 1];
      assert pending == rest + [path];
      if path in reachable {
        PopKept(g, pending, reachable, missing);
        pending := rest;
      } else {
        ReachedExists(g, path);
        var pushed, reported := PushImports(g, path, rest, missing);
        ExpandKept(g, pending, reachable, missing, rest, path, pushed, reported);
        SmallerRest(g.Keys, reachable, path);
        pending, reachable, missing := pushed, reachable + {path}, reported;
      }
    }
    ClosedHoldsReached(g, reachable);
  }

  lemma NothingReached(g: Tree)
    requires ROOT !in g
    ensures forall m :: !Reaches(g, m)
  {
    ClosedHoldsReached(g, {});
  }

  lemma ReachedExists(g: Tree, m: string)
    requires Reaches(g, m)
    ensures m in g
  {
  }

  // ---------------------------------------------------------------- marking on push

  /** The inner loop of the coverage check: every inner name is kept, new existing ones are marked and pushed. */
  method MarkImports(g: Tree, source: string, pending: seq<string>, visited: set<string>, named: set<string>)
    returns (pushed: seq<string>, marked: set<string>, collected: set<string>)
    requires source in g && visited <= g.Keys && (forall m :: m in pending ==> m in visited)
    ensures forall m :: m in collected <==> m in named || (Names(g, source, m) && Inner(m))
    ensures forall m :: m in marked <==> m in visited || (Names(g, source, m) && Inner(m) && m in g)
    ensures forall m :: m in pushed <==> m in pending || (m in marked && m !in visited)
    ensures |g.Keys - marked| < |g.Keys - visited| || (marked == visited && pushed == pending)
  {
    pushed, marked, collected := pending, visited, named;
    var modules := g[source];
    for i := 0 to |modules|
      invariant marked <= g.Keys
      invariant forall m :: m in collected <==> m in named || (m in modules[..i] && Inner(m))
      invariant forall m :: m in marked <==> m in visited || (m in modules[..i] && Inner(m) && m in g)
      invariant forall m :: m in pushed <==> m in pending || (m in marked && m !in visited)
      invariant |g.Keys - marked| < |g.Keys - visited| || (marked == visited && pushed == pending)
    {
      assert modules[..i + 1] == modules[..i] + [modules[i]];
      if Inner(modules[i]) {
        collected := collected + {modules[i]};
        if modules[i] in g && modules[i] !in marked {
          SmallerRest(g.Keys, marked, modules[i]);
          marked := marked + {modules[i]};
          pushed := pushed + [modules[i]];
        }
      }
    }
    assert modules[..|modules|] == modules;
  }

  /** What the coverage worklist keeps: visited sources are reached, and those not pending are expanded. */
  ghost predicate PushInvariant(
    g: Tree, pending: seq<string>, visited: set<string>, done: set<string>, named: set<string>)
  {
    && ROOT in g && ROOT in visited
    && (forall m :: m in visited ==> Reaches(g, m))
    && (forall m :: m in visited <==> m in pending || m in done)
    && (forall s, m :: s in done && Names(g, s, m) && m in g && Inner(m) ==> m in visited)
    && (forall m :: m in named <==> Inner(m) && exists s :: s in done && Names(g, s, m))
  }

  lemma MarkKept(g: Tree, pending: seq<string>, visited: set<string>, done: set<string>, named: set<string>,
                 rest: seq<string>, source: string, pushed: seq<string>, marked: set<string>, collected: set<string>)
    requires PushInvariant(g, pending, visited, done, named) && pending == rest + [source] && source in g
    requires forall m :: m in collected <==> m in named || (Names(g, source, m) && Inner(m))
    requires forall m :: m in marked <==> m in visited || (Names(g, source, m) && Inner(m) && m in g)
    requires forall m :: m in pushed <==> m in rest || (m in marked && m !in visited)
    ensures PushInvariant(g, pushed, marked, done + {source}, collected)
  {
    hide Names, Reaches, Inner;
    forall m | Names(g, source, m) && m in g
      ensures Reaches(g, m)
    {
      StepReaches(g, source, m);
    }
  }

  /** The coverage walk: the names below the root that reached sources import, whether or not they exist. */
  method CollectImports(g: Tree) returns (named: set<string>, rooted: bool)
    ensures rooted <==> ROOT in g
    ensures CoverageAnswer(g, named)
  {
    named, rooted := {}, ROOT in g;
    if !rooted {
      NothingReached(g);
      return;
    }
    RootReaches(g);
    var pending, visited := [ROOT], {ROOT};
    ghost var done := {};
    while pending != []
      invariant PushInvariant(g, pending, visited, done, named)
      invariant visited <= g.Keys
      decreases |g.Keys - visited|, |pending|
    {
      var path := pending[|pending| - 1];
      var rest := pending[..|pending| - 1];
      assert pending == rest + [path];
      ReachedExists(g, path);
      var pushed, marked, collected := MarkImports(g, path, rest, visited, named);
      MarkKept(g, pending, visited, done, named, rest, path, pushed, marked, collected);
      pending, visited, named, done := pushed, marked, collected, done + {path};
    }
    assert Closed(g, done);
    ClosedHoldsReached(g, done);
  }

  // ---------------------------------------------------------------- agreement

  lemma ReachedIsNamed(g: Tree, m: string)
    requires Reaches(g, m) && m != ROOT
    ensures exists s :: Reaches(g, s) && Names(g, s, m)
  {
    var n: nat :| Within(g, m, n);
    var s :| Within(g, s, n - 1) && Names(g, s, m);
    assert Reaches(g, s);
  }

  /**
   The two walks agree: below the root they find the same existing sources, and what the registry check
   reports missing is exactly what the coverage check names without a source.
   */
  lemma WalksAgree(g: Tree, reachable: set<string>, missing: set<string>, named: set<string>)
    requires ROOT in g && RegistryAnswer(g, reachable, missing) && CoverageAnswer(g, named)
    ensures named * g.Keys == (set m | m in reachable && Inner(m))
    ensures reachable - {ROOT} == (set m | m in reachable && Inner(m))
    ensures named - g.Keys == missing
    ensures ROOT in reachable
  {
    RootReaches(g);
    forall m
      ensures m in named && m in g <==> m in reachable && Inner(m)
      ensures m in reachable && m != ROOT ==> Inner(m)
    {
      if m in reachable && m != ROOT {
        ReachedIsNamed(g, m);
      }
      if m in named && m in g {
        var s :| Reaches(g, s) && Names(g, s, m);
        StepReaches(g, s, m);
      }
      RootIsNotInner();
      if m in reachable {
        ReachedExists(g, m);
      }
    }
    RootIsNotInner();
  }

  lemma RootIsNotInner()
    ensures !Inner(ROOT)
  {
  }
}
