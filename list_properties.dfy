/**
 * What the dependency walk of src/list.ts keeps true over a whole run:
 * the accumulators only grow, every nested record names a flattened
 * package, and `processDependencies` rewrites exactly the entries whose
 * constraint was empty. Also the consequences of the placement traps.
 */
module ListProperties {
  import opened Wrappers
  import opened Errors
  import opened Entries
  import opened Registry
  import opened Resolve
  import opened DependencyList

  /**
   * From state a to state b nothing is lost: flattened entries are never
   * overwritten, `unsatisfiedDeps` is only appended to, cached version maps
   * stay, and the attempt count does not go down.
   */
  ghost predicate Grows(a: State, b: State)
  {
    && (forall k :: k in a.flattened ==> k in b.flattened && b.flattened[k] == a.flattened[k])
    && a.unsatisfied <= b.unsatisfied
    && (forall k :: k in a.cache ==> k in b.cache && b.cache[k] == a.cache[k])
    && a.sent <= b.sent
  }

  /** Every package recorded for a nested install is also flattened. */
  ghost predicate Consistent(st: State)
  {
    forall n :: n in st.unsatisfied ==> n.depName in st.flattened
  }

  lemma GrowsTransitive(a: State, b: State, c: State)
    requires Grows(a, b) && Grows(b, c)
    ensures Grows(a, c)
  {
  }

  /**
   * The filter of list.ts:96-100 keeps a dependency iff no frame of the
   * stack has its name at a version satisfying its constraint, and never
   * adds entries.
   */
  lemma {:induction false} UnvisitedSkipsCircular(satisfies: (string, string) -> bool,
                                                   dependencies: Dependencies, stack: seq<Frame>)
    ensures |Unvisited(satisfies, dependencies, stack)| <= |dependencies|
    ensures forall e :: e in Unvisited(satisfies, dependencies, stack) <==>
      e in dependencies && !HasCirculation(satisfies, e.0, e.1, stack)
    decreases |dependencies|
  {
    if dependencies != [] {
      UnvisitedSkipsCircular(satisfies, dependencies[1..], stack);
      assert forall e :: e in dependencies <==> e == dependencies[0] || e in dependencies[1..];
    }
  }

  /**
   * A placement keeps what was there, adds exactly one record, and keeps
   * every nested record backed by a flattened entry.
   */
  lemma ApplyGrows(st: State, depName: string, p: Placement)
    requires p.Hoist? ==> depName !in st.flattened
    requires p.Nest? ==> depName in st.flattened && p.record.depName == depName
    ensures Grows(st, Apply(st, depName, p))
    ensures Consistent(st) ==> Consistent(Apply(st, depName, p))
    ensures depName in Apply(st, depName, p).flattened
    ensures |Apply(st, depName, p).flattened| + |Apply(st, depName, p).unsatisfied|
      == |st.flattened| + |st.unsatisfied| + 1
  {
  }

  /**
   * One `getDependency` call: the state grows, consistency is kept, and a
   * call that returns leaves its package flattened.
   */
  lemma {:induction false} WalkGrows(env: Env, st: State, depName: string, constraint: string,
                                      stack: seq<Frame>, fuel: nat)
    ensures Grows(st, Walk(env, st, depName, constraint, stack, fuel).state)
    ensures Consistent(st) ==> Consistent(Walk(env, st, depName, constraint, stack, fuel).state)
    ensures Walk(env, st, depName, constraint, stack, fuel).result.Ok? ==>
      depName in Walk(env, st, depName, constraint, stack, fuel).state.flattened
    decreases fuel, 1
  {
    if fuel > 0 {
      var selected := Select(env, st, depName, constraint);
      SelectGrows(env, st, depName, constraint);
      if selected.result.Ok? {
        var (matched, record) := selected.result.value;
        var d := Descend(env, selected.state, depName, constraint, matched, record, stack, fuel - 1);
        assert Walk(env, st, depName, constraint, stack, fuel) == d;
        DescendGrows(env, selected.state, depName, constraint, matched, record, stack, fuel - 1);
        GrowsTransitive(st, selected.state, d.state);
      } else {
        assert Walk(env, st, depName, constraint, stack, fuel).state == selected.state;
      }
    }
  }

  /** Looking up versions only adds to the cache and to the attempt count. */
  lemma SelectGrows(env: Env, st: State, depName: string, constraint: string)
    ensures Grows(st, Select(env, st, depName, constraint).state)
  {
    var fetch := ResolveStep(env.network, env.retries, st.cache, st.sent, depName);
    assert Select(env, st, depName, constraint).state == st.(cache := fetch.cache, sent := fetch.sent);
  }

  lemma {:induction false} DescendGrows(env: Env, st: State, depName: string, constraint: string,
                                         matched: string, record: Option<VersionRecord>,
                                         stack: seq<Frame>, fuel: nat)
    ensures Grows(st, Descend(env, st, depName, constraint, matched, record, stack, fuel).state)
    ensures Consistent(st) ==> Consistent(Descend(env, st, depName, constraint, matched, record, stack, fuel).state)
    ensures Descend(env, st, depName, constraint, matched, record, stack, fuel).result.Ok? ==>
      depName in Descend(env, st, depName, constraint, matched, record, stack, fuel).state.flattened
    decreases fuel + 1, 0
  {
    var placed := Place(env.semver.satisfies, st.flattened, depName, matched, record, stack);
    if placed.Ok? {
      var st2 := Apply(st, depName, placed.value);
      ApplyGrows(st, depName, placed.value);
      var dependencies := DependenciesOf(record.value);
      var pushed := stack + [Frame(depName, matched, Get(dependencies, "dependencies"))];
      var children := Unvisited(env.semver.satisfies, dependencies, pushed);
      WalkChildrenGrows(env, st2, children, pushed, fuel);
      GrowsTransitive(st, st2, WalkChildren(env, st2, children, pushed, fuel).state);
    }
  }

  lemma {:induction false} WalkChildrenGrows(env: Env, st: State, children: Dependencies,
                                              stack: seq<Frame>, fuel: nat)
    ensures Grows(st, WalkChildren(env, st, children, stack, fuel).state)
    ensures Consistent(st) ==> Consistent(WalkChildren(env, st, children, stack, fuel).state)
    decreases fuel, 2, |children|
  {
    if children != [] {
      var first := Walk(env, st, children[0].0, children[0].1, stack, fuel);
      WalkGrows(env, st, children[0].0, children[0].1, stack, fuel);
      if first.result.Ok? {
        WalkChildrenGrows(env, first.state, children[1..], stack, fuel);
        GrowsTransitive(st, first.state, WalkChildren(env, first.state, children[1..], stack, fuel).state);
      }
    }
  }

  /** After the children of a package all return (list.ts:95-104), every one of them is flattened. */
  lemma {:induction false} WalkChildrenFlattens(env: Env, st: State, children: Dependencies,
                                                 stack: seq<Frame>, fuel: nat)
    requires WalkChildren(env, st, children, stack, fuel).result.Ok?
    ensures forall c :: c in children ==> c.0 in WalkChildren(env, st, children, stack, fuel).state.flattened
    decreases |children|
  {
    if children != [] {
      var first := Walk(env, st, children[0].0, children[0].1, stack, fuel);
      WalkGrows(env, st, children[0].0, children[0].1, stack, fuel);
      var rest := WalkChildren(env, first.state, children[1..], stack, fuel);
      assert WalkChildren(env, st, children, stack, fuel) == rest;
      WalkChildrenGrows(env, first.state, children[1..], stack, fuel);
      WalkChildrenFlattens(env, first.state, children[1..], stack, fuel);
      forall c | c in children ensures c.0 in rest.state.flattened {
        if c != children[0] {
          assert c in children[1..];
        }
      }
    }
  }

  /**
   * A placed package's call that returns has walked its children
   * (list.ts:89-103): every declared dependency that is not circular
   * against the stack with the package's own frame pushed is flattened
   * afterwards.
   */
  lemma DescendResolvesChildren(env: Env, st: State, depName: string, constraint: string,
                                matched: string, record: Option<VersionRecord>,
                                stack: seq<Frame>, fuel: nat)
    requires Descend(env, st, depName, constraint, matched, record, stack, fuel).result.Ok?
    ensures record.Some?
    ensures var dependencies := DependenciesOf(record.value);
      var pushed := stack + [Frame(depName, matched, Get(dependencies, "dependencies"))];
      forall c :: c in dependencies && !HasCirculation(env.semver.satisfies, c.0, c.1, pushed) ==>
        c.0 in Descend(env, st, depName, constraint, matched, record, stack, fuel).state.flattened
  {
    var r := Descend(env, st, depName, constraint, matched, record, stack, fuel);
    var placed := Place(env.semver.satisfies, st.flattened, depName, matched, record, stack);
    var dependencies := DependenciesOf(record.value);
    var pushed := stack + [Frame(depName, matched, Get(dependencies, "dependencies"))];
    var kept := Unvisited(env.semver.satisfies, dependencies, pushed);
    var children := WalkChildren(env, Apply(st, depName, placed.value), kept, pushed, fuel);
    assert r.state == children.state;
    UnvisitedSkipsCircular(env.semver.satisfies, dependencies, pushed);
    WalkChildrenFlattens(env, Apply(st, depName, placed.value), kept, pushed, fuel);
  }

  /**
   * A call that returns has resolved a record for its chosen version and
   * flattened every dependency of that record the circularity filter keeps.
   */
  lemma WalkResolvesChildren(env: Env, st: State, depName: string, constraint: string,
                             stack: seq<Frame>, fuel: nat)
    requires Walk(env, st, depName, constraint, stack, fuel).result.Ok?
    ensures var selected := Select(env, st, depName, constraint);
      && selected.result.Ok? && selected.result.value.1.Some?
      && var (matched, record) := selected.result.value;
         var dependencies := DependenciesOf(record.value);
         var pushed := stack + [Frame(depName, matched, Get(dependencies, "dependencies"))];
         forall c :: c in dependencies && !HasCirculation(env.semver.satisfies, c.0, c.1, pushed) ==>
           c.0 in Walk(env, st, depName, constraint, stack, fuel).state.flattened
  {
    var selected := Select(env, st, depName, constraint);
    var (matched, record) := selected.result.value;
    assert Walk(env, st, depName, constraint, stack, fuel)
      == Descend(env, selected.state, depName, constraint, matched, record, stack, fuel - 1);
    DescendResolvesChildren(env, selected.state, depName, constraint, matched, record, stack, fuel - 1);
  }

  /**
   * A name already flattened at a version that does not satisfy the one
   * chosen now is recorded under the top of the stack it was called with
   * (list.ts:65-70), as the next nested record.
   */
  lemma WalkNestsUnderTop(env: Env, st: State, depName: string, constraint: string,
                          stack: seq<Frame>, fuel: nat)
    requires fuel > 0 && stack != []
    requires Select(env, st, depName, constraint).result.Ok?
    requires Select(env, st, depName, constraint).result.value.1.Some?
    requires depName in st.flattened
    requires !env.semver.satisfies(st.flattened[depName].version, Select(env, st, depName, constraint).result.value.0)
    ensures var r := Walk(env, st, depName, constraint, stack, fuel);
      var record := Select(env, st, depName, constraint).result.value.1.value;
      |st.unsatisfied| < |r.state.unsatisfied| &&
      r.state.unsatisfied[|st.unsatisfied|] == Nested(depName, stack[|stack| - 1].depName, record.dist.tarball)
  {
    var selected := Select(env, st, depName, constraint);
    var (matched, record) := selected.result.value;
    var d := Descend(env, selected.state, depName, constraint, matched, record, stack, fuel - 1);
    assert Walk(env, st, depName, constraint, stack, fuel) == d;
    var placed := Place(env.semver.satisfies, selected.state.flattened, depName, matched, record, stack);
    var st2 := Apply(selected.state, depName, placed.value);
    assert st2.unsatisfied == st.unsatisfied + [Nested(depName, stack[|stack| - 1].depName, record.value.dist.tarball)];
    var dependencies := DependenciesOf(record.value);
    var pushed := stack + [Frame(depName, matched, Get(dependencies, "dependencies"))];
    var kept := Unvisited(env.semver.satisfies, dependencies, pushed);
    WalkChildrenGrows(env, st2, kept, pushed, fuel - 1);
    assert d.state == WalkChildren(env, st2, kept, pushed, fuel - 1).state;
  }

  /**
   * The children are walked on the stack with the parent's frame on top:
   * when the first child the filter keeps is already flattened at a
   * version that does not satisfy its own choice, it is nested under the
   * parent's name, right after the parent's own record.
   */
  lemma DescendNestsChildUnderParent(env: Env, st: State, depName: string, constraint: string,
                                     matched: string, record: Option<VersionRecord>,
                                     stack: seq<Frame>, fuel: nat)
    requires fuel > 0
    requires Place(env.semver.satisfies, st.flattened, depName, matched, record, stack).Ok?
    requires var dependencies := DependenciesOf(record.value);
      var pushed := stack + [Frame(depName, matched, Get(dependencies, "dependencies"))];
      var kept := Unvisited(env.semver.satisfies, dependencies, pushed);
      var st2 := Apply(st, depName, Place(env.semver.satisfies, st.flattened, depName, matched, record, stack).value);
      && kept != []
      && Select(env, st2, kept[0].0, kept[0].1).result.Ok?
      && Select(env, st2, kept[0].0, kept[0].1).result.value.1.Some?
      && kept[0].0 in st2.flattened
      && !env.semver.satisfies(st2.flattened[kept[0].0].version, Select(env, st2, kept[0].0, kept[0].1).result.value.0)
    ensures var dependencies := DependenciesOf(record.value);
      var pushed := stack + [Frame(depName, matched, Get(dependencies, "dependencies"))];
      var kept := Unvisited(env.semver.satisfies, dependencies, pushed);
      var st2 := Apply(st, depName, Place(env.semver.satisfies, st.flattened, depName, matched, record, stack).value);
      var r := Descend(env, st, depName, constraint, matched, record, stack, fuel);
      |st2.unsatisfied| < |r.state.unsatisfied| &&
      r.state.unsatisfied[|st2.unsatisfied|] ==
        Nested(kept[0].0, depName, Select(env, st2, kept[0].0, kept[0].1).result.value.1.value.dist.tarball)
  {
    var placed := Place(env.semver.satisfies, st.flattened, depName, matched, record, stack);
    var dependencies := DependenciesOf(record.value);
    var pushed := stack + [Frame(depName, matched, Get(dependencies, "dependencies"))];
    var kept := Unvisited(env.semver.satisfies, dependencies, pushed);
    var st2 := Apply(st, depName, placed.value);
    var first := Walk(env, st2, kept[0].0, kept[0].1, pushed, fuel);
    WalkNestsUnderTop(env, st2, kept[0].0, kept[0].1, pushed, fuel);
    var children := WalkChildren(env, st2, kept, pushed, fuel);
    if first.result.Ok? {
      WalkChildrenGrows(env, first.state, kept[1..], pushed, fuel);
      assert children == WalkChildren(env, first.state, kept[1..], pushed, fuel);
    } else {
      assert children == Step(Err(first.result.error), first.state);
    }
    assert Descend(env, st, depName, constraint, matched, record, stack, fuel).state == children.state;
  }

  /**
   * The root calls of one `processDependencies`: the state grows,
   * consistency is kept, and after success every root is flattened.
   */
  lemma {:induction false} WalkRootsGrows(env: Env, st: State, entries: seq<(string, string)>, fuel: nat)
    ensures Grows(st, WalkRoots(env, st, entries, fuel).state)
    ensures Consistent(st) ==> Consistent(WalkRoots(env, st, entries, fuel).state)
    ensures WalkRoots(env, st, entries, fuel).result.Ok? ==>
      forall i :: 0 <= i < |entries| ==> entries[i].0 in WalkRoots(env, st, entries, fuel).state.flattened
    decreases |entries|
  {
    if entries != [] {
      var first := Walk(env, st, entries[0].0, entries[0].1, [], fuel);
      WalkGrows(env, st, entries[0].0, entries[0].1, [], fuel);
      if first.result.Ok? {
        var rest := WalkRoots(env, first.state, entries[1..], fuel);
        WalkRootsGrows(env, first.state, entries[1..], fuel);
        GrowsTransitive(st, first.state, rest.state);
        if rest.result.Ok? {
          forall i | 0 <= i < |entries|
            ensures entries[i].0 in rest.state.flattened
          {
            if i > 0 {
              assert entries[i] == entries[1..][i - 1];
            }
          }
        }
      }
    }
  }

  /**
   * A whole `list` run: the accumulators grow, starting from empty ones
   * every nested record names a flattened package, and after success
   * every root entry of both objects is flattened.
   */
  lemma ListRunGrows(env: Env, st: State, dependencies: Option<seq<(string, string)>>,
                     devDependencies: Option<seq<(string, string)>>, fuel: nat)
    ensures Grows(st, ListRun(env, st, dependencies, devDependencies, fuel).state)
    ensures Consistent(st) ==> Consistent(ListRun(env, st, dependencies, devDependencies, fuel).state)
    ensures ListRun(env, st, dependencies, devDependencies, fuel).result.Ok? ==>
      (dependencies.Some? ==> forall i :: 0 <= i < |dependencies.value| ==>
        dependencies.value[i].0 in ListRun(env, st, dependencies, devDependencies, fuel).state.flattened) &&
      (devDependencies.Some? ==> forall i :: 0 <= i < |devDependencies.value| ==>
        devDependencies.value[i].0 in ListRun(env, st, dependencies, devDependencies, fuel).state.flattened)
  {
    var first := Phase(env, st, dependencies, fuel);
    if dependencies.Some? {
      WalkRootsGrows(env, st, dependencies.value, fuel);
    }
    if first.result.Ok? {
      var second := Phase(env, first.state, devDependencies, fuel);
      if devDependencies.Some? {
        WalkRootsGrows(env, first.state, devDependencies.value, fuel);
      }
      GrowsTransitive(st, first.state, second.state);
    }
  }

  /**
   * The write-back of list.ts:149-151 on an object with distinct keys:
   * position i holds the returned version when call i returned a value,
   * and is unchanged otherwise; keys and order stay as they were.
   */
  lemma {:induction false} RewriteAt(entries: seq<(string, string)>, results: seq<Option<Resolved>>)
    requires DistinctKeys(entries)
    requires |results| <= |entries|
    requires forall i :: 0 <= i < |results| && results[i].Some? ==> results[i].value.depName == entries[i].0
    ensures |Rewrite(entries, results)| == |entries|
    ensures forall i :: 0 <= i < |entries| ==> (Rewrite(entries, results)[i] ==
      if i < |results| && results[i].Some? then (entries[i].0, results[i].value.version) else entries[i])
    decreases |results|
  {
    if results != [] {
      var n := |results|;
      var shorter := results[..n - 1];
      RewriteAt(entries, shorter);
      var before := Rewrite(entries, shorter);
      var after := Rewrite(entries, results);
      if results[n - 1].Some? {
        var dep := results[n - 1].value;
        assert before[n - 1] == entries[n - 1];
        forall i | 0 <= i < n - 1 ensures before[i].0 != dep.depName {
          assert shorter[i] == results[i];
        }
        SetExisting(before, n - 1, dep.depName, dep.version);
        assert after == before[n - 1 := (dep.depName, dep.version)];
      } else {
        assert after == before;
      }
      forall i | 0 <= i < |entries|
        ensures after[i] == if i < n && results[i].Some? then (entries[i].0, results[i].value.version) else entries[i]
      {
        if i < n - 1 {
          assert shorter[i] == results[i];
        }
      }
    }
  }

  /**
   * A call with an empty constraint that returns (list.ts:32-34,
   * 108-113) returns the LAST version of the package's version map, as
   * the registry client holds it afterwards, with that version's
   * dependencies.
   */
  lemma WalkReturnsChosen(env: Env, st: State, depName: string, stack: seq<Frame>, fuel: nat)
    requires Walk(env, st, depName, "", stack, fuel).result.Ok?
    ensures var r := Walk(env, st, depName, "", stack, fuel);
      depName in r.state.cache && r.result.value.Some? && r.result.value == Latest(depName, r.state.cache[depName])
  {
    var r := Walk(env, st, depName, "", stack, fuel);
    var selected := Select(env, st, depName, "");
    var (matched, record) := selected.result.value;
    var m := selected.state.cache[depName];
    var d := Descend(env, selected.state, depName, "", matched, record, stack, fuel - 1);
    assert r == d;
    DescendGrows(env, selected.state, depName, "", matched, record, stack, fuel - 1);
    assert Keys(m)[|Keys(m)| - 1] == m[|m| - 1].0;
  }

  /**
   * The root calls: after success, each entry with an empty constraint
   * got back its package's latest version, read from the final cache.
   */
  lemma {:induction false} WalkRootsReturnChosen(env: Env, st: State, entries: seq<(string, string)>, fuel: nat)
    requires WalkRoots(env, st, entries, fuel).result.Ok?
    ensures var r := WalkRoots(env, st, entries, fuel);
      forall i :: 0 <= i < |entries| && entries[i].1 == "" ==>
        entries[i].0 in r.state.cache && r.result.value[i] == Latest(entries[i].0, r.state.cache[entries[i].0])
    decreases |entries|
  {
    if entries != [] {
      var r := WalkRoots(env, st, entries, fuel);
      var first := Walk(env, st, entries[0].0, entries[0].1, [], fuel);
      var rest := WalkRoots(env, first.state, entries[1..], fuel);
      WalkRootsGrows(env, first.state, entries[1..], fuel);
      WalkRootsReturnChosen(env, first.state, entries[1..], fuel);
      if entries[0].1 == "" {
        WalkReturnsChosen(env, st, entries[0].0, [], fuel);
      }
      forall i | 0 <= i < |entries| && entries[i].1 == ""
        ensures entries[i].0 in r.state.cache && r.result.value[i] == Latest(entries[i].0, r.state.cache[entries[i].0])
      {
        if i > 0 {
          assert entries[i] == entries[1..][i - 1];
          assert r.result.value[i] == rest.result.value[i - 1];
        }
      }
    }
  }

  /**
   * `processDependencies` on an object with distinct keys: after success,
   * an entry whose constraint was empty holds the last version of its
   * package's version map, and every other entry is unchanged.
   */
  lemma ProcessRewritesEmptyConstraints(env: Env, st: State, entries: seq<(string, string)>, fuel: nat)
    requires DistinctKeys(entries)
    requires WalkRoots(env, st, entries, fuel).result.Ok?
    ensures var run := WalkRoots(env, st, entries, fuel);
      && |Rewrite(entries, run.result.value)| == |entries|
      && forall i :: 0 <= i < |entries| ==>
        if entries[i].1 == "" then
          && entries[i].0 in run.state.cache
          && Keys(run.state.cache[entries[i].0]) != []
          && Rewrite(entries, run.result.value)[i]
            == (entries[i].0, Keys(run.state.cache[entries[i].0])[|run.state.cache[entries[i].0]| - 1])
        else Rewrite(entries, run.result.value)[i] == entries[i]
  {
    var run := WalkRoots(env, st, entries, fuel);
    WalkRootsReturnChosen(env, st, entries, fuel);
    RewriteWithLatest(entries, run.result.value, run.state.cache);
  }

  /** The write-back when every value returned for an empty constraint is its package's latest version. */
  lemma RewriteWithLatest(entries: seq<(string, string)>, results: seq<Option<Resolved>>,
                          cache: map<string, VersionMap>)
    requires DistinctKeys(entries) && |results| == |entries|
    requires forall i :: 0 <= i < |entries| ==> (results[i].Some? <==> entries[i].1 == "")
    requires forall i :: 0 <= i < |entries| && results[i].Some? ==> results[i].value.depName == entries[i].0
    requires forall i :: 0 <= i < |entries| && entries[i].1 == "" ==>
      entries[i].0 in cache && results[i] == Latest(entries[i].0, cache[entries[i].0])
    ensures |Rewrite(entries, results)| == |entries|
    ensures forall i :: 0 <= i < |entries| ==>
      if entries[i].1 == "" then
        && entries[i].0 in cache
        && Keys(cache[entries[i].0]) != []
        && Rewrite(entries, results)[i] == (entries[i].0, Keys(cache[entries[i].0])[|cache[entries[i].0]| - 1])
      else Rewrite(entries, results)[i] == entries[i]
  {
    RewriteAt(entries, results);
    forall i | 0 <= i < |entries| && entries[i].1 == ""
      ensures Keys(cache[entries[i].0]) != []
      ensures Rewrite(entries, results)[i] == (entries[i].0, Keys(cache[entries[i].0])[|cache[entries[i].0]| - 1])
    {
      assert results[i].Some?;
    }
  }

  /**
   * The frames pushed at list.ts:90-94 hold the child map's own
   * "dependencies" entry, which a registry record normally lacks. With no
   * such entry on any frame, every frame accepts every version, so a
   * package that is already flattened at a version satisfying the new one
   * is a conflict anywhere below the root.
   */
  lemma RepeatBelowRootConflicts(satisfies: (string, string) -> bool, flattened: map<string, Flat>,
                                 depName: string, matched: string, record: Option<VersionRecord>,
                                 stack: seq<Frame>)
    requires depName in flattened && satisfies(flattened[depName].version, matched)
    requires stack != [] && stack[0].dependencies == None
    ensures Place(satisfies, flattened, depName, matched, record, stack) == Err(PlainError(ConflictMessage))
  {
    assert Accepts(satisfies, stack[0], depName, matched);
  }

  /**
   * Hence, with frames that carry no "dependencies" entry, the
   * satisfied-repeat branch nests only from a root call, under the empty
   * parent path.
   */
  lemma SatisfiedRepeatNestsOnlyAtRoot(satisfies: (string, string) -> bool, flattened: map<string, Flat>,
                                       depName: string, matched: string, record: Option<VersionRecord>,
                                       stack: seq<Frame>)
    requires depName in flattened && satisfies(flattened[depName].version, matched)
    requires forall i :: 0 <= i < |stack| ==> stack[i].dependencies == None
    requires Place(satisfies, flattened, depName, matched, record, stack).Ok?
    ensures stack == []
    ensures Place(satisfies, flattened, depName, matched, record, stack).value.record.parent == ""
  {
    if stack != [] {
      RepeatBelowRootConflicts(satisfies, flattened, depName, matched, record, stack);
    }
  }

  /** The parent path of list.ts:59-62 at `conflictIndex` -1: at most the last three names. */
  lemma ConflictParentIsLastThree(stack: seq<Frame>)
    ensures ConflictParent(stack, -1) ==
      Join(Names(stack)[if |stack| < 3 then 0 else |stack| - 3..], NodeModules)
    ensures |stack| >= 3 ==> (ConflictParent(stack, -1) ==
      stack[|stack| - 3].depName + NodeModules + stack[|stack| - 2].depName + NodeModules + stack[|stack| - 1].depName)
  {
    if |stack| >= 3 {
      var n := |stack|;
      var last := Names(stack)[n - 3..];
      assert last == [stack[n - 3].depName, stack[n - 2].depName, stack[n - 1].depName];
      assert ConflictParent(stack, -1) == Join(last, NodeModules);
      assert last[1..][1..] == [stack[n - 1].depName];
      assert Join(last[1..], NodeModules) == stack[n - 2].depName + NodeModules + stack[n - 1].depName;
      assert Join(last, NodeModules) == stack[n - 3].depName + NodeModules + (stack[n - 2].depName + NodeModules + stack[n - 1].depName);
    }
  }

  /** The else branch of list.ts:65-71 reads the top of the stack: from a root call it throws. */
  lemma UnsatisfiedRepeatAtRootThrows(satisfies: (string, string) -> bool, flattened: map<string, Flat>,
                                      depName: string, matched: string, record: Option<VersionRecord>)
    requires depName in flattened && !satisfies(flattened[depName].version, matched)
    ensures Place(satisfies, flattened, depName, matched, record, []) == Err(TypeError)
  {
  }

  /**
   * A package already present in the cache is not fetched again: such a
   * call makes no request attempt before it places the package.
   */
  lemma CachedNameNotRefetched(env: Env, st: State, depName: string, constraint: string,
                               stack: seq<Frame>, fuel: nat)
    requires depName in st.cache && fuel > 0
    requires ChooseVersion(env.semver.pick, Keys(st.cache[depName]), constraint).Ok?
    ensures var matched := ChooseVersion(env.semver.pick, Keys(st.cache[depName]), constraint).value;
      Walk(env, st, depName, constraint, stack, fuel) ==
        Descend(env, st, depName, constraint, matched, Get(st.cache[depName], matched), stack, fuel - 1)
  {
  }
}
