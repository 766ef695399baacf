/**
 * The dependency walk of src/list.ts. `getDependency` resolves one
 * package, decides whether it is hoisted into `flattenedPkgs` or recorded
 * in `unsatisfiedDeps` for a nested install, and recurses into the chosen
 * version's dependencies with an explicit ancestor stack; `list` drives it
 * over a manifest's two dependency objects.
 *
 * `Walk` and its companions state, as functions of the process state, what
 * one call does; the methods of `Resolver` are proved to do exactly that.
 *
 * Evaluation order: the source fans out with `Promise.all`. This model
 * runs siblings one after another, depth first, in declaration order, and
 * the first error ends the run; this order is a choice of the model.
 */
module DependencyList {
  import opened Wrappers
  import opened Errors
  import opened Entries
  import opened Registry
  import opened Json
  import Lock
  import opened Resolve
  import opened Manifest

  /**
   * Bun's `semver`, left uninterpreted: `satisfies(version, range)`, and
   * `pick(versions, constraint)`, the version the call at list.ts:33 selects
   * (None for a falsy answer).
   */
  datatype Semver = Semver(
    satisfies: (string, string) -> bool,
    pick: (seq<string>, string) -> Option<string>)

  /**
   * An ancestor frame. `dependencies` is what list.ts:93 stores: the value
   * under the key "dependencies" of the package's dependency object (a
   * range string, normally absent), not the object itself.
   */
  datatype Frame = Frame(depName: string, version: string, dependencies: Option<string>)

  /** An entry of `flattenedPkgs`. */
  datatype Flat = Flat(url: string, version: string)

  /** An entry of `unsatisfiedDeps`: install `depName` under `parent`. */
  datatype Nested = Nested(depName: string, parent: string, url: string)

  /** What `getDependency` returns for a falsy constraint. */
  datatype Resolved = Resolved(depName: string, version: string, dependencies: Dependencies)

  const NodeModules: string := "/node_modules/"

  /** The ancestor stack, an array that `getDependency` pushes and pops in place. */
  class DepStack {
    var frames: seq<Frame>

    constructor (frames: seq<Frame>)
      ensures this.frames == frames
    {
      this.frames := frames;
    }

    method Push(f: Frame)
      modifies this
      ensures frames == old(frames) + [f]
    {
      frames := frames + [f];
    }

    /** `pop()`: removes the last frame; an empty stack stays empty. */
    method Pop()
      modifies this
      ensures old(frames) == [] ==> frames == []
      ensures old(frames) != [] ==> frames == old(frames)[..|old(frames)| - 1]
    {
      if frames != [] {
        frames := frames[..|frames| - 1];
      }
    }

    /** `slice()`: a new array with the same frames. */
    method Slice() returns (copy: DepStack)
      ensures fresh(copy) && copy.frames == frames
    {
      copy := new DepStack(frames);
    }
  }

  /** The names along a stack, bottom first. */
  function Names(stack: seq<Frame>): seq<string>
  {
    seq(|stack|, i requires 0 <= i < |stack| => stack[i].depName)
  }

  /** `parts.join(sep)`. */
  function Join(parts: seq<string>, sep: string): string
  {
    if parts == [] then ""
    else if |parts| == 1 then parts[0]
    else parts[0] + sep + Join(parts[1..], sep)
  }

  /** `xs.slice(start)`, where a negative start counts from the end. */
  function SliceFrom<T>(xs: seq<T>, start: int): seq<T>
  {
    var from :=
      if start < 0 then (if |xs| + start < 0 then 0 else |xs| + start)
      else (if start > |xs| then |xs| else start);
    xs[from..]
  }

  /**
   * `hasCirculation` (list.ts:117-122): some frame has the name and a
   * version satisfying the constraint.
   */
  function HasCirculation(satisfies: (string, string) -> bool, depName: string,
                          constraint: string, stack: seq<Frame>): (b: bool)
    ensures b <==> exists i :: 0 <= i < |stack| && stack[i].depName == depName && satisfies(stack[i].version, constraint)
  {
    if stack == [] then false
    else if stack[0].depName == depName && satisfies(stack[0].version, constraint) then true
    else
      var b := HasCirculation(satisfies, depName, constraint, stack[1..]);
      assert forall i :: 1 <= i < |stack| ==> stack[i] == stack[1..][i - 1];
      b
  }

  /** A property name that is an array index of a string: digits, no leading zero. */
  function CanonicalIndex(name: string): Option<nat>
  {
    if name == [] || (|name| > 1 && name[0] == '0') then None
    else if forall i :: 0 <= i < |name| ==> '0' <= name[i] <= '9' then Some(DigitsValue(name))
    else None
  }

  /**
   * `s[name]` for a string s: its character at a canonical index, its
   * length for "length" (handed on as its decimal text), otherwise
   * `undefined`.
   */
  function StringMember(s: string, name: string): Option<string>
  {
    if name == "length" then Some(Decimal(|s|))
    else match CanonicalIndex(name)
      case Some(i) => if i < |s| then Some([s[i]]) else None
      case None => None
  }

  /** `dependencies && dependencies[name]` on a frame (list.ts:130); None when falsy. */
  function FrameRange(f: Frame, name: string): Option<string>
  {
    match f.dependencies
    case None => None
    case Some(s) => if s == "" then None else StringMember(s, name)
  }

  /** The findIndex test of list.ts:129-136: no range for the name, or one the version satisfies. */
  predicate Accepts(satisfies: (string, string) -> bool, f: Frame, name: string, version: string)
  {
    match FrameRange(f, name)
    case None => true
    case Some(range) => satisfies(version, range)
  }

  /**
   * `checkStackDependencies` (list.ts:124-137): the index of the first
   * frame that accepts the version, or -1 when none does.
   */
  function CheckStackDependencies(satisfies: (string, string) -> bool, name: string,
                                  version: string, stack: seq<Frame>): (r: int)
    ensures -1 <= r < |stack|
    ensures r == -1 <==> forall i :: 0 <= i < |stack| ==> !Accepts(satisfies, stack[i], name, version)
    ensures r >= 0 ==> (Accepts(satisfies, stack[r], name, version) &&
      forall i :: 0 <= i < r ==> !Accepts(satisfies, stack[i], name, version))
  {
    if stack == [] then -1
    else if Accepts(satisfies, stack[0], name, version) then 0
    else
      var r := CheckStackDependencies(satisfies, name, version, stack[1..]);
      assert forall i :: 1 <= i < |stack| ==> stack[i] == stack[1..][i - 1];
      if r == -1 then -1 else r + 1
  }

  /** The parent path of list.ts:59-62. */
  function ConflictParent(stack: seq<Frame>, conflictIndex: int): string
  {
    Join(SliceFrom(Names(stack), conflictIndex - 2), NodeModules)
  }

  /**
   * The version chosen at list.ts:32-37: the matcher's pick for a
   * non-empty constraint, otherwise the LAST key of the version map; a
   * missing or empty choice throws "Cannot resolve the package !".
   */
  function ChooseVersion(pick: (seq<string>, string) -> Option<string>,
                         versions: seq<string>, constraint: string): (r: Result<string, Error>)
    ensures r.Err? ==> r.error == PlainError(CannotResolveMessage)
    ensures r.Ok? ==> r.value != ""
    ensures constraint == "" ==>
      (r.Ok? <==> versions != [] && versions[|versions| - 1] != "")
    ensures constraint == "" && r.Ok? ==> r.value == versions[|versions| - 1]
    ensures constraint != "" ==>
      (r.Ok? <==> pick(versions, constraint).Some? && pick(versions, constraint).value != "")
    ensures constraint != "" && r.Ok? ==> pick(versions, constraint) == Some(r.value)
  {
    var matched :=
      if constraint != "" then pick(versions, constraint)
      else if versions == [] then None
      else Some(versions[|versions| - 1]);
    if matched.None? || matched.value == "" then Err(PlainError(CannotResolveMessage))
    else Ok(matched.value)
  }

  /** Where a resolved package goes. */
  datatype Placement = Hoist(entry: Flat) | Nest(record: Nested)

  /** The conflict rule of list.ts:46-56 fires: the flattened version satisfies the new one and some frame accepts it. */
  predicate ConflictFires(satisfies: (string, string) -> bool, flattened: map<string, Flat>,
                          depName: string, matched: string, stack: seq<Frame>)
  {
    && depName in flattened
    && satisfies(flattened[depName].version, matched)
    && exists i :: 0 <= i < |stack| && Accepts(satisfies, stack[i], depName, matched)
  }

  /**
   * The placement decision of list.ts:41-71 for version `matched`, whose
   * record (`manifest[matched]`) may be missing. A first sighting is
   * hoisted; a name already flattened is either a conflict or nested,
   * under the last three stack names when the flattened version satisfies
   * `matched`, else under the top of the stack. Reading the missing record
   * or the top of an empty stack is a TypeError.
   */
  function Place(satisfies: (string, string) -> bool, flattened: map<string, Flat>,
                 depName: string, matched: string, record: Option<VersionRecord>,
                 stack: seq<Frame>): (r: Result<Placement, Error>)
    ensures r.Ok? ==> record.Some?
    ensures r.Ok? && r.value.Hoist? <==> depName !in flattened && record.Some?
    ensures r.Ok? && r.value.Hoist? ==> r.value.entry == Flat(record.value.dist.tarball, matched)
    ensures r.Ok? && r.value.Nest? ==>
      r.value.record.depName == depName && r.value.record.url == record.value.dist.tarball
    ensures r == Err(PlainError(ConflictMessage)) <==> ConflictFires(satisfies, flattened, depName, matched, stack)
    ensures r.Err? ==> r.error == PlainError(ConflictMessage) || r.error == TypeError
    ensures r.Ok? <==>
      && record.Some?
      && !ConflictFires(satisfies, flattened, depName, matched, stack)
      && (depName in flattened && !satisfies(flattened[depName].version, matched) ==> stack != [])
    ensures r.Ok? && depName in flattened && satisfies(flattened[depName].version, matched) ==>
      r.value.record.parent == Join(Names(stack)[if |stack| < 3 then 0 else |stack| - 3..], NodeModules)
    ensures r.Ok? && depName in flattened && !satisfies(flattened[depName].version, matched) ==>
      r.value.record.parent == stack[|stack| - 1].depName
  {
    if depName !in flattened then
      if record.None? then Err(TypeError)
      else Ok(Hoist(Flat(record.value.dist.tarball, matched)))
    else if satisfies(flattened[depName].version, matched) then
      var conflictIndex := CheckStackDependencies(satisfies, depName, matched, stack);
      if conflictIndex != -1 then Err(PlainError(ConflictMessage))
      else if record.None? then Err(TypeError)
      else Ok(Nest(Nested(depName, ConflictParent(stack, conflictIndex), record.value.dist.tarball)))
    else if stack == [] || record.None? then Err(TypeError)
    else Ok(Nest(Nested(depName, stack[|stack| - 1].depName, record.value.dist.tarball)))
  }

  /** `matchedManifest.dependencies ?? {}`. */
  function DependenciesOf(record: VersionRecord): Dependencies
  {
    match record.dependencies
    case Some(d) => d
    case None => []
  }

  /**
   * The children visited at list.ts:96-100: the dependencies, in
   * declaration order, that no frame already satisfies.
   */
  function Unvisited(satisfies: (string, string) -> bool, dependencies: Dependencies,
                     stack: seq<Frame>): Dependencies
  {
    if dependencies == [] then []
    else
      var rest := Unvisited(satisfies, dependencies[1..], stack);
      if HasCirculation(satisfies, dependencies[0].0, dependencies[0].1, stack) then rest
      else [dependencies[0]] + rest
  }

  /** A string field, `undefined` when missing. */
  function StrOrUndefined(s: Option<string>): Value
  {
    match s
    case Some(v) => Str(v)
    case None => Undefined
  }

  /** An object of strings as a value; a repeated key keeps its last value. */
  function StringsObject(entries: seq<(string, string)>): (r: map<string, Value>)
    ensures r.Keys == set e | e in entries :: e.0
    ensures forall k :: k in r ==> r[k].Str?
  {
    if entries == [] then map[]
    else StringsObject(entries[..|entries| - 1])[entries[|entries| - 1].0 := Str(entries[|entries| - 1].1)]
  }

  function DistValue(d: Dist): Value
  {
    var base := map["shasum" := Str(d.shasum), "tarball" := Str(d.tarball)];
    var withIntegrity := match d.integrity
      case Some(i) => base["integrity" := Str(i)]
      case None => base;
    match d.signatures
    case Some(sigs) =>
      Obj(withIntegrity["signatures" := Arr(seq(|sigs|, i requires 0 <= i < |sigs| =>
        Obj((if sigs[i].keyid.Some? then map["keyid" := Str(sigs[i].keyid.value)] else map[])
          + (if sigs[i].sig.Some? then map["sig" := Str(sigs[i].sig.value)] else map[]))))])
    case None => Obj(withIntegrity)
  }

  /** The record written to the lock at list.ts:75-87: all eleven fields, missing ones `undefined`. */
  function LockRecord(depName: string, version: string, record: VersionRecord,
                      dependencies: Dependencies): Lock.Fields
  {
    map[
      "name" := Str(depName),
      "version" := Str(version),
      "_id" := Str(record.id),
      "_npmVersion" := Str(record.npmVersion),
      "dependencies" := Obj(StringsObject(dependencies)),
      "dist" := DistValue(record.dist),
      "engine" := (match record.engine
        case Some(e) => Obj(if e.node.Some? then map["node" := Str(e.node.value)] else map[])
        case None => Undefined),
      "directories" := (match record.directories
        case Some(d) => Obj(if d.lib.Some? then map["lib" := Str(d.lib.value)] else map[])
        case None => Undefined),
      "keywords" := (match record.keywords
        case Some(ks) => Arr(seq(|ks|, i requires 0 <= i < |ks| => Str(ks[i])))
        case None => Undefined),
      "_nodeSupported" := (match record.nodeSupported
        case Some(b) => Bool(b)
        case None => Undefined),
      "_nodeVersion" := StrOrUndefined(record.nodeVersion)]
  }

  /** The lock record has exactly the eleven fields, and the name, version and dependency keys it was given. */
  lemma LockRecordFields(depName: string, version: string, record: VersionRecord, dependencies: Dependencies)
    ensures var r := LockRecord(depName, version, record, dependencies);
      && r.Keys == {"name", "version", "_id", "_npmVersion", "dependencies", "dist", "engine",
                    "directories", "keywords", "_nodeSupported", "_nodeVersion"}
      && r["name"] == Str(depName) && r["version"] == Str(version) && r["_id"] == Str(record.id)
      && r["dependencies"] == Obj(StringsObject(dependencies))
      && StringsObject(dependencies).Keys == set e | e in dependencies :: e.0
  {
  }

  /** What the walk depends on but does not change: the matcher and the network. */
  datatype Env = Env(semver: Semver, network: (string, nat) -> Attempt<Body>, retries: nat)

  /** The process-wide state the walk changes: the two accumulators and the registry client. */
  datatype State = State(
    flattened: map<string, Flat>,
    unsatisfied: seq<Nested>,
    cache: map<string, VersionMap>,
    sent: nat)

  /** How a call settled, and the state after it. */
  datatype Step<+T> = Step(result: Result<T, Error>, state: State)

  /** Records a placement decision. */
  function Apply(st: State, depName: string, p: Placement): State
  {
    match p
    case Hoist(f) => st.(flattened := st.flattened[depName := f])
    case Nest(n) => st.(unsatisfied := st.unsatisfied + [n])
  }

  /**
   * One call `getDependency(depName, constraint, stack)` (list.ts:22-115)
   * with at most `fuel` levels of recursion. A value comes back only for an
   * empty constraint.
   */
  function Walk(env: Env, st: State, depName: string, constraint: string,
                stack: seq<Frame>, fuel: nat): (r: Step<Option<Resolved>>)
    ensures r.result.Ok? ==> (r.result.value.Some? <==> constraint == "")
    ensures r.result.Ok? && r.result.value.Some? ==> r.result.value.value.depName == depName
    decreases fuel, 1
  {
    if fuel == 0 then Step(Err(DepthExhausted), st)
    else
      var selected := Select(env, st, depName, constraint);
      if selected.result.Err? then Step(Err(selected.result.error), selected.state)
      else Descend(env, selected.state, depName, constraint, selected.result.value.0,
        selected.result.value.1, stack, fuel - 1)
  }

  /**
   * The version lookup of list.ts:27-39: the version map from the
   * registry client, the chosen version, and its record if the map has one.
   */
  function Select(env: Env, st: State, depName: string, constraint: string)
    : (r: Step<(string, Option<VersionRecord>)>)
    ensures r.state.flattened == st.flattened && r.state.unsatisfied == st.unsatisfied
    ensures var fetch := ResolveStep(env.network, env.retries, st.cache, st.sent, depName);
      r.state.cache == fetch.cache && r.state.sent == fetch.sent
    ensures var fetch := ResolveStep(env.network, env.retries, st.cache, st.sent, depName);
      fetch.result.Err? ==> r.result == Err(fetch.result.error)
    ensures var fetch := ResolveStep(env.network, env.retries, st.cache, st.sent, depName);
      fetch.result.Ok? ==> (r.result.Ok? <==> ChooseVersion(env.semver.pick, Keys(fetch.result.value), constraint).Ok?)
    ensures var fetch := ResolveStep(env.network, env.retries, st.cache, st.sent, depName);
      fetch.result.Ok? && ChooseVersion(env.semver.pick, Keys(fetch.result.value), constraint).Err? ==>
        r.result == Err(PlainError(CannotResolveMessage))
    ensures r.result.Ok? ==> (depName in r.state.cache &&
      r.result.value.0 == ChooseVersion(env.semver.pick, Keys(r.state.cache[depName]), constraint).value &&
      r.result.value.1 == Get(r.state.cache[depName], r.result.value.0))
  {
    var fetch := ResolveStep(env.network, env.retries, st.cache, st.sent, depName);
    var st1 := st.(cache := fetch.cache, sent := fetch.sent);
    if fetch.result.Err? then Step(Err(fetch.result.error), st1)
    else
      var manifest := fetch.result.value;
      var chosen := ChooseVersion(env.semver.pick, Keys(manifest), constraint);
      if chosen.Err? then Step(Err(chosen.error), st1)
      else Step(Ok((chosen.value, Get(manifest, chosen.value))), st1)
  }

  /**
   * The rest of a call once version `matched` is chosen (list.ts:39-114):
   * place it, then visit its unvisited dependencies with `fuel` levels
   * left, its frame on top of the stack.
   */
  function Descend(env: Env, st: State, depName: string, constraint: string, matched: string,
                   record: Option<VersionRecord>, stack: seq<Frame>, fuel: nat): (r: Step<Option<Resolved>>)
    ensures r.result.Ok? ==> (r.result.value.Some? <==> constraint == "")
    ensures r.result.Ok? && r.result.value.Some? ==>
      record.Some? && r.result.value.value == Resolved(depName, matched, DependenciesOf(record.value))
    ensures var placed := Place(env.semver.satisfies, st.flattened, depName, matched, record, stack);
      placed.Err? ==> r == Step(Err(placed.error), st)
    decreases fuel + 1, 0
  {
    var placed := Place(env.semver.satisfies, st.flattened, depName, matched, record, stack);
    if placed.Err? then Step(Err(placed.error), st)
    else
      var dependencies := DependenciesOf(record.value);
      var pushed := stack + [Frame(depName, matched, Get(dependencies, "dependencies"))];
      var children := WalkChildren(env, Apply(st, depName, placed.value),
        Unvisited(env.semver.satisfies, dependencies, pushed), pushed, fuel);
      if children.result.Err? then Step(Err(children.result.error), children.state)
      else if constraint == "" then Step(Ok(Some(Resolved(depName, matched, dependencies))), children.state)
      else Step(Ok(None), children.state)
  }

  /** The children of one package, each given its own copy of `stack`. */
  function WalkChildren(env: Env, st: State, children: Dependencies, stack: seq<Frame>,
                        fuel: nat): Step<()>
    decreases fuel, 2, |children|
  {
    if children == [] then Step(Ok(()), st)
    else
      var first := Walk(env, st, children[0].0, children[0].1, stack, fuel);
      if first.result.Err? then Step(Err(first.result.error), first.state)
      else WalkChildren(env, first.state, children[1..], stack, fuel)
  }

  /**
   * The root calls of `processDependencies` (list.ts:144-148), each with
   * an empty stack; on success, the value of each call in entry order.
   * Exactly the entries with an empty constraint produce a value, and it
   * is named after the entry.
   */
  function WalkRoots(env: Env, st: State, entries: seq<(string, string)>, fuel: nat)
    : (r: Step<seq<Option<Resolved>>>)
    ensures r.result.Ok? ==> |r.result.value| == |entries|
    ensures r.result.Ok? ==> forall i :: 0 <= i < |entries| ==>
      (r.result.value[i].Some? <==> entries[i].1 == "")
    ensures r.result.Ok? ==> forall i :: 0 <= i < |entries| && r.result.value[i].Some? ==>
      r.result.value[i].value.depName == entries[i].0
    decreases |entries|
  {
    if entries == [] then Step(Ok([]), st)
    else
      var first := Walk(env, st, entries[0].0, entries[0].1, [], fuel);
      if first.result.Err? then Step(Err(first.result.error), first.state)
      else
        var rest := WalkRoots(env, first.state, entries[1..], fuel);
        if rest.result.Err? then rest
        else Step(Ok([first.result.value] + rest.result.value), rest.state)
  }

  /** `prefix` put before the values of a successful run. */
  function Prefixed(prefix: seq<Option<Resolved>>, s: Step<seq<Option<Resolved>>>): Step<seq<Option<Resolved>>>
  {
    match s.result
    case Ok(v) => Step(Ok(prefix + v), s.state)
    case Err(_) => s
  }

  /**
   * One `processDependencies` call (list.ts:139-152) on an object's
   * entries, None for a missing object. On success, the entries the
   * object holds afterwards.
   */
  function Phase(env: Env, st: State, entries: Option<seq<(string, string)>>, fuel: nat)
    : (r: Step<Option<seq<(string, string)>>>)
    ensures r.result.Ok? ==> (r.result.value.Some? <==> entries.Some?)
    ensures entries.None? ==> r == Step(Ok(None), st)
    ensures entries.Some? ==> r.state == WalkRoots(env, st, entries.value, fuel).state
    ensures entries.Some? && WalkRoots(env, st, entries.value, fuel).result.Err? ==>
      r.result == Err(WalkRoots(env, st, entries.value, fuel).result.error)
    ensures entries.Some? && r.result.Ok? ==>
      var run := WalkRoots(env, st, entries.value, fuel);
      run.result.Ok? && r.result.value.value == Rewrite(entries.value, run.result.value)
  {
    match entries
    case None => Step(Ok(None), st)
    case Some(e) =>
      var run := WalkRoots(env, st, e, fuel);
      if run.result.Ok? then Step(Ok(Some(Rewrite(e, run.result.value))), run.state)
      else Step(Err(run.result.error), run.state)
  }

  /**
   * `list` (list.ts:154-159): the runtime dependencies, then the
   * development ones. On success, what each object holds afterwards.
   */
  function ListRun(env: Env, st: State, dependencies: Option<seq<(string, string)>>,
                   devDependencies: Option<seq<(string, string)>>, fuel: nat)
    : (r: Step<(Option<seq<(string, string)>>, Option<seq<(string, string)>>)>)
    ensures Phase(env, st, dependencies, fuel).result.Err? ==> r == Step(
      Err(Phase(env, st, dependencies, fuel).result.error), Phase(env, st, dependencies, fuel).state)
    ensures r.result.Ok? ==> Phase(env, st, dependencies, fuel).result == Ok(r.result.value.0)
    ensures r.result.Ok? ==> (r.result.value.1.Some? <==> devDependencies.Some?)
    ensures Phase(env, st, dependencies, fuel).result.Ok? ==>
      var second := Phase(env, Phase(env, st, dependencies, fuel).state, devDependencies, fuel);
      && r.state == second.state
      && (second.result.Err? ==> r.result == Err(second.result.error))
      && (second.result.Ok? ==> r.result.Ok? && r.result.value.1 == second.result.value)
  {
    var first := Phase(env, st, dependencies, fuel);
    if first.result.Err? then Step(Err(first.result.error), first.state)
    else
      var second := Phase(env, first.state, devDependencies, fuel);
      if second.result.Err? then Step(Err(second.result.error), second.state)
      else Step(Ok((first.result.value, second.result.value)), second.state)
  }

  /**
   * What a call with an empty constraint returns for package `name` whose
   * version map is m: its last version, with that version's dependencies.
   */
  function Latest(name: string, m: VersionMap): (r: Option<Resolved>)
    ensures r.Some? ==> Keys(m) != [] && r.value.depName == name
    ensures r.Some? ==> r.value.version == Keys(m)[|Keys(m)| - 1]
  {
    if m == [] then None
    else
      var v := m[|m| - 1].0;
      match Get(m, v)
      case Some(record) => Some(Resolved(name, v, DependenciesOf(record)))
      case None => None
  }

  ghost function EntriesOf(d: DepMap?): Option<seq<(string, string)>>
    reads d
  {
    if d == null then None else Some(d.entries)
  }

  lemma PrefixedEmpty(s: Step<seq<Option<Resolved>>>)
    ensures Prefixed([], s) == s
  {
    if s.result.Ok? {
      assert [] + s.result.value == s.result.value;
    }
  }

  lemma PrefixedAppend(prefix: seq<Option<Resolved>>, v: Option<Resolved>, s: Step<seq<Option<Resolved>>>)
    ensures Prefixed(prefix, Prefixed([v], s)) == Prefixed(prefix + [v], s)
  {
    if s.result.Ok? {
      assert prefix + ([v] + s.result.value) == (prefix + [v]) + s.result.value;
    }
  }

  /** The names carried by the values that came back. */
  function ReturnedNames(results: seq<Option<Resolved>>): set<string>
  {
    set j | 0 <= j < |results| && results[j].Some? :: results[j].value.depName
  }

  /**
   * The `forEach` of list.ts:149-151 over the values returned so far:
   * `dependencies[dep.depName] = dep.version` for each value, in order.
   */
  function Rewrite(entries: seq<(string, string)>, results: seq<Option<Resolved>>): (r: seq<(string, string)>)
    ensures |entries| <= |r|
    ensures forall i :: 0 <= i < |entries| ==> r[i].0 == entries[i].0
    ensures DistinctKeys(entries) ==> DistinctKeys(r)
    ensures forall k :: k !in ReturnedNames(results) ==> Get(r, k) == Get(entries, k)
    decreases |results|
  {
    if results == [] then entries
    else
      var before := Rewrite(entries, results[..|results| - 1]);
      match results[|results| - 1]
      case None => before
      case Some(dep) => Set(before, dep.depName, dep.version)
  }

  /**
   * The module state of src/list.ts (the two accumulators), with the
   * registry client and the version matcher it uses.
   */
  class Resolver {
    var flattenedPkgs: map<string, Flat>
    var unsatisfiedDeps: seq<Nested>
    const registry: RegistryClient
    const semver: Semver

    /** Both accumulators start empty (list.ts:17-20). */
    constructor (registry: RegistryClient, semver: Semver)
      ensures flattenedPkgs == map[] && unsatisfiedDeps == []
      ensures this.registry == registry && this.semver == semver
    {
      flattenedPkgs := map[];
      unsatisfiedDeps := [];
      this.registry := registry;
      this.semver := semver;
    }

    ghost function Snapshot(): State
      reads this, registry
    {
      State(flattenedPkgs, unsatisfiedDeps, registry.cache, registry.sent)
    }

    function Environment(): Env
    {
      Env(semver, registry.network, registry.retries)
    }

    /**
     * `getDependency(depName, constraint, stack)`: the state and the value
     * are those Walk gives. The caller's stack has its entry frames again
     * after a call that returns; one that throws after the push leaves the
     * pushed frame on it.
     */
    method GetDependency(depName: string, constraint: string, stack: DepStack, fuel: nat)
      returns (r: Result<Option<Resolved>, Error>)
      modifies this, registry, stack
      ensures Step(r, Snapshot()) == Walk(Environment(), old(Snapshot()), depName, constraint, old(stack.frames), fuel)
      ensures r.Ok? ==> stack.frames == old(stack.frames)
      ensures r.Err? ==> (stack.frames == old(stack.frames) ||
        (|stack.frames| == |old(stack.frames)| + 1 && stack.frames[..|old(stack.frames)|] == old(stack.frames)))
      decreases fuel, 1
    {
      if fuel == 0 {
        return Err(DepthExhausted);
      }
      var lock, selected := SelectVersion(depName, constraint);
      if selected.Err? {
        return Err(selected.error);
      }
      r := Settle(lock, depName, constraint, selected.value.0, selected.value.1, stack, fuel - 1);
    }

    /**
     * The version lookup of `getDependency`, as Select says. The lock
     * manager is new on every call: its old lock is empty, so the lookup
     * misses and the versions come from the registry.
     */
    method SelectVersion(depName: string, constraint: string)
      returns (lock: Lock.LockManager, r: Result<(string, Option<VersionRecord>), Error>)
      modifies registry
      ensures fresh(lock) && lock.oldLock == map[] && lock.newLock == map[]
      ensures Step(r, Snapshot()) == Select(Environment(), old(Snapshot()), depName, constraint)
    {
      lock := new Lock.LockManager();
      var locked := lock.Get(depName, constraint);
      assert locked == None;
      var fetched := registry.ResolveVersions(depName);
      if fetched.Err? {
        return lock, Err(fetched.error);
      }
      var manifest := fetched.value;
      var chosen := ChooseVersion(semver.pick, Keys(manifest), constraint);
      if chosen.Err? {
        return lock, Err(chosen.error);
      }
      return lock, Ok((chosen.value, Get(manifest, chosen.value)));
    }

    /**
     * The rest of `getDependency` once a version is chosen: the state and
     * the value are those the function Descend gives.
     */
    method Settle(lock: Lock.LockManager, depName: string, constraint: string, matchedDep: string,
                   matchedManifest: Option<VersionRecord>, stack: DepStack, fuel: nat)
      returns (r: Result<Option<Resolved>, Error>)
      modifies this, registry, stack, lock
      ensures Step(r, Snapshot()) == Descend(Environment(), old(Snapshot()), depName, constraint,
        matchedDep, matchedManifest, old(stack.frames), fuel)
      ensures r.Ok? ==> stack.frames == old(stack.frames)
      ensures r.Err? ==> (stack.frames == old(stack.frames) ||
        (|stack.frames| == |old(stack.frames)| + 1 && stack.frames[..|old(stack.frames)|] == old(stack.frames)))
      ensures lock.oldLock == old(lock.oldLock)
      ensures Place(semver.satisfies, old(flattenedPkgs), depName, matchedDep, matchedManifest, old(stack.frames)).Err? ==>
        lock.newLock == old(lock.newLock)
      ensures (Place(semver.satisfies, old(flattenedPkgs), depName, matchedDep, matchedManifest, old(stack.frames)).Ok? &&
        old(lock.newLock) == map[]) ==>
        lock.newLock == map[Lock.LockKey(depName, constraint) :=
          LockRecord(depName, matchedDep, matchedManifest.value, DependenciesOf(matchedManifest.value))]
      decreases fuel + 1, 0
    {
      var placed := Record(depName, matchedDep, matchedManifest, stack);
      if placed.Err? {
        return Err(placed.error);
      }
      var record := matchedManifest.value;
      var dependencies := DependenciesOf(record);
      WriteLock(lock, depName, constraint, matchedDep, record);

      // `dependencies` is always an object here, so list.ts:89 always pushes.
      ghost var entryFrames := stack.frames;
      stack.Push(Frame(depName, matchedDep, Get(dependencies, "dependencies")));
      var children := Unvisited(semver.satisfies, dependencies, stack.frames);
      var visited := VisitChildren(children, stack, fuel);
      if visited.Err? {
        return Err(visited.error);
      }
      assert (entryFrames + [Frame(depName, matchedDep, Get(dependencies, "dependencies"))])[..|entryFrames|] == entryFrames;
      stack.Pop();

      if constraint == "" {
        return Ok(Some(Resolved(depName, matchedDep, dependencies)));
      }
      return Ok(None);
    }

    /**
     * The lock write of list.ts:75-87: the record goes under
     * "name@constraint" into the manager this call created, which is then
     * dropped.
     */
    static method WriteLock(lock: Lock.LockManager, depName: string, constraint: string, version: string,
                            record: VersionRecord)
      modifies lock
      ensures lock.oldLock == old(lock.oldLock)
      ensures old(lock.newLock) == map[] ==>
        lock.newLock == map[Lock.LockKey(depName, constraint) := LockRecord(depName, version, record, DependenciesOf(record))]
    {
      lock.CreateOrUpdate(Lock.LockKey(depName, constraint), LockRecord(depName, version, record, DependenciesOf(record)));
    }

    /**
     * The placement step of `getDependency` (list.ts:41-71): records the
     * decision Place makes, and changes nothing when it throws.
     */
    method Record(depName: string, matchedDep: string, matchedManifest: Option<VersionRecord>, stack: DepStack)
      returns (r: Result<Placement, Error>)
      modifies this
      ensures r == Place(semver.satisfies, old(flattenedPkgs), depName, matchedDep, matchedManifest, stack.frames)
      ensures r.Ok? ==> Snapshot() == Apply(old(Snapshot()), depName, r.value)
      ensures r.Err? ==> Snapshot() == old(Snapshot())
    {
      if depName !in flattenedPkgs {
        if matchedManifest.None? {
          return Err(TypeError);
        }
        var entry := Flat(matchedManifest.value.dist.tarball, matchedDep);
        flattenedPkgs := flattenedPkgs[depName := entry];
        return Ok(Hoist(entry));
      } else if semver.satisfies(flattenedPkgs[depName].version, matchedDep) {
        var conflictIndex := CheckStackDependencies(semver.satisfies, depName, matchedDep, stack.frames);
        if conflictIndex != -1 {
          return Err(PlainError(ConflictMessage));
        }
        if matchedManifest.None? {
          return Err(TypeError);
        }
        var nested := Nested(depName, ConflictParent(stack.frames, conflictIndex), matchedManifest.value.dist.tarball);
        unsatisfiedDeps := unsatisfiedDeps + [nested];
        return Ok(Nest(nested));
      } else {
        if stack.frames == [] || matchedManifest.None? {
          return Err(TypeError);
        }
        var nested := Nested(depName, stack.frames[|stack.frames| - 1].depName, matchedManifest.value.dist.tarball);
        unsatisfiedDeps := unsatisfiedDeps + [nested];
        return Ok(Nest(nested));
      }
    }

    /**
     * The loop of list.ts:96-103: each child is resolved on its own copy
     * of the stack, so the stack itself is left as it is.
     */
    method VisitChildren(children: Dependencies, stack: DepStack, fuel: nat) returns (r: Result<(), Error>)
      modifies this, registry
      ensures Step(r, Snapshot()) == WalkChildren(Environment(), old(Snapshot()), children, stack.frames, fuel)
      decreases fuel, 2
    {
      ghost var st0 := Snapshot();
      var i := 0;
      while i < |children|
        invariant 0 <= i <= |children|
        invariant WalkChildren(Environment(), st0, children, stack.frames, fuel)
          == WalkChildren(Environment(), Snapshot(), children[i..], stack.frames, fuel)
      {
        var copy := stack.Slice();
        var child := GetDependency(children[i].0, children[i].1, copy, fuel);
        if child.Err? {
          return Err(child.error);
        }
        assert children[i..][1..] == children[i + 1..];
        i := i + 1;
      }
      return Ok(());
    }

    /**
     * `processDependencies(dependencies)`: nothing for a missing object;
     * otherwise every entry is resolved from an empty stack and, if all
     * succeed, the object is rewritten in place with the returned values.
     */
    method ProcessDependencies(dependencies: DepMap?, fuel: nat) returns (r: Outcome<Error>)
      modifies this, registry, dependencies
      ensures dependencies == null ==> r == Pass && Snapshot() == old(Snapshot())
      ensures dependencies != null ==>
        var run := WalkRoots(Environment(), old(Snapshot()), old(dependencies.entries), fuel);
        && Snapshot() == run.state
        && (run.result.Err? ==> r == Fail(run.result.error) && dependencies.entries == old(dependencies.entries))
        && (run.result.Ok? ==> r == Pass && dependencies.entries == Rewrite(old(dependencies.entries), run.result.value))
    {
      if dependencies == null {
        return Pass;
      }
      var entries := dependencies.entries;
      var processed := ResolveRoots(entries, fuel);
      if processed.Err? {
        return Fail(processed.error);
      }
      WriteBack(dependencies, processed.value);
      return Pass;
    }

    /**
     * The `forEach` of list.ts:149-151: each returned value is written
     * back into the dependency object, in order.
     */
    static method WriteBack(dependencies: DepMap, results: seq<Option<Resolved>>)
      modifies dependencies
      ensures dependencies.entries == Rewrite(old(dependencies.entries), results)
    {
      ghost var entries := dependencies.entries;
      var k := 0;
      while k < |results|
        invariant 0 <= k <= |results|
        invariant dependencies.entries == Rewrite(entries, results[..k])
      {
        assert results[..k + 1][..k] == results[..k];
        if results[k].Some? {
          dependencies.entries := Set(dependencies.entries, results[k].value.depName, results[k].value.version);
        }
        k := k + 1;
      }
      assert results[..k] == results;
    }

    /** The root calls of list.ts:144-148, each on a new empty stack. */
    method ResolveRoots(entries: seq<(string, string)>, fuel: nat) returns (r: Result<seq<Option<Resolved>>, Error>)
      modifies this, registry
      ensures Step(r, Snapshot()) == WalkRoots(Environment(), old(Snapshot()), entries, fuel)
    {
      ghost var st0 := Snapshot();
      var processed: seq<Option<Resolved>> := [];
      var i := 0;
      assert entries[i..] == entries;
      PrefixedEmpty(WalkRoots(Environment(), st0, entries, fuel));
      while i < |entries|
        invariant 0 <= i <= |entries|
        invariant WalkRoots(Environment(), st0, entries, fuel)
          == Prefixed(processed, WalkRoots(Environment(), Snapshot(), entries[i..], fuel))
      {
        var stack := new DepStack([]);
        var dep := GetDependency(entries[i].0, entries[i].1, stack, fuel);
        if dep.Err? {
          return Err(dep.error);
        }
        assert entries[i..][1..] == entries[i + 1..];
        PrefixedAppend(processed, dep.value, WalkRoots(Environment(), Snapshot(), entries[i + 1..], fuel));
        processed := processed + [dep.value];
        i := i + 1;
      }
      assert entries[i..] == [] && processed + [] == processed;
      return Ok(processed);
    }

    /**
     * `list(rootManifest)`: the runtime dependencies, then the development
     * ones, each object rewritten in place; on success, the accumulated
     * results. A phase that throws leaves its object, and the later one,
     * as they were.
     */
    method List(rootManifest: PackageJson, fuel: nat) returns (r: Result<(map<string, Flat>, seq<Nested>), Error>)
      modifies this, registry, rootManifest.dependencies, rootManifest.devDependencies
      ensures r.Ok? ==> r.value == (flattenedPkgs, unsatisfiedDeps)
      ensures rootManifest.dependencies == null || rootManifest.dependencies != rootManifest.devDependencies ==>
        var run := ListRun(Environment(), old(Snapshot()), old(EntriesOf(rootManifest.dependencies)),
          old(EntriesOf(rootManifest.devDependencies)), fuel);
        && Snapshot() == run.state
        && (r.Ok? <==> run.result.Ok?)
        && (r.Err? ==> r.error == run.result.error)
        && (r.Ok? ==> (EntriesOf(rootManifest.dependencies) == run.result.value.0 &&
                       EntriesOf(rootManifest.devDependencies) == run.result.value.1))
      ensures rootManifest.dependencies == null || rootManifest.dependencies != rootManifest.devDependencies ==>
        var first := Phase(Environment(), old(Snapshot()), old(EntriesOf(rootManifest.dependencies)), fuel);
        && (first.result.Err? ==> EntriesOf(rootManifest.dependencies) == old(EntriesOf(rootManifest.dependencies)))
        && (first.result.Ok? ==> EntriesOf(rootManifest.dependencies) == first.result.value)
        && (r.Err? ==> EntriesOf(rootManifest.devDependencies) == old(EntriesOf(rootManifest.devDependencies)))
    {
      var first := ProcessDependencies(rootManifest.dependencies, fuel);
      if first.Fail? {
        return Err(first.error);
      }
      var second := ProcessDependencies(rootManifest.devDependencies, fuel);
      if second.Fail? {
        return Err(second.error);
      }
      return Ok((flattenedPkgs, unsatisfiedDeps));
    }
  }
}
