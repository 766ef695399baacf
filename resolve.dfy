/**
 * The registry client of src/resolve.ts: a counted `retry` combinator and
 * `resolveVersions`, which memoises each package's version map in a
 * process-wide cache. The network is abstract: `network(pkgName, j)` is
 * what the j-th request attempt of the process yields when it asks for
 * `pkgName`, either a parsed response body or a failure (the timeout race
 * or a transport error).
 */
module Resolve {
  import opened Wrappers
  import opened Errors
  import opened Registry

  /** The default of the RETRIES setting (src/resolve.ts:8). */
  const DefaultRetries: nat := 3

  /** What one invocation of the retried function yields. */
  datatype Attempt<+T> = Failed(cause: Error) | Succeeded(value: T)

  /** The parsed registry answer: `{ error }` or a manifest's `versions`. */
  datatype Body = ErrorBody(error: string) | ManifestBody(versions: VersionMap)

  /** A run of `retry`: how it settled and how many times it invoked `fn`. */
  datatype RetryRun<+T> = RetryRun(result: Result<T, Error>, invocations: nat)

  /**
   * `retry(fn, retries)`, where `fn(j)` is the outcome of the invocation
   * numbered j and `next` numbers the first one made here
   * (src/resolve.ts:11-19). It returns the first success and makes no
   * further invocation; when `retries + 1` invocations have all failed it
   * throws the plain "Max retries reached!" error.
   */
  function Retry<T>(fn: nat -> Attempt<T>, next: nat, retries: nat): (r: RetryRun<T>)
    ensures 1 <= r.invocations <= retries + 1
    ensures forall j :: next <= j < next + r.invocations - 1 ==> fn(j).Failed?
    ensures r.result.Ok? ==> fn(next + r.invocations - 1) == Succeeded(r.result.value)
    ensures r.result.Err? ==>
      && r.result.error == PlainError(MaxRetriesMessage)
      && r.invocations == retries + 1
      && fn(next + retries).Failed?
    decreases retries
  {
    match fn(next)
    case Succeeded(v) => RetryRun(Ok(v), 1)
    case Failed(_) =>
      if retries == 0 then RetryRun(Err(PlainError(MaxRetriesMessage)), 1)
      else
        var rest := Retry(fn, next + 1, retries - 1);
        RetryRun(rest.result, rest.invocations + 1)
  }

  /** Retry succeeds exactly when one of its `retries + 1` permitted invocations would. */
  lemma RetrySucceedsIffSomeAttemptDoes<T>(fn: nat -> Attempt<T>, next: nat, retries: nat)
    ensures Retry(fn, next, retries).result.Ok? <==>
      exists j :: next <= j <= next + retries && fn(j).Succeeded?
  {
    var r := Retry(fn, next, retries);
    if r.result.Ok? {
      assert fn(next + r.invocations - 1).Succeeded?;
    }
  }

  /** The state of the client after a call, and the call's settlement. */
  datatype Fetch = Fetch(result: Result<VersionMap, Error>, cache: map<string, VersionMap>, sent: nat)

  /**
   * `resolveVersions(pkgName)` against a cache and an attempt counter
   * (src/resolve.ts:21-45). A cached name is answered from the cache with
   * no attempt. Otherwise the request is retried; an answer with an
   * `error` field becomes PackageNotFoundError without any further attempt
   * and without touching the cache; a manifest's versions are cached and
   * returned.
   */
  function ResolveStep(network: (string, nat) -> Attempt<Body>, retries: nat,
                       cache: map<string, VersionMap>, sent: nat, pkgName: string): (r: Fetch)
    ensures pkgName in cache ==> r == Fetch(Ok(cache[pkgName]), cache, sent)
    ensures pkgName !in cache ==>
      && sent < r.sent <= sent + retries + 1
      && (forall j :: sent <= j < r.sent - 1 ==> network(pkgName, j).Failed?)
    ensures forall k :: k in cache ==> k in r.cache && r.cache[k] == cache[k]
    ensures r.result.Ok? ==> pkgName in r.cache && r.cache[pkgName] == r.result.value
    ensures r.result.Ok? && pkgName !in cache ==>
      && network(pkgName, r.sent - 1) == Succeeded(ManifestBody(r.result.value))
      && r.cache == cache[pkgName := r.result.value]
    ensures r.result.Err? ==> r.cache == cache
    ensures r.result == Err(PackageNotFoundError(NotFoundMessage(pkgName))) <==>
      pkgName !in cache && network(pkgName, r.sent - 1).Succeeded? && network(pkgName, r.sent - 1).value.ErrorBody?
    ensures r.result == Err(PlainError(MaxRetriesMessage)) <==>
      pkgName !in cache && r.sent == sent + retries + 1 && network(pkgName, r.sent - 1).Failed?
    ensures r.result.Err? ==>
      r.result.error == PackageNotFoundError(NotFoundMessage(pkgName)) || r.result.error == PlainError(MaxRetriesMessage)
  {
    if pkgName in cache then Fetch(Ok(cache[pkgName]), cache, sent)
    else
      var run := Retry<Body>((j: nat) => network(pkgName, j), sent, retries);
      var sent' := sent + run.invocations;
      assert forall j :: sent <= j < sent' - 1 ==> network(pkgName, j).Failed? by {
        forall j | sent <= j < sent' - 1 ensures network(pkgName, j).Failed? {
          assert ((j: nat) => network(pkgName, j))(j).Failed?;
        }
      }
      match run.result
      case Err(e) => Fetch(Err(e), cache, sent')
      case Ok(ErrorBody(_)) => Fetch(Err(PackageNotFoundError(NotFoundMessage(pkgName))), cache, sent')
      case Ok(ManifestBody(versions)) => Fetch(Ok(versions), cache[pkgName := versions], sent')
  }

  /**
   * With the default budget, a package that is not cached and whose every
   * attempt fails costs exactly four attempts and ends in the plain retry
   * error.
   */
  lemma DefaultBudgetExhausted(network: (string, nat) -> Attempt<Body>,
                               cache: map<string, VersionMap>, sent: nat, pkgName: string)
    requires pkgName !in cache
    requires forall j :: sent <= j ==> network(pkgName, j).Failed?
    ensures var r := ResolveStep(network, DefaultRetries, cache, sent, pkgName);
      r.sent == sent + 4 && r.result == Err(PlainError(MaxRetriesMessage)) && r.cache == cache
  {
    var r := ResolveStep(network, DefaultRetries, cache, sent, pkgName);
    assert network(pkgName, r.sent - 1).Failed?;
  }

  /** The module state of src/resolve.ts: the cache and the network it fetches from. */
  class RegistryClient {
    var cache: map<string, VersionMap>
    /** How many request attempts the process has made so far. */
    var sent: nat
    const network: (string, nat) -> Attempt<Body>
    const retries: nat

    constructor (network: (string, nat) -> Attempt<Body>, retries: nat)
      ensures cache == map[] && sent == 0
      ensures this.network == network && this.retries == retries
    {
      cache := map[];
      sent := 0;
      this.network := network;
      this.retries := retries;
    }

    /** `resolveVersions(pkgName)`: the cache and the attempt counter move as ResolveStep says. */
    method ResolveVersions(pkgName: string) returns (r: Result<VersionMap, Error>)
      modifies this
      ensures Fetch(r, cache, sent) == ResolveStep(network, retries, old(cache), old(sent), pkgName)
    {
      if pkgName in cache {
        return Ok(cache[pkgName]);
      }
      var run := Retry<Body>((j: nat) => network(pkgName, j), sent, retries);
      sent := sent + run.invocations;
      if run.result.Err? {
        return Err(run.result.error);
      }
      match run.result.value
      case ErrorBody(_) =>
        return Err(PackageNotFoundError(NotFoundMessage(pkgName)));
      case ManifestBody(versions) =>
        cache := cache[pkgName := versions];
        return Ok(cache[pkgName]);
    }
  }
}
