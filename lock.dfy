/**
 * The lock store of src/lock.ts: two generations of lock records, the one
 * read from disk (`oldLock`, keyed by "name@constraint") and the one built
 * during this run (`newLock`). Reading and writing the YAML file are not
 * part of this model.
 */
module Lock {
  import opened Wrappers
  import opened Json

  /** A lock record: an open dictionary from field name to value. */
  type Fields = map<string, Value>

  /** The fields `get` copies out of a stored record (src/lock.ts:28-46). */
  const ProjectedFields: seq<string> := [
    "name", "_id", "_npmVersion", "dependencies", "dist", "engine",
    "directories", "keywords", "_nodeSupported", "_nodeVersion", "author",
    "contributors", "main", "description", "repository", "version",
    "scripts", "deprecated", "devDependencies"]

  /** The key under which the old lock remembers a resolution. */
  function LockKey(pkgName: string, constraint: string): string
  {
    pkgName + "@" + constraint
  }

  /** `record.f`: a missing field reads as `undefined`. */
  function Field(record: Fields, f: string): Value
  {
    if f in record then record[f] else Undefined
  }

  /**
   * `Object.assign(target, source)`: every field of `source` is copied
   * over, including those whose value is `undefined`; the rest of `target`
   * stays.
   */
  function Assign(target: Fields, source: Fields): (r: Fields)
    ensures r.Keys == target.Keys + source.Keys
    ensures forall f :: f in source ==> r[f] == source[f]
    ensures forall f :: f in target && f !in source ==> r[f] == target[f]
  {
    target + source
  }

  /** The object literal of src/lock.ts:27-47 built from a stored record. */
  function Projection(pkg: Fields): (r: Fields)
    ensures forall f :: f in r <==> f in ProjectedFields
    ensures forall f :: f in r ==> r[f] == Field(pkg, f)
  {
    map f | f in ProjectedFields :: Field(pkg, f)
  }

  class LockManager {
    var oldLock: map<string, Fields>
    var newLock: map<string, Fields>

    /** Both generations start empty (src/lock.ts:11-14). */
    constructor ()
      ensures oldLock == map[] && newLock == map[]
    {
      oldLock := map[];
      newLock := map[];
    }

    /**
     * Merges `pkgInfo` into the new-generation entry for `pkgName`,
     * creating an empty entry first when there is none: last write wins,
     * field by field (src/lock.ts:15-20).
     */
    method CreateOrUpdate(pkgName: string, pkgInfo: Fields)
      modifies this
      ensures pkgName in newLock
      ensures old(pkgName !in newLock) ==> newLock[pkgName] == pkgInfo
      ensures old(pkgName in newLock) ==> newLock[pkgName] == Assign(old(newLock[pkgName]), pkgInfo)
      ensures forall n :: n != pkgName ==> (n in newLock <==> n in old(newLock))
      ensures forall n :: n != pkgName && n in newLock ==> newLock[n] == old(newLock[n])
      ensures oldLock == old(oldLock)
      ensures forall n, c :: Get(n, c) == old(Get(n, c))
    {
      if pkgName !in newLock {
        newLock := newLock[pkgName := map[]];
      }
      newLock := newLock[pkgName := Assign(newLock[pkgName], pkgInfo)];
    }

    /**
     * Looks up "name@constraint" in the OLD generation only. A miss is
     * `null` (None); a hit is a one-entry version map from the stored
     * record's `version`, turned into a key, to the projection of its
     * listed fields (src/lock.ts:21-49).
     */
    function Get(pkgName: string, constraint: string): (r: Option<map<string, Fields>>)
      reads this
      ensures r.None? <==> LockKey(pkgName, constraint) !in oldLock
      ensures r.Some? ==>
        var pkg := oldLock[LockKey(pkgName, constraint)];
        var key := ToPropertyKey(Field(pkg, "version"));
        && r.value.Keys == {key}
        && (forall f :: f in r.value[key] <==> f in ProjectedFields)
        && (forall f :: f in ProjectedFields ==> r.value[key][f] == Field(pkg, f))
    {
      var key := LockKey(pkgName, constraint);
      if key !in oldLock then None
      else
        var pkg := oldLock[key];
        Some(map[ToPropertyKey(Field(pkg, "version")) := Projection(pkg)])
    }
  }
}
