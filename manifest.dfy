/**
 * The project manifest (package.json) as the core touches it: two
 * dependency objects that are sorted and rewritten in place, and the
 * fields nobody here touches.
 */
module Manifest {
  import opened Json

  /** A `{ [name]: range }` object of a manifest, mutated in place by the resolver. */
  class DepMap {
    var entries: seq<(string, string)>

    constructor (entries: seq<(string, string)>)
      ensures this.entries == entries
    {
      this.entries := entries;
    }
  }

  /** A manifest; a missing dependency object is `null`. */
  class PackageJson {
    var dependencies: DepMap?
    var devDependencies: DepMap?
    /** Every other top-level field, by name. */
    var otherFields: map<string, Value>

    constructor (dependencies: DepMap?, devDependencies: DepMap?, otherFields: map<string, Value>)
      ensures this.dependencies == dependencies && this.devDependencies == devDependencies
      ensures this.otherFields == otherFields
    {
      this.dependencies := dependencies;
      this.devDependencies := devDependencies;
      this.otherFields := otherFields;
    }
  }
}
