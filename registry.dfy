/**
 * The shapes of registry data (types/registry.ts). These carry no
 * behaviour; they fix which fields of a published version are always
 * there (name, _id, _npmVersion, dist) and which may be missing.
 */
module Registry {
  import opened Wrappers

  /** A `{ [name]: range }` object, as its ordered entries. */
  type Dependencies = seq<(string, string)>

  datatype Signature = Signature(keyid: Option<string>, sig: Option<string>)

  /** Distribution info: where the tarball is and how to check it. */
  datatype Dist = Dist(
    shasum: string,
    tarball: string,
    integrity: Option<string>,
    signatures: Option<seq<Signature>>)

  datatype Author = Author(name: Option<string>, email: Option<string>)

  datatype Engines = Engines(node: Option<string>)

  datatype Directories = Directories(lib: Option<string>)

  /** `{ type?, url? }`; `type` is a Dafny keyword, hence `kind`. */
  datatype Repository = Repository(kind: Option<string>, url: Option<string>)

  /**
   * One published version of one package (the value type of `Version`).
   * `id`, `npmVersion`, `nodeSupported` and `nodeVersion` are the source's
   * `_id`, `_npmVersion`, `_nodeSupported` and `_nodeVersion`.
   */
  datatype VersionRecord = VersionRecord(
    name: string,
    description: Option<string>,
    main: Option<string>,
    dependencies: Option<Dependencies>,
    devDependencies: Option<Dependencies>,
    scripts: Option<seq<(string, string)>>,
    repository: Option<Repository>,
    version: Option<string>,
    author: Option<Author>,
    contributors: Option<seq<Author>>,
    keywords: Option<seq<string>>,
    directories: Option<Directories>,
    engine: Option<Engines>,
    id: string,
    nodeSupported: Option<bool>,
    npmVersion: string,
    nodeVersion: Option<string>,
    dist: Dist,
    deprecated: Option<string>)

  /** All published versions of one package, in the registry's key order. */
  type VersionMap = seq<(string, VersionRecord)>
}
