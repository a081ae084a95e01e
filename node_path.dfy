/**
 * Node's `path` module, kept uninterpreted: `join` stands for
 * `path.join(...parts)` with its normalisation, `isAbsolute` for
 * `path.isAbsolute`.
 */
module NodePath {

  datatype PathApi = PathApi(join: seq<string> -> string, isAbsolute: string -> bool)

  /** `path.join(dir, name)`, the two-argument join the traversals use. */
  function JoinTwo(api: PathApi, dir: string, name: string): string
  {
    api.join([dir, name])
  }
}
