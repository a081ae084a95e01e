/**
 * The filesystem as the traversal engine sees it: a finite tree whose
 * directories list their entries in the order the operating system
 * returns them. `ReadDir` stands for `fs.readdir`.
 */
module FsTree {
  import opened Js

  type Name = string
  type Path = string

  /** The error codes `fs.readdir` reports; the engine only tells them apart when it propagates one. */
  datatype IoError = ENOENT | ENOTDIR | EACCES

  /**
   * A filesystem object: nothing at all, a plain file, a directory that
   * cannot be listed, or a listable directory with its entries in native
   * order. Being a finite datatype, the tree has no symlink cycles.
   */
  datatype Node = Missing | File | Unreadable | Dir(entries: seq<Entry>)

  datatype Entry = Entry(name: Name, node: Node)

  function Names(es: seq<Entry>): (r: seq<Name>)
    ensures |r| == |es|
    ensures forall i :: 0 <= i < |es| ==> r[i] == es[i].name
  {
    if es == [] then [] else [es[0].name] + Names(es[1..])
  }

  /** `fs.readdir`: only a listable directory yields its names. */
  function ReadDir(n: Node): (r: Result<seq<Name>, IoError>)
    ensures r.Ok? <==> n.Dir?
    ensures n.Dir? ==> r.value == Names(n.entries)
    ensures n.Missing? ==> r == Err(ENOENT)
  {
    match n
    case Missing => Err(ENOENT)
    case File => Err(ENOTDIR)
    case Unreadable => Err(EACCES)
    case Dir(es) => Ok(Names(es))
  }

  /** Number of filesystem objects in a tree: the traversals' termination measure. */
  function Size(n: Node): nat
    decreases n
  {
    match n
    case Dir(es) => 1 + EntriesSize(es)
    case _ => 1
  }

  function EntriesSize(es: seq<Entry>): nat
    decreases es
  {
    if es == [] then 0 else Size(es[0].node) + EntriesSize(es[1..])
  }
}
