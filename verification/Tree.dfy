/** The tree that the image writer reads, and the checks of its names. */
module Tree {
  import opened Bytes
  import opened Order

  datatype Metadata = Metadata(mode: nat, uid: nat, gid: nat, mtime: (nat, nat), xattrs: seq<(Blob, Blob)>)

  datatype Content =
    | Empty
    | Backed(size: nat, redirect: Blob, verity: Option<Blob>)

  /** A directory keeps its children as the ordered map of the source does: sorted by name, no name twice. */
  datatype Node =
    | Directory(meta: Metadata, children: seq<Child>)
    | Symlink(meta: Metadata, target: Blob)
    | Regular(meta: Metadata, content: Content)

  datatype Child = Child(name: Blob, node: Node)

  const U32: nat := 0x1_0000_0000
  const U64: nat := 0x1_0000_0000_0000_0000

  predicate ValidMeta(m: Metadata) {
    m.mode < U32 && m.uid < U32 && m.gid < U32 && m.mtime.0 < U64 && m.mtime.1 < U32
  }

  predicate StrictlySorted(cs: seq<Child>) {
    forall i, j :: 0 <= i < j < |cs| ==> Less(cs[i].name, cs[j].name)
  }

  /** What the types of the source guarantee of every node. */
  predicate ValidNode(n: Node) {
    ValidMeta(n.meta) &&
    match n
    case Directory(_, children) =>
      StrictlySorted(children) && forall i :: 0 <= i < |children| ==> ValidNode(children[i].node)
    case Symlink(_, _) => true
    case Regular(_, Backed(size, _, verity)) => size < U64 && (verity.Some? ==> |verity.value| == 32)
    case Regular(_, Empty) => true
  }

  const MAX_NAME: nat := 255
  const DOT: Blob := [46]
  const DOTDOT: Blob := [46, 46]
  const SLASH: byte := 47

  /** The names that `check_name` accepts. */
  predicate NameOk(name: Blob) {
    |name| <= MAX_NAME && name != [] && name != DOT && name != DOTDOT && SLASH !in name
  }

  predicate NamesOk(cs: seq<Child>) {
    forall i :: 0 <= i < |cs| ==> NameOk(cs[i].name)
  }

  /** Every directory of the tree has only names that the image can hold. */
  predicate TreeNamesOk(n: Node) {
    n.Directory? ==>
      NamesOk(n.children) && forall i :: 0 <= i < |n.children| ==> TreeNamesOk(n.children[i].node)
  }
}
