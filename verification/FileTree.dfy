/** Directory trees on disk: a directory lists its entries in `scandir` order. */
module FileTree {
  type Path = seq<string>

  datatype Node = File(content: nat) | Dir(entries: seq<Entry>)
  datatype Entry = Entry(name: string, node: Node)

  predicate DistinctNames(entries: seq<Entry>) {
    forall i, j :: 0 <= i < j < |entries| ==> entries[i].name != entries[j].name
  }

  /** What a file system guarantees: names are non-empty and distinct within a directory. */
  predicate ValidDir(entries: seq<Entry>)
    decreases entries, 1
  {
    DistinctNames(entries)
    && forall i :: 0 <= i < |entries| ==> entries[i].name != "" && ValidNode(entries[i].node)
  }

  predicate ValidNode(node: Node)
    decreases node, 0
  {
    match node
    case File(_) => true
    case Dir(entries) => ValidDir(entries)
  }
}
