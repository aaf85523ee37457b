/** The mini DOM the response parser builds: `{name, children, text}` records. */
module Dom {
  import opened Wrappers

  /** An element as the tree builder records it; `text` is `null` until a non-blank chunk arrives. */
  datatype Node = Node(name: string, children: seq<Node>, text: Option<string>)
}
