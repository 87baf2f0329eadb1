/** Syntax trees as the parser gem produces them. Method-call (`send`) nodes,
    whose children are an optional receiver, a selector symbol and the
    arguments, get their own constructor; every other node kind is a tag with
    its child nodes. Symbols are strings. */
module Ast {
  import opened Wrappers

  datatype Node =
    | Send(receiver: Option<Node>, selector: string, arguments: seq<Node>)
    | Other(kind: string, children: seq<Node>)

  /** `node.type` */
  function Type(n: Node): string
  {
    if n.Send? then "send" else n.kind
  }

  predicate IsNil(n: Node) { Type(n) == "nil" }    // n_nil?
  predicate IsSelf(n: Node) { Type(n) == "self" }  // n_self?
  predicate IsBlock(n: Node) { Type(n) == "block" } // n_block?
}
