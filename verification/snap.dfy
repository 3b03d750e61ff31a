/** Paths and snapshot nodes: the persistent tree values the processor reconciles. */
module Snap {
  import opened Common

  /** A path is its sequence of segments; the empty path is the root. */
  type Path = seq<string>

  /** The pseudo-child under which a node's priority is addressed. */
  const PRIORITY_KEY: string := ".priority"

  function Front(p: Path): string requires p != [] { p[0] }
  function PopFront(p: Path): Path requires p != [] { p[1..] }
  function Back(p: Path): string requires p != [] { p[|p| - 1] }
  function Parent(p: Path): Path requires p != [] { p[..|p| - 1] }

  datatype Scalar = Str(s: string) | Num(n: int) | Bool(b: bool)

  /** A snapshot: a leaf or a key-sorted list of children, each with an
      optional priority. The empty node is a childless branch. */
  datatype Node =
    | Leaf(value: Scalar, priority: Option<Scalar>)
    | Branch(children: seq<(string, Node)>, priority: Option<Scalar>)

  const EMPTY: Node := Branch([], None)

  predicate IsEmpty(n: Node) { n.Branch? && n.children == [] }

  predicate IsLeafNode(n: Node) { n.Leaf? }

  /** The empty node is the only empty value (priority is dropped with the
      last child). */
  predicate Normal(n: Node) { IsEmpty(n) ==> n == EMPTY }

  /** The priority as a node: a priority-less leaf, or the empty node. */
  function PriorityNode(n: Node): (r: Node)
    ensures Normal(r)
  {
    match n.priority
    case None => EMPTY
    case Some(s) => Leaf(s, None)
  }

  function AsPriority(pn: Node): Option<Scalar>
  {
    if pn.Leaf? then Some(pn.value) else None
  }

  function ImmediateChild(n: Node, k: string): Node
  {
    if k == PRIORITY_KEY then PriorityNode(n)
    else match n
      case Leaf(_, _) => EMPTY
      case Branch(ch, _) =>
        match Lookup(ch, k)
        case Some(c) => c
        case None => EMPTY
  }

  predicate HasChild(n: Node, k: string) { !IsEmpty(ImmediateChild(n, k)) }

  function GetChild(n: Node, p: Path): Node
    decreases p
  {
    if p == [] then n else GetChild(ImmediateChild(n, p[0]), p[1..])
  }

  function UpdatePriority(n: Node, pn: Node): (r: Node)
    ensures Normal(r)
  {
    match n
    case Leaf(v, _) => Leaf(v, AsPriority(pn))
    case Branch(ch, _) => if ch == [] then EMPTY else Branch(ch, AsPriority(pn))
  }

  /** Replaces (or, with an empty child, removes) one immediate child. */
  function UpdateImmediateChild(n: Node, k: string, c: Node): (r: Node)
    ensures Normal(r)
    ensures k != PRIORITY_KEY && Normal(c) ==> ImmediateChild(r, k) == c
  {
    if k == PRIORITY_KEY then UpdatePriority(n, c)
    else match n
      case Leaf(_, pr) => if IsEmpty(c) then n else Branch(Put([], k, c), pr)
      case Branch(ch, pr) =>
        var ch' := if IsEmpty(c) then Remove(ch, k) else Put(ch, k, c);
        if ch' == [] then EMPTY else Branch(ch', pr)
  }

  /** Replaces the node at `p` inside `n` by `c`, producing a new node. */
  function UpdateChild(n: Node, p: Path, c: Node): Node
    decreases p
  {
    if p == [] then c
    else UpdateImmediateChild(n, p[0], UpdateChild(ImmediateChild(n, p[0]), p[1..], c))
  }

  /** Reading back the path just written yields the written node. */
  lemma {:induction false} GetAfterUpdate(n: Node, p: Path, c: Node)
    requires PRIORITY_KEY !in p
    requires Normal(c)
    ensures GetChild(UpdateChild(n, p, c), p) == c
    decreases p
  {
    if p != [] {
      var inner := UpdateChild(ImmediateChild(n, p[0]), p[1..], c);
      GetAfterUpdate(ImmediateChild(n, p[0]), p[1..], c);
      if p[1..] != [] {
        assert Normal(inner);
      }
      assert ImmediateChild(UpdateChild(n, p, c), p[0]) == inner;
    }
  }

  /** The children of a node in key order; a leaf has none. */
  function ChildrenOf(n: Node): seq<(string, Node)>
  {
    if n.Branch? then n.children else []
  }
}
