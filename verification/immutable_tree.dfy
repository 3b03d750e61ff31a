/** ImmutableTree: a persistent path-keyed tree with an optional value at every
    node and key-sorted children. */
module Trees {
  import opened Common
  import opened Snap

  datatype ImmutableTree<V> = ImmutableTree(value: Option<V>, children: seq<(string, ImmutableTree<V>)>)

  function EmptyTree<V>(): ImmutableTree<V> { ImmutableTree(None, []) }

  /** The subtree under key `k`, or the empty tree. */
  function ChildTree<V>(t: ImmutableTree<V>, k: string): ImmutableTree<V>
  {
    match Lookup(t.children, k)
    case Some(c) => c
    case None => EmptyTree()
  }

  /** Prepends `k` to the path of every entry. */
  function Prefixed<V>(k: string, es: seq<(Path, V)>): (r: seq<(Path, V)>)
    ensures |r| == |es|
    ensures forall j :: 0 <= j < |es| ==> r[j] == ([k] + es[j].0, es[j].1)
  {
    seq(|es|, j requires 0 <= j < |es| => ([k] + es[j].0, es[j].1))
  }

  /** The (relative path, value) pairs in `foreach` order: the children in key
      order, each walked recursively, then the node's own value. */
  function Entries<V>(t: ImmutableTree<V>): seq<(Path, V)>
  {
    EntriesFrom(t, 0)
  }

  function EntriesFrom<V>(t: ImmutableTree<V>, i: nat): seq<(Path, V)>
    requires i <= |t.children|
    decreases t, |t.children| - i
  {
    if i == |t.children| then
      (if t.value.Some? then [([], t.value.value)] else [])
    else
      Prefixed(t.children[i].0, EntriesFrom(t.children[i].1, 0)) + EntriesFrom(t, i + 1)
  }

  /** `set`: stores `v` at `p`, keeping everything else. */
  function Set<V>(t: ImmutableTree<V>, p: Path, v: V): ImmutableTree<V>
    decreases p
  {
    if p == [] then ImmutableTree(Some(v), t.children)
    else ImmutableTree(t.value, Put(t.children, p[0], Set(ChildTree(t, p[0]), p[1..], v)))
  }

  /** No value and no children. */
  predicate IsEmptyTree<V>(t: ImmutableTree<V>)
  {
    t.value.None? && t.children == []
  }

  /** `setTree`: replaces the subtree at `p` by `sub`; a child left empty is
      dropped rather than kept as an empty subtree. */
  function SetTree<V>(t: ImmutableTree<V>, p: Path, sub: ImmutableTree<V>): ImmutableTree<V>
    decreases p
  {
    if p == [] then sub
    else
      var child := SetTree(ChildTree(t, p[0]), p[1..], sub);
      ImmutableTree(t.value, if IsEmptyTree(child) then Remove(t.children, p[0]) else Put(t.children, p[0], child))
  }

  /** `get`: the value stored at `p`, if any. */
  function Get<V>(t: ImmutableTree<V>, p: Path): Option<V>
    decreases p
  {
    if p == [] then t.value else Get(ChildTree(t, p[0]), p[1..])
  }

  /** The empty tree stores nothing anywhere. */
  lemma {:induction false} GetEmpty<V>(p: Path)
    ensures Get(EmptyTree<V>(), p) == None
    decreases p
  {
    if p != [] {
      GetEmpty<V>(p[1..]);
    }
  }

  /** `set` stores `v` at `p` and leaves every other path as it was. */
  lemma {:induction false} GetAfterSet<V>(t: ImmutableTree<V>, p: Path, v: V, q: Path)
    ensures Get(Set(t, p, v), q) == if q == p then Some(v) else Get(t, q)
    decreases p
  {
    if p != [] && q != [] {
      if q[0] == p[0] {
        GetAfterSet(ChildTree(t, p[0]), p[1..], v, q[1..]);
        assert q == p <==> q[1..] == p[1..] by {
          if q[1..] == p[1..] {
            assert q == [q[0]] + q[1..] && p == [p[0]] + p[1..];
          }
        }
      }
    }
  }
}
