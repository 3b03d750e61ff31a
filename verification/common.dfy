/** Option and Result: the null values and thrown assertion errors of the source. */
module Common {

  datatype Option<+T> = None | Some(value: T)

  /** The outcome of one reconciliation step: a value, or an internal assertion
      that failed (the source throws `assertionError` / fails an `assert`). */
  datatype Result<+T> = Ok(value: T) | Failure(message: string)

  /** Lexicographic order on keys, used to keep children sorted. */
  predicate KeyLess(a: string, b: string)
  {
    if a == [] then b != []
    else if b == [] then false
    else if a[0] != b[0] then a[0] < b[0]
    else KeyLess(a[1..], b[1..])
  }

  /** The first value stored under `k` in an association list, if any. */
  function Lookup<T>(ch: seq<(string, T)>, k: string): (r: Option<T>)
    ensures r.Some? <==> exists i :: 0 <= i < |ch| && ch[i].0 == k
  {
    if ch == [] then None
    else if ch[0].0 == k then Some(ch[0].1)
    else
      var r := Lookup(ch[1..], k);
      assert forall i :: 1 <= i < |ch| ==> ch[i] == ch[1..][i - 1];
      r
  }

  /** Replaces the entry for `k`, or inserts it before the first larger key. */
  function Put<T>(ch: seq<(string, T)>, k: string, v: T): (r: seq<(string, T)>)
    ensures r != []
    ensures Lookup(r, k) == Some(v)
    ensures forall j :: j != k ==> Lookup(r, j) == Lookup(ch, j)
  {
    if ch == [] then [(k, v)]
    else if ch[0].0 == k then [(k, v)] + ch[1..]
    else if KeyLess(k, ch[0].0) then [(k, v)] + ch
    else [ch[0]] + Put(ch[1..], k, v)
  }

  /** Drops every entry for `k`. */
  function Remove<T>(ch: seq<(string, T)>, k: string): (r: seq<(string, T)>)
    ensures Lookup(r, k) == None
    ensures forall j :: j != k ==> Lookup(r, j) == Lookup(ch, j)
    ensures |r| <= |ch|
  {
    if ch == [] then []
    else if ch[0].0 == k then Remove(ch[1..], k)
    else [ch[0]] + Remove(ch[1..], k)
  }

  /** Looking a key up after appending an entry: earlier entries win. */
  lemma {:induction false} LookupSnoc<T>(ch: seq<(string, T)>, c: (string, T), k: string)
    ensures Lookup(ch + [c], k) ==
      if Lookup(ch, k).Some? then Lookup(ch, k) else if c.0 == k then Some(c.1) else None
  {
    if ch != [] && ch[0].0 != k {
      assert (ch + [c])[1..] == ch[1..] + [c];
      LookupSnoc(ch[1..], c, k);
    }
  }

  /** Concatenation regroups freely. */
  lemma AppendAssoc<T>(a: seq<T>, b: seq<T>, c: seq<T>)
    ensures (a + b) + c == a + (b + c)
  {
  }
}
