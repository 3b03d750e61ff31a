/** The processor's step-by-step procedures: the merge handlers fold over the
    merge tree in loops, changes go into a shared accumulator in place, and
    each procedure is proved to compute what the functional model says. */
module ProcessorMethods {
  import opened Common
  import opened Snap
  import opened Trees
  import opened Views
  import opened Processor

  /** Folding over `a + b` folds `a`, then `b` from where `a` left the cache;
      the changes are concatenated. */
  lemma {:induction false} FoldStepsAppend<E>(vc: ViewCache, a: seq<E>, b: seq<E>, f: (ViewCache, E) -> Step)
    ensures FoldSteps(vc, a + b, f) == var s := FoldSteps(vc, a, f); Then(s, FoldSteps(s.cache, b, f))
    decreases |b|
  {
    if b == [] {
      assert a + b == a;
    } else {
      var b' := b[..|b| - 1];
      assert (a + b)[..|a + b| - 1] == a + b';
      assert (a + b)[|a + b| - 1] == b[|b| - 1];
      FoldStepsAppend(vc, a, b', f);
      var s := FoldSteps(vc, a, f);
      var s2 := FoldSteps(s.cache, b', f);
      AppendAssoc(s.changes, s2.changes, f(s2.cache, b[|b| - 1]).changes);
    }
  }

  /** The same for folds that may fail, where a failure aborts. */
  lemma {:induction false} FoldResultsAppend<E>(vc: ViewCache, a: seq<E>, b: seq<E>, f: (ViewCache, E) -> Result<Step>)
    ensures FoldResults(vc, a + b, f) ==
            match FoldResults(vc, a, f)
            case Failure(e) => Failure(e)
            case Ok(s) =>
              match FoldResults(s.cache, b, f)
              case Failure(e) => Failure(e)
              case Ok(s2) => Ok(Then(s, s2))
    decreases |b|
  {
    if b == [] {
      assert a + b == a;
      if FoldResults(vc, a, f).Ok? {
        var s := FoldResults(vc, a, f).value;
        assert s.changes + [] == s.changes;
      }
    } else {
      var b' := b[..|b| - 1];
      assert (a + b)[..|a + b| - 1] == a + b';
      assert (a + b)[|a + b| - 1] == b[|b| - 1];
      FoldResultsAppend(vc, a, b', f);
      match FoldResults(vc, a, f)
      case Failure(_) =>
      case Ok(s) =>
        match FoldResults(s.cache, b', f)
        case Failure(_) =>
        case Ok(s2) =>
          match f(s2.cache, b[|b| - 1])
          case Failure(_) =>
          case Ok(s3) => AppendAssoc(s.changes, s2.changes, s3.changes);
    }
  }

  /** Selecting over one more entry adds that entry when it qualifies. */
  lemma EntriesInViewSnoc(vc: ViewCache, path: Path, es: seq<(Path, Node)>, i: nat, want: bool)
    requires i < |es|
    ensures EntriesInView(vc, path, es[..i + 1], want) ==
            EntriesInView(vc, path, es[..i], want) + (if InView(vc, path + es[i].0) == want then [es[i]] else [])
  {
    assert es[..i + 1][..i] == es[..i];
  }

  /** Folding one more input applies the handler to the result so far. */
  lemma FoldStepsSnoc<E>(vc: ViewCache, done: seq<E>, e: E, f: (ViewCache, E) -> Step)
    ensures FoldSteps(vc, done + [e], f) == var s := FoldSteps(vc, done, f); Then(s, f(s.cache, e))
  {
    assert (done + [e])[..|done|] == done;
  }

  /** The same for folds that may fail, when the new input succeeds. */
  lemma FoldResultsSnoc<E>(vc: ViewCache, done: seq<E>, e: E, f: (ViewCache, E) -> Result<Step>)
    requires FoldResults(vc, done, f).Ok?
    requires f(FoldResults(vc, done, f).value.cache, e).Ok?
    ensures FoldResults(vc, done + [e], f) ==
            var s := FoldResults(vc, done, f).value; Ok(Then(s, f(s.cache, e).value))
  {
    assert (done + [e])[..|done|] == done;
  }

  /** A pass over one more child adds that child when the pass selects it. */
  lemma ServerMergePassSnoc(vc: ViewCache, cs: seq<(string, ImmutableTree<Node>)>, i: nat, existing: bool)
    requires i < |cs|
    ensures ServerMergePass(vc, cs[..i + 1], existing) ==
            ServerMergePass(vc, cs[..i], existing) +
            (if (if existing then HasChild(vc.server.node, cs[i].0)
                 else !HasChild(vc.server.node, cs[i].0) && !IsUnknownDeepMerge(vc, cs[i].0, cs[i].1))
             then [cs[i]] else [])
  {
    assert cs[..i + 1][..i] == cs[..i];
  }

  /** Each step of a server merge overwrites a one-key path and succeeds. */
  lemma ServerStepSucceeds(vp: ViewProcessor, vc0: ViewCache, c: ViewCache, item: (string, ImmutableTree<Node>),
                           writes: WriteTreeRef, cc: Option<Node>, fsn: bool)
    ensures ServerStep(vp, vc0, writes, cc, fsn)(c, item).Ok?
  {
  }

  /** applyMerge_: updates the node once per merge entry, in `foreach` order. */
  method ApplyMerge(node: Node, merge: ImmutableTree<Node>) returns (r: Node)
    ensures r == MergedNode(node, merge)
  {
    var es := Entries(merge);
    r := node;
    var i := 0;
    while i < |es|
      invariant 0 <= i <= |es|
      invariant r == MergeEntries(node, es[..i])
    {
      assert es[..i + 1][..i] == es[..i];
      r := UpdateChild(r, es[i].0, es[i].1);
      i := i + 1;
    }
    assert es[..|es|] == es;
  }

  /** One more merge entry extends a user-merge pass by one user overwrite
      when the pass selects it. */
  lemma UserPassStep(vp: ViewProcessor, viewCache: ViewCache, path: Path, es: seq<(Path, Node)>, i: nat, want: bool,
                     writes: WriteTreeRef, serverCache: Option<Node>, start: ViewCache)
    requires i < |es|
    ensures var f := UserStep(vp, path, writes, serverCache);
      var s := FoldSteps(start, EntriesInView(viewCache, path, es[..i], want), f);
      FoldSteps(start, EntriesInView(viewCache, path, es[..i + 1], want), f) ==
        if InView(viewCache, path + es[i].0) == want
        then Then(s, UserOverwrite(vp, s.cache, path + es[i].0, es[i].1, writes, serverCache))
        else s
  {
    var f := UserStep(vp, path, writes, serverCache);
    var done := EntriesInView(viewCache, path, es[..i], want);
    EntriesInViewSnoc(viewCache, path, es, i, want);
    if InView(viewCache, path + es[i].0) == want {
      assert EntriesInView(viewCache, path, es[..i + 1], want) == done + [es[i]];
      FoldStepsSnoc(start, done, es[i], f);
      var s := FoldSteps(start, done, f);
      assert f(s.cache, es[i]) == UserOverwrite(vp, s.cache, path + es[i].0, es[i].1, writes, serverCache);
    } else {
      assert EntriesInView(viewCache, path, es[..i + 1], want) == done;
    }
  }

  /** One `foreach` pass of applyUserMerge_: starting from `start`, applies as
      a user overwrite every entry whose child is (`want`) or is not in view in
      the original cache `viewCache`. */
  method UserMergePass(vp: ViewProcessor, viewCache: ViewCache, path: Path, es: seq<(Path, Node)>, want: bool,
                       writes: WriteTreeRef, serverCache: Option<Node>, start: ViewCache,
                       acc: ChildChangeAccumulator)
    returns (cur: ViewCache)
    modifies acc
    ensures var s := FoldSteps(start, EntriesInView(viewCache, path, es, want), UserStep(vp, path, writes, serverCache));
            cur == s.cache && acc.changes == old(acc.changes) + s.changes
  {
    ghost var f := UserStep(vp, path, writes, serverCache);
    cur := start;
    ghost var emitted: seq<ChildChange> := [];
    var i := 0;
    while i < |es|
      invariant 0 <= i <= |es|
      invariant acc.changes == old(acc.changes) + emitted
      invariant FoldSteps(start, EntriesInView(viewCache, path, es[..i], want), f) == Step(cur, emitted)
    {
      UserPassStep(vp, viewCache, path, es, i, want, writes, serverCache, start);
      var writePath := path + es[i].0;
      if InView(viewCache, writePath) == want {
        var s := UserOverwrite(vp, cur, writePath, es[i].1, writes, serverCache);
        AppendAssoc(old(acc.changes), emitted, s.changes);
        acc.TrackChildChanges(s.changes);
        cur := s.cache;
        emitted := emitted + s.changes;
      }
      i := i + 1;
    }
    assert es[..|es|] == es;
  }

  /** applyUserMerge_: two passes over the merge entries, first those whose
      child is in view in the original cache, then the rest. */
  method ApplyUserMerge(vp: ViewProcessor, viewCache: ViewCache, path: Path, changedChildren: ImmutableTree<Node>,
                        writes: WriteTreeRef, serverCache: Option<Node>, acc: ChildChangeAccumulator)
    returns (r: ViewCache)
    modifies acc
    ensures r == UserMerge(vp, viewCache, path, changedChildren, writes, serverCache).cache
    ensures acc.changes == old(acc.changes) + UserMerge(vp, viewCache, path, changedChildren, writes, serverCache).changes
  {
    var es := Entries(changedChildren);
    ghost var f := UserStep(vp, path, writes, serverCache);
    ghost var inView := EntriesInView(viewCache, path, es, true);
    ghost var rest := EntriesInView(viewCache, path, es, false);
    ghost var s1 := FoldSteps(viewCache, inView, f);
    var mid := UserMergePass(vp, viewCache, path, es, true, writes, serverCache, viewCache, acc);
    ghost var s2 := FoldSteps(mid, rest, f);
    r := UserMergePass(vp, viewCache, path, es, false, writes, serverCache, mid, acc);
    FoldStepsAppend(viewCache, inView, rest, f);
    AppendAssoc(old(acc.changes), s1.changes, s2.changes);
  }

  /** One more merge child extends a server-merge pass by one server
      overwrite, which succeeds, when the pass selects it. */
  lemma ServerPassStep(vp: ViewProcessor, viewCache: ViewCache, cs: seq<(string, ImmutableTree<Node>)>, i: nat,
                       existing: bool, writes: WriteTreeRef, serverCache: Option<Node>, filterServerNode: bool,
                       start: ViewCache)
    requires i < |cs|
    requires FoldResults(start, ServerMergePass(viewCache, cs[..i], existing),
                         ServerStep(vp, viewCache, writes, serverCache, filterServerNode)).Ok?
    ensures var f := ServerStep(vp, viewCache, writes, serverCache, filterServerNode);
      var s := FoldResults(start, ServerMergePass(viewCache, cs[..i], existing), f).value;
      var res := ServerOverwrite(vp, s.cache, [cs[i].0], MergedNode(ImmediateChild(viewCache.server.node, cs[i].0), cs[i].1),
                                 writes, serverCache, filterServerNode);
      var take := if existing then HasChild(viewCache.server.node, cs[i].0)
                  else !HasChild(viewCache.server.node, cs[i].0) && !IsUnknownDeepMerge(viewCache, cs[i].0, cs[i].1);
      res.Ok? &&
      FoldResults(start, ServerMergePass(viewCache, cs[..i + 1], existing), f) ==
        if take then Ok(Then(s, res.value)) else Ok(s)
  {
    var f := ServerStep(vp, viewCache, writes, serverCache, filterServerNode);
    var done := ServerMergePass(viewCache, cs[..i], existing);
    var s := FoldResults(start, done, f).value;
    ServerMergePassSnoc(viewCache, cs, i, existing);
    ServerStepSucceeds(vp, viewCache, s.cache, cs[i], writes, serverCache, filterServerNode);
    assert f(s.cache, cs[i]) ==
      ServerOverwrite(vp, s.cache, [cs[i].0], MergedNode(ImmediateChild(viewCache.server.node, cs[i].0), cs[i].1),
                      writes, serverCache, filterServerNode);
    if ServerMergePass(viewCache, cs[..i + 1], existing) != done {
      FoldResultsSnoc(start, done, cs[i], f);
    }
  }

  /** One pass of applyServerMerge_ over the merge tree's children: starting
      from `start`, applies as a server overwrite each child the pass selects
      (`existing`: keys the original server node has; otherwise new keys that
      are not unknown deep merges). */
  method ServerMergePassLoop(vp: ViewProcessor, viewCache: ViewCache, cs: seq<(string, ImmutableTree<Node>)>,
                             existing: bool, writes: WriteTreeRef, serverCache: Option<Node>, filterServerNode: bool,
                             start: ViewCache, acc: ChildChangeAccumulator)
    returns (cur: ViewCache)
    modifies acc
    ensures var R := FoldResults(start, ServerMergePass(viewCache, cs, existing),
                                 ServerStep(vp, viewCache, writes, serverCache, filterServerNode));
            R.Ok? && cur == R.value.cache && acc.changes == old(acc.changes) + R.value.changes
  {
    ghost var f := ServerStep(vp, viewCache, writes, serverCache, filterServerNode);
    var serverNode := viewCache.server.node;
    cur := start;
    ghost var emitted: seq<ChildChange> := [];
    assert cs[..0] == [];
    var i := 0;
    while i < |cs|
      invariant 0 <= i <= |cs|
      invariant acc.changes == old(acc.changes) + emitted
      invariant FoldResults(start, ServerMergePass(viewCache, cs[..i], existing), f) == Ok(Step(cur, emitted))
    {
      ServerPassStep(vp, viewCache, cs, i, existing, writes, serverCache, filterServerNode, start);
      var childKey := cs[i].0;
      var take := if existing then HasChild(serverNode, childKey)
                  else !HasChild(serverNode, childKey) && !IsUnknownDeepMerge(viewCache, childKey, cs[i].1);
      if take {
        var serverChild := ImmediateChild(serverNode, childKey);
        var newChild := ApplyMerge(serverChild, cs[i].1);
        var res := ServerOverwrite(vp, cur, [childKey], newChild, writes, serverCache, filterServerNode);
        AppendAssoc(old(acc.changes), emitted, res.value.changes);
        acc.TrackChildChanges(res.value.changes);
        cur := res.value.cache;
        emitted := emitted + res.value.changes;
      }
      i := i + 1;
    }
    assert cs[..|cs|] == cs;
  }

  /** applyServerMerge_: two passes over the children of the merge tree,
      first keys the server node already has, then new keys that are not
      unknown deep merges. It always succeeds. */
  method ApplyServerMerge(vp: ViewProcessor, viewCache: ViewCache, path: Path, changedChildren: ImmutableTree<Node>,
                          writes: WriteTreeRef, serverCache: Option<Node>, filterServerNode: bool,
                          acc: ChildChangeAccumulator)
    returns (r: ViewCache)
    modifies acc
    ensures var R := ServerMerge(vp, viewCache, path, changedChildren, writes, serverCache, filterServerNode);
      R.Ok? && r == R.value.cache && acc.changes == old(acc.changes) + R.value.changes
  {
    if IsEmpty(viewCache.server.node) && !viewCache.server.fullyInitialized {
      assert old(acc.changes) + [] == old(acc.changes);
      return viewCache;
    }
    var cs := ViewMergeTree(path, changedChildren).children;
    ghost var f := ServerStep(vp, viewCache, writes, serverCache, filterServerNode);
    FoldResultsAppend(viewCache, ServerMergePass(viewCache, cs, true), ServerMergePass(viewCache, cs, false), f);
    var mid := ServerMergePassLoop(vp, viewCache, cs, true, writes, serverCache, filterServerNode, viewCache, acc);
    ghost var s1 := FoldResults(viewCache, ServerMergePass(viewCache, cs, true), f).value;
    r := ServerMergePassLoop(vp, viewCache, cs, false, writes, serverCache, filterServerNode, mid, acc);
    ghost var s2 := FoldResults(s1.cache, ServerMergePass(viewCache, cs, false), f).value;
    AppendAssoc(old(acc.changes), s1.changes, s2.changes);
  }

  /** The merge tree holding each child of the server node at its key, built
      one `set` at a time as ackUserWrite_ does for the root. */
  method ChildrenTree(children: seq<(string, Node)>) returns (t: ImmutableTree<Node>)
    ensures t == SetChildren(EmptyTree(), children)
  {
    t := EmptyTree();
    var i := 0;
    while i < |children|
      invariant 0 <= i <= |children|
      invariant t == SetChildren(EmptyTree(), children[..i])
    {
      assert children[..i + 1][..i] == children[..i];
      t := Set(t, [children[i].0], children[i].1);
      i := i + 1;
    }
    assert children[..|children|] == children;
  }

  /** The merge tree of acknowledged server data, built one `set` per
      affected path the server cache is complete for. */
  method AckedTree(serverCache: CacheNode, ackPath: Path, es: seq<(Path, bool)>) returns (t: ImmutableTree<Node>)
    ensures t == AckedServerData(serverCache, ackPath, EmptyTree(), es)
  {
    t := EmptyTree();
    var i := 0;
    while i < |es|
      invariant 0 <= i <= |es|
      invariant t == AckedServerData(serverCache, ackPath, EmptyTree(), es[..i])
    {
      assert es[..i + 1][..i] == es[..i];
      var serverCachePath := ackPath + es[i].0;
      if IsCompleteForPath(serverCache, serverCachePath) {
        t := Set(t, es[i].0, GetChild(serverCache.node, serverCachePath));
      }
      i := i + 1;
    }
    assert es[..|es|] == es;
  }

  /** ackUserWrite_: rebuilds the acknowledged server data and re-applies it
      as a server overwrite or merge. */
  method AckUserWrite(vp: ViewProcessor, viewCache: ViewCache, ackPath: Path, affectedTree: ImmutableTree<bool>,
                      writes: WriteTreeRef, completeCache: Option<Node>, acc: ChildChangeAccumulator)
    returns (r: Result<ViewCache>)
    modifies acc
    ensures r.Failure? <==> AckWrite(vp, viewCache, ackPath, affectedTree, writes, completeCache).Failure?
    ensures r.Failure? ==> r.message == AckWrite(vp, viewCache, ackPath, affectedTree, writes, completeCache).message
    ensures r.Ok? ==>
      var s := AckWrite(vp, viewCache, ackPath, affectedTree, writes, completeCache).value;
      r.value == s.cache && acc.changes == old(acc.changes) + s.changes
  {
    if writes.shadowingWrite(ackPath).Some? {
      return Ok(viewCache);
    }
    var filterServerNode := viewCache.server.filtered;
    var serverCache := viewCache.server;
    if affectedTree.value.Some? {
      if (ackPath == [] && serverCache.fullyInitialized) || IsCompleteForPath(serverCache, ackPath) {
        var res := ServerOverwrite(vp, viewCache, ackPath, GetChild(serverCache.node, ackPath), writes,
                                   completeCache, filterServerNode);
        if res.Failure? {
          return Failure(res.message);
        }
        acc.TrackChildChanges(res.value.changes);
        return Ok(res.value.cache);
      } else if ackPath == [] {
        var changedChildren := ChildrenTree(ChildrenOf(serverCache.node));
        var merged := ApplyServerMerge(vp, viewCache, ackPath, changedChildren, writes, completeCache, filterServerNode,
                                       acc);
        return Ok(merged);
      } else {
        return Ok(viewCache);
      }
    } else {
      var changedChildren := AckedTree(serverCache, ackPath, Entries(affectedTree));
      var merged := ApplyServerMerge(vp, viewCache, ackPath, changedChildren, writes, completeCache, filterServerNode,
                                     acc);
      return Ok(merged);
    }
  }

  /** applyOperation: runs the one handler the operation selects against a
      fresh accumulator, then appends the value change if one is due. */
  method ApplyOperation(vp: ViewProcessor, oldViewCache: ViewCache, op: Operation, writes: WriteTreeRef,
                        completeCache: Option<Node>)
    returns (r: Result<ProcessorResult>)
    ensures r == Process(vp, oldViewCache, op, writes, completeCache)
  {
    var accumulator := new ChildChangeAccumulator();
    var newViewCache: ViewCache;
    ghost var d := Dispatch(vp, oldViewCache, op, writes, completeCache);
    match op {
      case Overwrite(source, path, snap) =>
        if source.fromUser {
          var s := UserOverwrite(vp, oldViewCache, path, snap, writes, completeCache);
          accumulator.TrackChildChanges(s.changes);
          newViewCache := s.cache;
          assert [] + s.changes == s.changes;
        } else {
          if !source.fromServer {
            return Failure("Unknown source.");
          }
          var res := ServerOverwrite(vp, oldViewCache, path, snap, writes, completeCache,
                                     FilterServerOverwrite(oldViewCache, source, path));
          if res.Failure? {
            return Failure(res.message);
          }
          accumulator.TrackChildChanges(res.value.changes);
          newViewCache := res.value.cache;
          assert [] + res.value.changes == res.value.changes;
        }
      case Merge(source, path, children) =>
        if source.fromUser {
          newViewCache := ApplyUserMerge(vp, oldViewCache, path, children, writes, completeCache, accumulator);
          assert [] + d.value.changes == d.value.changes;
        } else {
          if !source.fromServer {
            return Failure("Unknown source.");
          }
          newViewCache := ApplyServerMerge(vp, oldViewCache, path, children, writes, completeCache,
                                           FilterServerMerge(oldViewCache, source), accumulator);
          assert [] + d.value.changes == d.value.changes;
        }
      case AckUserWrite(path, affectedTree, revert) =>
        if !revert {
          var res := AckUserWrite(vp, oldViewCache, path, affectedTree, writes, completeCache, accumulator);
          if res.Failure? {
            return Failure(res.message);
          }
          newViewCache := res.value;
          assert [] + d.value.changes == d.value.changes;
        } else {
          var res := RevertWrite(vp, oldViewCache, path, writes, completeCache);
          if res.Failure? {
            return Failure(res.message);
          }
          accumulator.TrackChildChanges(res.value.changes);
          newViewCache := res.value.cache;
          assert [] + res.value.changes == res.value.changes;
        }
      case ListenComplete(_, path) =>
        var res := ListenCompleted(vp, oldViewCache, path, writes);
        if res.Failure? {
          return Failure(res.message);
        }
        accumulator.TrackChildChanges(res.value.changes);
        newViewCache := res.value.cache;
        assert [] + res.value.changes == res.value.changes;
    }
    assert d == Ok(Step(newViewCache, accumulator.changes));
    var changes := accumulator.changes;
    r := Ok(ProcessorResult(newViewCache, MaybeAddValueEvent(oldViewCache, newViewCache, changes)));
  }
}
