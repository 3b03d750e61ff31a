/** What one call of the view processor guarantees, whatever the filter and
    the pending writes answer: which cache an operation may touch, when the
    input comes back unchanged, how completeness evolves, where the value
    change goes, and in which order merges apply their parts. */
module ProcessorProps {
  import opened Common
  import opened Snap
  import opened Trees
  import opened Views
  import opened Processor

  // ---------------------------------------------------------------- dispatch

  /** An overwrite or merge that claims neither source is an assertion error. */
  lemma UnknownSourceFails(vp: ViewProcessor, vc: ViewCache, op: Operation, writes: WriteTreeRef, cc: Option<Node>)
    requires (op.Overwrite? || op.Merge?) && !op.source.fromUser && !op.source.fromServer
    ensures Process(vp, vc, op, writes, cc) == Failure("Unknown source.")
  {
  }

  /** Every user overwrite in a fold leaves the server cache alone and keeps
      a complete event cache complete. */
  lemma {:induction false} UserFoldKeepsServer(vp: ViewProcessor, vc: ViewCache, path: Path, es: seq<(Path, Node)>,
                                               writes: WriteTreeRef, cc: Option<Node>)
    ensures FoldSteps(vc, es, UserStep(vp, path, writes, cc)).cache.server == vc.server
    ensures vc.event.fullyInitialized ==> FoldSteps(vc, es, UserStep(vp, path, writes, cc)).cache.event.fullyInitialized
    decreases |es|
  {
    if es != [] {
      UserFoldKeepsServer(vp, vc, path, es[..|es| - 1], writes, cc);
    }
  }

  /** A user-sourced overwrite or merge never fails, never reaches the server
      handlers (the server cache is untouched) and keeps a complete event
      cache complete. */
  lemma UserOperationKeepsServer(vp: ViewProcessor, vc: ViewCache, op: Operation, writes: WriteTreeRef,
                                 cc: Option<Node>)
    requires (op.Overwrite? || op.Merge?) && op.source.fromUser
    ensures Process(vp, vc, op, writes, cc).Ok?
    ensures Process(vp, vc, op, writes, cc).value.viewCache.server == vc.server
    ensures vc.event.fullyInitialized ==> Process(vp, vc, op, writes, cc).value.viewCache.event.fullyInitialized
  {
    if op.Merge? {
      UserFoldKeepsServer(vp, vc, op.path, UserMergeOrder(vc, op.path, op.children), writes, cc);
    }
  }

  // ------------------------------------------------------------- value event

  /** At most one value change is reported, it is the last change, and it
      carries the new event node, which is then complete. */
  lemma ValueEventIsLast(vp: ViewProcessor, vc: ViewCache, op: Operation, writes: WriteTreeRef, cc: Option<Node>)
    requires Process(vp, vc, op, writes, cc).Ok?
    ensures var res := Process(vp, vc, op, writes, cc).value;
      forall i :: 0 <= i < |res.changes| && res.changes[i].ValueEvent? ==>
        i == |res.changes| - 1 &&
        res.viewCache.event.fullyInitialized &&
        res.changes[i].snapshot == res.viewCache.event.node
  {
    var s := Dispatch(vp, vc, op, writes, cc).value;
    var res := Process(vp, vc, op, writes, cc).value;
    assert res.changes == MaybeAddValueEvent(vc, s.cache, s.changes);
  }

  /** A call that leaves the event cache as it was and accumulates no child
      change reports nothing at all. */
  lemma {:induction false} NoValueEventWhenUnchanged(oldVC: ViewCache, newVC: ViewCache)
    requires newVC.event == oldVC.event
    ensures MaybeAddValueEvent(oldVC, newVC, []) == []
  {
    assert !ValueEventDue(oldVC, newVC, 0);
  }

  // ---------------------------------------------------------- shadowed paths

  /** A server overwrite under a local write updates the server cache only:
      the event cache is unchanged and nothing is reported. */
  lemma ShadowedServerOverwriteIsSilent(vp: ViewProcessor, vc: ViewCache, op: Operation, writes: WriteTreeRef,
                                        cc: Option<Node>)
    requires op.Overwrite? && !op.source.fromUser && op.source.fromServer
    requires writes.shadowingWrite(op.path).Some?
    ensures Process(vp, vc, op, writes, cc).Ok?
    ensures Process(vp, vc, op, writes, cc).value.viewCache.event == vc.event
    ensures Process(vp, vc, op, writes, cc).value.changes == []
  {
    var s := Dispatch(vp, vc, op, writes, cc).value;
    NoValueEventWhenUnchanged(vc, s.cache);
  }

  /** An ack or a revert of a path a local write still shadows returns the
      view cache as it was and reports nothing. */
  lemma ShadowedAckIsNoOp(vp: ViewProcessor, vc: ViewCache, op: Operation, writes: WriteTreeRef, cc: Option<Node>)
    requires op.AckUserWrite? && writes.shadowingWrite(op.path).Some?
    ensures Process(vp, vc, op, writes, cc) == Ok(ProcessorResult(vc, []))
  {
    NoValueEventWhenUnchanged(vc, vc);
  }

  // ------------------------------------------------------------------ no-ops

  /** A server merge that arrives before any complete server data is ignored. */
  lemma ServerMergeWithoutDataIsNoOp(vp: ViewProcessor, vc: ViewCache, op: Operation, writes: WriteTreeRef,
                                     cc: Option<Node>)
    requires op.Merge? && !op.source.fromUser && op.source.fromServer
    requires IsEmpty(vc.server.node) && !vc.server.fullyInitialized
    ensures Process(vp, vc, op, writes, cc) == Ok(ProcessorResult(vc, []))
  {
    NoValueEventWhenUnchanged(vc, vc);
  }

  /** A server overwrite more than one level deep, below a child the server
      cache is not complete for, is meant for another listener and is
      ignored, unless it is about to make the server node filtered. */
  lemma DeepIncompleteServerOverwriteIsNoOp(vp: ViewProcessor, vc: ViewCache, op: Operation, writes: WriteTreeRef,
                                            cc: Option<Node>)
    requires op.Overwrite? && !op.source.fromUser && op.source.fromServer
    requires |op.path| > 1 && !IsCompleteForPath(vc.server, op.path)
    requires !(ServerFilter(vp, FilterServerOverwrite(vc, op.source, op.path)).filtersNodes && !vc.server.filtered)
    ensures Process(vp, vc, op, writes, cc) == Ok(ProcessorResult(vc, []))
  {
    NoValueEventWhenUnchanged(vc, vc);
  }

  /** A user overwrite of a child with the very node it already shows returns
      the view cache as it was and reports nothing. */
  lemma UnchangedUserOverwriteIsNoOp(vp: ViewProcessor, vc: ViewCache, op: Operation, writes: WriteTreeRef,
                                     cc: Option<Node>)
    requires op.Overwrite? && op.source.fromUser
    requires op.path != [] && Front(op.path) != PRIORITY_KEY
    requires ImmediateChild(vc.event.node, Front(op.path)) ==
             UserOverwriteChild(WriteTreeCompleteChildSource(writes, vc, cc), Front(op.path), PopFront(op.path), op.snap)
    ensures Process(vp, vc, op, writes, cc) == Ok(ProcessorResult(vc, []))
  {
    NoValueEventWhenUnchanged(vc, vc);
  }

  // ------------------------------------------------------------ completeness

  /** Each server overwrite of a server merge keeps complete caches complete. */
  lemma {:induction false} ServerFoldMonotone(vp: ViewProcessor, vc0: ViewCache, vc: ViewCache,
                                              items: seq<(string, ImmutableTree<Node>)>, writes: WriteTreeRef,
                                              cc: Option<Node>, fsn: bool)
    ensures var r := FoldResults(vc, items, ServerStep(vp, vc0, writes, cc, fsn));
      r.Ok? ==>
        (vc.server.fullyInitialized ==> r.value.cache.server.fullyInitialized) &&
        (vc.event.fullyInitialized ==> r.value.cache.event.fullyInitialized)
    decreases |items|
  {
    if items != [] {
      ServerFoldMonotone(vp, vc0, vc, items[..|items| - 1], writes, cc, fsn);
    }
  }

  /** A server merge overwrites one-key paths, where the assertions of
      applyServerOverwrite_ cannot fail: every fold of its steps succeeds. */
  lemma {:induction false} ServerFoldSucceeds(vp: ViewProcessor, vc0: ViewCache, vc: ViewCache,
                                              items: seq<(string, ImmutableTree<Node>)>, writes: WriteTreeRef,
                                              cc: Option<Node>, fsn: bool)
    ensures FoldResults(vc, items, ServerStep(vp, vc0, writes, cc, fsn)).Ok?
    decreases |items|
  {
    if items != [] {
      ServerFoldSucceeds(vp, vc0, vc, items[..|items| - 1], writes, cc, fsn);
    }
  }

  /** A server merge, from the server, never fails. */
  lemma ServerMergeNeverFails(vp: ViewProcessor, vc: ViewCache, source: OperationSource, path: Path,
                              children: ImmutableTree<Node>, writes: WriteTreeRef, cc: Option<Node>)
    requires !source.fromUser && source.fromServer
    ensures Process(vp, vc, Merge(source, path, children), writes, cc).Ok?
  {
    ServerFoldSucceeds(vp, vc, vc, ServerMergeOrder(vc, path, children), writes, cc, FilterServerMerge(vc, source));
  }

  /** The server merge keeps complete caches complete. */
  lemma ServerMergeMonotone(vp: ViewProcessor, vc: ViewCache, path: Path, changed: ImmutableTree<Node>,
                            writes: WriteTreeRef, cc: Option<Node>, fsn: bool)
    ensures var r := ServerMerge(vp, vc, path, changed, writes, cc, fsn);
      r.Ok? ==>
        (vc.server.fullyInitialized ==> r.value.cache.server.fullyInitialized) &&
        (vc.event.fullyInitialized ==> r.value.cache.event.fullyInitialized)
  {
    ServerFoldMonotone(vp, vc, vc, ServerMergeOrder(vc, path, changed), writes, cc, fsn);
  }

  /** Once the server cache is complete, no operation makes it incomplete. */
  lemma ServerCompletenessNeverLost(vp: ViewProcessor, vc: ViewCache, op: Operation, writes: WriteTreeRef,
                                    cc: Option<Node>)
    requires Process(vp, vc, op, writes, cc).Ok?
    requires vc.server.fullyInitialized
    ensures Process(vp, vc, op, writes, cc).value.viewCache.server.fullyInitialized
  {
    match op
    case Overwrite(source, path, snap) =>
    case Merge(source, path, children) =>
      if source.fromUser {
        UserOperationKeepsServer(vp, vc, op, writes, cc);
      } else {
        ServerMergeMonotone(vp, vc, path, children, writes, cc, FilterServerMerge(vc, source));
      }
    case AckUserWrite(path, affectedTree, revert) =>
      if !revert && writes.shadowingWrite(path).None? {
        if affectedTree.value.Some? {
          ServerMergeMonotone(vp, vc, path, SetChildren(EmptyTree(), ChildrenOf(vc.server.node)), writes, cc,
                              vc.server.filtered);
        } else {
          ServerMergeMonotone(vp, vc, path,
                              AckedServerData(vc.server, path, EmptyTree(), Entries(affectedTree)), writes, cc,
                              vc.server.filtered);
        }
      }
    case ListenComplete(_, path) =>
  }

  /** Once the event cache is complete, no operation but a revert makes it
      incomplete. */
  lemma EventCompletenessNeverLost(vp: ViewProcessor, vc: ViewCache, op: Operation, writes: WriteTreeRef,
                                   cc: Option<Node>)
    requires Process(vp, vc, op, writes, cc).Ok?
    requires !(op.AckUserWrite? && op.revert)
    requires vc.event.fullyInitialized
    ensures Process(vp, vc, op, writes, cc).value.viewCache.event.fullyInitialized
  {
    match op
    case Overwrite(source, path, snap) =>
    case Merge(source, path, children) =>
      if source.fromUser {
        UserOperationKeepsServer(vp, vc, op, writes, cc);
      } else {
        ServerMergeMonotone(vp, vc, path, children, writes, cc, FilterServerMerge(vc, source));
      }
    case AckUserWrite(path, affectedTree, revert) =>
      if writes.shadowingWrite(path).None? {
        if affectedTree.value.Some? {
          ServerMergeMonotone(vp, vc, path, SetChildren(EmptyTree(), ChildrenOf(vc.server.node)), writes, cc,
                              vc.server.filtered);
        } else {
          ServerMergeMonotone(vp, vc, path,
                              AckedServerData(vc.server, path, EmptyTree(), Entries(affectedTree)), writes, cc,
                              vc.server.filtered);
        }
      }
    case ListenComplete(_, path) =>
  }

  /** A revert recomputes the event cache from the server data: with an
      incomplete server cache and no write at the root, a complete event
      cache becomes incomplete. */
  lemma RevertCanLoseEventCompleteness(vp: ViewProcessor, writes: WriteTreeRef, cc: Option<Node>)
    requires writes.shadowingWrite([]).None?
    ensures var vc := ViewCache(CacheNode(EMPTY, true, false), CacheNode(EMPTY, false, false));
      var r := Process(vp, vc, AckUserWrite([], EmptyTree(), true), writes, cc);
      r.Ok? && !r.value.viewCache.event.fullyInitialized
  {
  }

  /** listenComplete_ marks the server cache complete at the root and keeps
      its node and filter flag. */
  lemma ListenCompleteMarksServer(vp: ViewProcessor, vc: ViewCache, source: OperationSource, path: Path,
                                  writes: WriteTreeRef, cc: Option<Node>)
    requires Process(vp, vc, ListenComplete(source, path), writes, cc).Ok?
    ensures var s := Process(vp, vc, ListenComplete(source, path), writes, cc).value.viewCache.server;
      s.node == vc.server.node && s.filtered == vc.server.filtered &&
      s.fullyInitialized == (vc.server.fullyInitialized || path == [])
  {
  }

  // ----------------------------------------------------------- merge orders

  /** The two selections of a user merge split the entries between them. */
  lemma {:induction false} EntriesInViewPartition(vc: ViewCache, path: Path, es: seq<(Path, Node)>)
    ensures multiset(EntriesInView(vc, path, es, true)) + multiset(EntriesInView(vc, path, es, false)) == multiset(es)
    decreases |es|
  {
    if es != [] {
      var init := es[..|es| - 1];
      EntriesInViewPartition(vc, path, init);
      assert es == init + [es[|es| - 1]];
    }
  }

  /** A user merge applies every entry of the changed tree exactly once. */
  lemma UserMergeAppliesEachEntryOnce(vc: ViewCache, path: Path, changed: ImmutableTree<Node>)
    ensures multiset(UserMergeOrder(vc, path, changed)) == multiset(Entries(changed))
  {
    EntriesInViewPartition(vc, path, Entries(changed));
  }

  /** A user merge applies all entries whose child is in view before any
      whose child is not. */
  lemma UserMergeInViewFirst(vc: ViewCache, path: Path, changed: ImmutableTree<Node>)
    ensures var o := UserMergeOrder(vc, path, changed);
      forall i, j :: 0 <= i < j < |o| && InView(vc, path + o[j].0) ==> InView(vc, path + o[i].0)
  {
    var es := Entries(changed);
    var a := EntriesInView(vc, path, es, true);
    var b := EntriesInView(vc, path, es, false);
    var o := UserMergeOrder(vc, path, changed);
    forall i, j | 0 <= i < j < |o| && InView(vc, path + o[j].0)
      ensures InView(vc, path + o[i].0)
    {
      assert o[i] == a[i] && o[i] in a;
    }
  }

  /** A pass selects every child it takes. */
  lemma {:induction false} PassTakesAll(vc: ViewCache, cs: seq<(string, ImmutableTree<Node>)>, existing: bool)
    ensures forall c :: c in cs ==>
      ((if existing then HasChild(vc.server.node, c.0)
        else !HasChild(vc.server.node, c.0) && !IsUnknownDeepMerge(vc, c.0, c.1))
       ==> c in ServerMergePass(vc, cs, existing))
    decreases |cs|
  {
    if cs != [] {
      var init := cs[..|cs| - 1];
      PassTakesAll(vc, init, existing);
      assert cs == init + [cs[|cs| - 1]];
    }
  }

  /** A server merge applies exactly the merge children whose key the server
      node has, or that are not unknown deep merges. */
  lemma ServerMergeSelection(vc: ViewCache, path: Path, changed: ImmutableTree<Node>)
    ensures var cs := ViewMergeTree(path, changed).children;
      forall c :: c in cs ==>
        (c in ServerMergeOrder(vc, path, changed) <==>
         HasChild(vc.server.node, c.0) || !IsUnknownDeepMerge(vc, c.0, c.1))
    ensures forall c :: c in ServerMergeOrder(vc, path, changed) ==> c in ViewMergeTree(path, changed).children
  {
    var cs := ViewMergeTree(path, changed).children;
    PassTakesAll(vc, cs, true);
    PassTakesAll(vc, cs, false);
  }

  /** A server merge applies the keys the server node already has before
      any new key. */
  lemma ServerMergeExistingFirst(vc: ViewCache, path: Path, changed: ImmutableTree<Node>)
    ensures var o := ServerMergeOrder(vc, path, changed);
      forall i, j :: 0 <= i < j < |o| && HasChild(vc.server.node, o[j].0) ==> HasChild(vc.server.node, o[i].0)
  {
    var cs := ViewMergeTree(path, changed).children;
    var a := ServerMergePass(vc, cs, true);
    var b := ServerMergePass(vc, cs, false);
    var o := ServerMergeOrder(vc, path, changed);
    forall i, j | 0 <= i < j < |o| && HasChild(vc.server.node, o[j].0)
      ensures HasChild(vc.server.node, o[i].0)
    {
      assert o[i] == a[i] && o[i] in a;
    }
  }

  /** applyMerge_: the last entry of a merge is what its path then holds. */
  lemma MergeLastEntryWins(node: Node, es: seq<(Path, Node)>)
    requires es != []
    requires PRIORITY_KEY !in es[|es| - 1].0 && Normal(es[|es| - 1].1)
    ensures GetChild(MergeEntries(node, es), es[|es| - 1].0) == es[|es| - 1].1
  {
    GetAfterUpdate(MergeEntries(node, es[..|es| - 1]), es[|es| - 1].0, es[|es| - 1].1);
  }

  // ---------------------------------------------------- data re-applied on ack

  /** Acknowledging the root without full data: the merge tree holds each
      child of the server node at its own key and nothing anywhere else
      (a node's children have distinct keys). */
  lemma {:induction false} SetChildrenContents(cs: seq<(string, Node)>, q: Path)
    requires forall i, j :: 0 <= i < j < |cs| ==> cs[i].0 != cs[j].0
    ensures Get(SetChildren(EmptyTree(), cs), q) == if |q| == 1 then Lookup(cs, q[0]) else None
    decreases |cs|
  {
    if cs == [] {
      GetEmpty<Node>(q);
    } else {
      var init := cs[..|cs| - 1];
      var c := cs[|cs| - 1];
      assert cs == init + [c];
      SetChildrenContents(init, q);
      GetAfterSet(SetChildren(EmptyTree(), init), [c.0], c.1, q);
      if |q| == 1 {
        LookupSnoc(init, c, q[0]);
        assert q == [c.0] <==> q[0] == c.0;
      }
    }
  }

  /** Acknowledging a merge: the merge tree holds, at each affected path, the
      server data there when the server cache is complete for it, and
      nothing at any other path. */
  lemma {:induction false} AckedServerDataContents(sc: CacheNode, ackPath: Path, es: seq<(Path, bool)>, q: Path)
    ensures Get(AckedServerData(sc, ackPath, EmptyTree(), es), q) ==
      if (exists i :: 0 <= i < |es| && es[i].0 == q) && IsCompleteForPath(sc, ackPath + q)
      then Some(GetChild(sc.node, ackPath + q)) else None
    decreases |es|
  {
    if es == [] {
      GetEmpty<Node>(q);
    } else {
      var init := es[..|es| - 1];
      var e := es[|es| - 1];
      AckedServerDataContents(sc, ackPath, init, q);
      var prev := AckedServerData(sc, ackPath, EmptyTree(), init);
      if IsCompleteForPath(sc, ackPath + e.0) {
        GetAfterSet(prev, e.0, GetChild(sc.node, ackPath + e.0), q);
      }
      assert (exists i :: 0 <= i < |es| && es[i].0 == q) <==>
             (exists i :: 0 <= i < |init| && init[i].0 == q) || e.0 == q by {
        if exists i :: 0 <= i < |es| && es[i].0 == q {
          var i :| 0 <= i < |es| && es[i].0 == q;
          if i < |init| {
            assert init[i] == es[i];
          }
        }
        if exists i :: 0 <= i < |init| && init[i].0 == q {
          var i :| 0 <= i < |init| && init[i].0 == q;
          assert es[i] == init[i];
        }
      }
    }
  }

  // ------------------------------------------------------------- filtering

  /** A server overwrite that is not ignored marks the server cache filtered
      exactly when the data is tagged, or lies below the root of an already
      filtered cache, and the view's filter does filter. */
  lemma ServerOverwriteFilterFlag(vp: ViewProcessor, vc: ViewCache, source: OperationSource, path: Path, snap: Node,
                                  writes: WriteTreeRef, cc: Option<Node>)
    requires Valid(vp)
    requires !source.fromUser && source.fromServer
    requires ServerCacheAfterOverwrite(vp, vc.server, path, snap, FilterServerOverwrite(vc, source, path)).Some?
    requires Process(vp, vc, Overwrite(source, path, snap), writes, cc).Ok?
    ensures Process(vp, vc, Overwrite(source, path, snap), writes, cc).value.viewCache.server.filtered ==
      (FilterServerOverwrite(vc, source, path) && vp.filter.filtersNodes)
  {
  }

  /** An untagged server overwrite at the root always succeeds, and leaves
      the server cache complete and unfiltered. */
  lemma UntaggedRootOverwriteUnfilters(vp: ViewProcessor, vc: ViewCache, source: OperationSource, snap: Node,
                                       writes: WriteTreeRef, cc: Option<Node>)
    requires Valid(vp)
    requires !source.fromUser && source.fromServer && !source.tagged
    ensures Process(vp, vc, Overwrite(source, [], snap), writes, cc).Ok?
    ensures var s := Process(vp, vc, Overwrite(source, [], snap), writes, cc).value.viewCache.server;
      s.fullyInitialized && !s.filtered
  {
  }

  /** Each server overwrite of a server merge leaves the filter flag as it
      was, or sets it to whether the merge's data is to be filtered. */
  lemma {:induction false} ServerFoldFilterFlag(vp: ViewProcessor, vc0: ViewCache, vc: ViewCache,
                                                items: seq<(string, ImmutableTree<Node>)>, writes: WriteTreeRef,
                                                cc: Option<Node>, fsn: bool)
    requires Valid(vp)
    ensures var r := FoldResults(vc, items, ServerStep(vp, vc0, writes, cc, fsn));
      r.Ok? ==>
        r.value.cache.server.filtered == vc.server.filtered ||
        r.value.cache.server.filtered == (fsn && vp.filter.filtersNodes)
    decreases |items|
  {
    if items != [] {
      ServerFoldFilterFlag(vp, vc0, vc, items[..|items| - 1], writes, cc, fsn);
    }
  }

  /** A server merge leaves the filter flag as it was, or sets it to whether
      the data is tagged or the cache already filtered and the view's filter
      does filter; so an untagged merge into an unfiltered cache keeps it
      unfiltered. */
  lemma ServerMergeFilterFlag(vp: ViewProcessor, vc: ViewCache, source: OperationSource, path: Path,
                              children: ImmutableTree<Node>, writes: WriteTreeRef, cc: Option<Node>)
    requires Valid(vp)
    requires !source.fromUser && source.fromServer
    requires Process(vp, vc, Merge(source, path, children), writes, cc).Ok?
    ensures var s := Process(vp, vc, Merge(source, path, children), writes, cc).value.viewCache.server;
      s.filtered == vc.server.filtered || s.filtered == (FilterServerMerge(vc, source) && vp.filter.filtersNodes)
    ensures !source.tagged && !vc.server.filtered ==>
      !Process(vp, vc, Merge(source, path, children), writes, cc).value.viewCache.server.filtered
  {
    ServerFoldFilterFlag(vp, vc, vc, ServerMergeOrder(vc, path, children), writes, cc, FilterServerMerge(vc, source));
  }

  /** ackUserWrite_ filters the server data only if it was already
      filtered, and with a filtering view filter keeps the flag as it was. */
  lemma AckWriteFilterFlag(vp: ViewProcessor, vc: ViewCache, path: Path, affectedTree: ImmutableTree<bool>,
                           writes: WriteTreeRef, cc: Option<Node>)
    requires Valid(vp)
    requires AckWrite(vp, vc, path, affectedTree, writes, cc).Ok?
    ensures var s := AckWrite(vp, vc, path, affectedTree, writes, cc).value.cache.server;
      (s.filtered ==> vc.server.filtered) && (vp.filter.filtersNodes ==> s.filtered == vc.server.filtered)
  {
    if writes.shadowingWrite(path).None? {
      if affectedTree.value.Some? {
        var t := SetChildren(EmptyTree(), ChildrenOf(vc.server.node));
        ServerFoldFilterFlag(vp, vc, vc, ServerMergeOrder(vc, path, t), writes, cc, vc.server.filtered);
      } else {
        var t := AckedServerData(vc.server, path, EmptyTree(), Entries(affectedTree));
        ServerFoldFilterFlag(vp, vc, vc, ServerMergeOrder(vc, path, t), writes, cc, vc.server.filtered);
      }
    }
  }

  /** The same for a whole acknowledgement call. */
  lemma AckKeepsFilterFlag(vp: ViewProcessor, vc: ViewCache, path: Path, affectedTree: ImmutableTree<bool>,
                           writes: WriteTreeRef, cc: Option<Node>)
    requires Valid(vp)
    requires Process(vp, vc, AckUserWrite(path, affectedTree, false), writes, cc).Ok?
    ensures var s := Process(vp, vc, AckUserWrite(path, affectedTree, false), writes, cc).value.viewCache.server;
      (s.filtered ==> vc.server.filtered) && (vp.filter.filtersNodes ==> s.filtered == vc.server.filtered)
  {
    AckWriteFilterFlag(vp, vc, path, affectedTree, writes, cc);
  }
}
