/** The view reconciliation state machine: applies one operation to a view
    cache and reports the changes listeners must see. Every handler returns the
    new cache together with the child changes it appended to the accumulator;
    a failed internal assertion aborts the call with `Failure`. */
module Processor {
  import opened Common
  import opened Snap
  import opened Trees
  import opened Views

  /** The processor is its filter; `indexedFilter` is that filter's
      `getIndexedFilter()`. */
  datatype ViewProcessor = ViewProcessor(filter: NodeFilter, indexedFilter: NodeFilter)

  /** `getIndexedFilter()` is the view's filter without its limit or range
      restriction: it keeps children in index order but never filters any out. */
  predicate Valid(vp: ViewProcessor)
  {
    !vp.indexedFilter.filtersNodes
  }

  /** A new view cache and the child changes accumulated to reach it. */
  datatype Step = Step(cache: ViewCache, changes: seq<ChildChange>)

  datatype ProcessorResult = ProcessorResult(viewCache: ViewCache, changes: seq<Change>)

  /** Chains two steps: the second starts from the first's cache. */
  function Then(s: Step, next: Step): Step
  {
    Step(next.cache, s.changes + next.changes)
  }

  /** Applies `f` to each input in turn, each time to the cache the previous
      application left; the changes are concatenated in order. */
  function FoldSteps<E>(vc: ViewCache, es: seq<E>, f: (ViewCache, E) -> Step): Step
    decreases |es|
  {
    if es == [] then Step(vc, [])
    else
      var s := FoldSteps(vc, es[..|es| - 1], f);
      Then(s, f(s.cache, es[|es| - 1]))
  }

  /** The same for handlers that may fail: the first failure aborts. */
  function FoldResults<E>(vc: ViewCache, es: seq<E>, f: (ViewCache, E) -> Result<Step>): Result<Step>
    decreases |es|
  {
    if es == [] then Ok(Step(vc, []))
    else
      match FoldResults(vc, es[..|es| - 1], f)
      case Failure(e) => Failure(e)
      case Ok(s) =>
        match f(s.cache, es[|es| - 1])
        case Failure(e) => Failure(e)
        case Ok(s2) => Ok(Then(s, s2))
  }

  function Lift(cs: seq<ChildChange>): (r: seq<Change>)
    ensures |r| == |cs|
    ensures forall i :: 0 <= i < |cs| ==> r[i] == ChildEvent(cs[i])
  {
    if cs == [] then [] else [ChildEvent(cs[0])] + Lift(cs[1..])
  }

  // ---------------------------------------------------------------- value event

  /** Whether a whole-value change must follow `childCount` child changes. */
  predicate ValueEventDue(oldVC: ViewCache, newVC: ViewCache, childCount: nat)
  {
    var eventSnap := newVC.event;
    eventSnap.fullyInitialized &&
    (childCount > 0 ||
     !oldVC.event.fullyInitialized ||
     ((IsLeafNode(eventSnap.node) || IsEmpty(eventSnap.node)) && eventSnap.node != oldVC.event.node) ||
     PriorityNode(eventSnap.node) != PriorityNode(oldVC.event.node))
  }

  /** The accumulated child changes, then at most one value change. */
  function MaybeAddValueEvent(oldVC: ViewCache, newVC: ViewCache, acc: seq<ChildChange>): (r: seq<Change>)
    ensures |acc| <= |r| <= |acc| + 1
    ensures forall i :: 0 <= i < |acc| ==> r[i] == ChildEvent(acc[i])
    ensures |r| == |acc| + 1 <==> ValueEventDue(oldVC, newVC, |acc|)
    ensures |r| == |acc| + 1 ==> newVC.event.fullyInitialized && r[|acc|] == ValueEvent(newVC.event.node)
  {
    Lift(acc) + if ValueEventDue(oldVC, newVC, |acc|) then [ValueEvent(newVC.event.node)] else []
  }

  // ----------------------------------------------- event cache after server data

  /** The new event node (and changes) for a server event at `changePath`,
      when no local write shadows it. */
  function EventNodeAfterServerEvent(vp: ViewProcessor, vc: ViewCache, changePath: Path, writes: WriteTreeRef,
                                     source: CompleteChildSource): (r: Result<(Node, seq<ChildChange>)>)
    ensures r.Failure? <==>
      (changePath == [] && !vc.server.fullyInitialized) ||
      (changePath != [] && Front(changePath) == PRIORITY_KEY && |changePath| != 1)
  {
    var oldEventSnap := vc.event;
    if changePath == [] then
      if !vc.server.fullyInitialized then
        Failure("If change path is empty, we must have complete server data")
      else if vc.server.filtered then
        // only complete children may receive writes when the server data is filtered
        var serverCache := CompleteServerSnap(vc).value;
        var completeChildren := if serverCache.Branch? then serverCache else EMPTY;
        var completeEventChildren := writes.calcCompleteEventChildren(completeChildren);
        Ok(vp.filter.updateFullNode(oldEventSnap.node, completeEventChildren))
      else
        var completeNode := writes.calcCompleteEventCache(CompleteServerSnap(vc).value);
        Ok(vp.filter.updateFullNode(oldEventSnap.node, completeNode))
    else
      var childKey := Front(changePath);
      if childKey == PRIORITY_KEY then
        if |changePath| != 1 then
          Failure("Can't have a priority with additional path components")
        else
          var oldEventNode := oldEventSnap.node;
          match writes.calcEventCacheAfterServerOverwrite(changePath, oldEventNode, vc.server.node)
          case Some(updatedPriority) => Ok((vp.filter.updatePriority(oldEventNode, updatedPriority), []))
          case None => Ok((oldEventNode, []))
      else
        var childChangePath := PopFront(changePath);
        var newEventChild :=
          if IsCompleteForChild(oldEventSnap, childKey) then
            match writes.calcEventCacheAfterServerOverwrite(changePath, oldEventSnap.node, vc.server.node)
            case Some(eventChildUpdate) =>
              Some(UpdateChild(ImmediateChild(oldEventSnap.node, childKey), childChangePath, eventChildUpdate))
            case None => Some(ImmediateChild(oldEventSnap.node, childKey))
          else
            writes.calcCompleteChild(childKey, vc.server);
        match newEventChild
        case Some(c) => Ok(vp.filter.updateChild(oldEventSnap.node, childKey, c, childChangePath, source))
        case None => Ok((oldEventSnap.node, []))
  }

  /** generateEventCacheAfterServerEvent_: recomputes the event cache for the
      changed subtree only, unless a local write shadows it. */
  function EventCacheAfterServerEvent(vp: ViewProcessor, vc: ViewCache, changePath: Path, writes: WriteTreeRef,
                                      source: CompleteChildSource): (r: Result<Step>)
    ensures writes.shadowingWrite(changePath).Some? ==> r == Ok(Step(vc, []))
    ensures r.Ok? ==> r.value.cache.server == vc.server
    ensures r.Ok? && writes.shadowingWrite(changePath).None? ==>
      r.value.cache.event.fullyInitialized == (vc.event.fullyInitialized || changePath == []) &&
      r.value.cache.event.filtered == vp.filter.filtersNodes
    ensures r.Failure? <==>
      (writes.shadowingWrite(changePath).None? &&
       ((changePath == [] && !vc.server.fullyInitialized) ||
        (changePath != [] && Front(changePath) == PRIORITY_KEY && |changePath| != 1)))
  {
    if writes.shadowingWrite(changePath).Some? then
      Ok(Step(vc, []))
    else
      match EventNodeAfterServerEvent(vp, vc, changePath, writes, source)
      case Failure(e) => Failure(e)
      case Ok(upd) =>
        Ok(Step(UpdateEventSnap(vc, upd.0, vc.event.fullyInitialized || changePath == [], vp.filter.filtersNodes),
                upd.1))
  }

  // ---------------------------------------------------------- server overwrite

  /** The filter used for server data: the view's own when the node is to be
      filtered, otherwise the unrestricted indexed filter. */
  function ServerFilter(vp: ViewProcessor, filterServerNode: bool): NodeFilter
  {
    if filterServerNode then vp.filter else vp.indexedFilter
  }

  /** The new server cache for a server overwrite, or None when the update is
      for an incomplete node and meant for another listener. */
  function ServerCacheAfterOverwrite(vp: ViewProcessor, oldServerSnap: CacheNode, changePath: Path,
                                     changedSnap: Node, filterServerNode: bool): (r: Option<CacheNode>)
    ensures r.None? <==>
      changePath != [] &&
      !(ServerFilter(vp, filterServerNode).filtersNodes && !oldServerSnap.filtered) &&
      !IsCompleteForPath(oldServerSnap, changePath) && |changePath| > 1
    ensures r.Some? ==>
      r.value.fullyInitialized == (oldServerSnap.fullyInitialized || changePath == []) &&
      r.value.filtered == ServerFilter(vp, filterServerNode).filtersNodes
  {
    var serverFilter := ServerFilter(vp, filterServerNode);
    var full := oldServerSnap.fullyInitialized || changePath == [];
    if changePath == [] then
      Some(CacheNode(serverFilter.updateFullNode(oldServerSnap.node, changedSnap).0, full, serverFilter.filtersNodes))
    else if serverFilter.filtersNodes && !oldServerSnap.filtered then
      // the node is to be filtered from now on: simulate a full update
      var newServerNode := UpdateChild(oldServerSnap.node, changePath, changedSnap);
      Some(CacheNode(serverFilter.updateFullNode(oldServerSnap.node, newServerNode).0, full, serverFilter.filtersNodes))
    else if !IsCompleteForPath(oldServerSnap, changePath) && |changePath| > 1 then
      None
    else
      var childKey := Front(changePath);
      var childChangePath := PopFront(changePath);
      var newChildNode := UpdateChild(ImmediateChild(oldServerSnap.node, childKey), childChangePath, changedSnap);
      var newServerNode :=
        if childKey == PRIORITY_KEY then serverFilter.updatePriority(oldServerSnap.node, newChildNode)
        else serverFilter.updateChild(oldServerSnap.node, childKey, newChildNode, childChangePath, NoCompleteChildSource).0;
      Some(CacheNode(newServerNode, full, serverFilter.filtersNodes))
  }

  /** applyServerOverwrite_: updates the server cache, then the event cache. */
  function ServerOverwrite(vp: ViewProcessor, vc: ViewCache, changePath: Path, changedSnap: Node,
                           writes: WriteTreeRef, completeCache: Option<Node>, filterServerNode: bool): (r: Result<Step>)
    ensures ServerCacheAfterOverwrite(vp, vc.server, changePath, changedSnap, filterServerNode).None? ==>
      r == Ok(Step(vc, []))
    ensures r.Ok? && ServerCacheAfterOverwrite(vp, vc.server, changePath, changedSnap, filterServerNode).Some? ==>
      Some(r.value.cache.server) == ServerCacheAfterOverwrite(vp, vc.server, changePath, changedSnap, filterServerNode)
    ensures r.Failure? <==>
      ServerCacheAfterOverwrite(vp, vc.server, changePath, changedSnap, filterServerNode).Some? &&
      writes.shadowingWrite(changePath).None? &&
      changePath != [] && Front(changePath) == PRIORITY_KEY && |changePath| != 1
    ensures r.Ok? ==> (vc.server.fullyInitialized ==> r.value.cache.server.fullyInitialized)
    ensures r.Ok? ==> (vc.event.fullyInitialized ==> r.value.cache.event.fullyInitialized)
    ensures writes.shadowingWrite(changePath).Some? ==>
      r.Ok? && r.value.cache.event == vc.event && r.value.changes == []
  {
    match ServerCacheAfterOverwrite(vp, vc.server, changePath, changedSnap, filterServerNode)
    case None => Ok(Step(vc, []))
    case Some(newServerCache) =>
      var newViewCache := vc.(server := newServerCache);
      var source := WriteTreeCompleteChildSource(writes, newViewCache, completeCache);
      EventCacheAfterServerEvent(vp, newViewCache, changePath, writes, source)
  }

  // ------------------------------------------------------------ user overwrite

  /** The event child a user overwrite below a child key produces. */
  function UserOverwriteChild(source: CompleteChildSource, childKey: string, childChangePath: Path,
                              changedSnap: Node): Node
  {
    if childChangePath == [] then changedSnap
    else match GetCompleteChild(source, childKey)
      case Some(childNode) =>
        if Back(childChangePath) == PRIORITY_KEY && IsEmpty(GetChild(childNode, Parent(childChangePath))) then
          // a priority update on an empty node: the server will send it down
          childNode
        else UpdateChild(childNode, childChangePath, changedSnap)
      case None => EMPTY
  }

  /** applyUserOverwrite_: only the event cache changes. */
  function UserOverwrite(vp: ViewProcessor, vc: ViewCache, changePath: Path, changedSnap: Node,
                         writes: WriteTreeRef, completeCache: Option<Node>): (r: Step)
    ensures r.cache.server == vc.server
    ensures r.cache.event.fullyInitialized == (vc.event.fullyInitialized || changePath == [])
    ensures changePath != [] && Front(changePath) == PRIORITY_KEY ==>
      r.changes == [] && r.cache.event.filtered == vc.event.filtered
    ensures (changePath != [] && Front(changePath) != PRIORITY_KEY &&
             ImmediateChild(vc.event.node, Front(changePath)) ==
               UserOverwriteChild(WriteTreeCompleteChildSource(writes, vc, completeCache), Front(changePath),
                                  PopFront(changePath), changedSnap)) ==>
      r == Step(vc, [])
  {
    var oldEventSnap := vc.event;
    var source := WriteTreeCompleteChildSource(writes, vc, completeCache);
    if changePath == [] then
      var upd := vp.filter.updateFullNode(oldEventSnap.node, changedSnap);
      Step(UpdateEventSnap(vc, upd.0, true, vp.filter.filtersNodes), upd.1)
    else
      var childKey := Front(changePath);
      if childKey == PRIORITY_KEY then
        var newEventCache := vp.filter.updatePriority(oldEventSnap.node, changedSnap);
        Step(UpdateEventSnap(vc, newEventCache, oldEventSnap.fullyInitialized, oldEventSnap.filtered), [])
      else
        var childChangePath := PopFront(changePath);
        var oldChild := ImmediateChild(oldEventSnap.node, childKey);
        var newChild := UserOverwriteChild(source, childKey, childChangePath, changedSnap);
        if oldChild != newChild then
          var upd := vp.filter.updateChild(oldEventSnap.node, childKey, newChild, childChangePath, source);
          Step(UpdateEventSnap(vc, upd.0, oldEventSnap.fullyInitialized, vp.filter.filtersNodes), upd.1)
        else
          Step(vc, [])
  }

  // ---------------------------------------------------------------- user merge

  /** cacheHasChild_: whether the first key of `writePath` is complete in the
      event cache (the empty path names no child). */
  function InView(vc: ViewCache, writePath: Path): (r: bool)
    ensures vc.event.fullyInitialized && !vc.event.filtered ==> r
    ensures r ==> (vc.event.fullyInitialized && !vc.event.filtered) ||
                  (writePath != [] && HasChild(vc.event.node, writePath[0]))
    ensures writePath != [] && HasChild(vc.event.node, writePath[0]) ==> r
  {
    if writePath == [] then vc.event.fullyInitialized && !vc.event.filtered
    else IsCompleteForChild(vc.event, Front(writePath))
  }

  /** The merge entries whose write path is (`want`) or is not in view, in order. */
  function EntriesInView(vc: ViewCache, path: Path, es: seq<(Path, Node)>, want: bool): (r: seq<(Path, Node)>)
    ensures |r| <= |es|
    ensures forall e :: e in r ==> e in es && InView(vc, path + e.0) == want
  {
    if es == [] then []
    else
      var rest := EntriesInView(vc, path, es[..|es| - 1], want);
      var e := es[|es| - 1];
      if InView(vc, path + e.0) == want then rest + [e] else rest
  }

  /** The order in which a user merge applies its entries: those in view
      first, then the others, each group in `foreach` order. */
  function UserMergeOrder(vc: ViewCache, path: Path, changed: ImmutableTree<Node>): seq<(Path, Node)>
  {
    var es := Entries(changed);
    EntriesInView(vc, path, es, true) + EntriesInView(vc, path, es, false)
  }

  /** The handler a user merge applies to each of its entries: a user
      overwrite at `path` + the entry's relative path. */
  function UserStep(vp: ViewProcessor, path: Path, writes: WriteTreeRef, completeCache: Option<Node>)
    : (ViewCache, (Path, Node)) -> Step
  {
    (c: ViewCache, e: (Path, Node)) => UserOverwrite(vp, c, path + e.0, e.1, writes, completeCache)
  }

  /** applyUserMerge_. */
  function UserMerge(vp: ViewProcessor, vc: ViewCache, path: Path, changed: ImmutableTree<Node>,
                     writes: WriteTreeRef, completeCache: Option<Node>): Step
  {
    FoldSteps(vc, UserMergeOrder(vc, path, changed), UserStep(vp, path, writes, completeCache))
  }

  // -------------------------------------------------------------- server merge

  /** applyMerge_: folds every entry of the tree into the node. */
  function MergeEntries(node: Node, es: seq<(Path, Node)>): Node
    decreases |es|
  {
    if es == [] then node
    else
      var e := es[|es| - 1];
      UpdateChild(MergeEntries(node, es[..|es| - 1]), e.0, e.1)
  }

  function MergedNode(node: Node, merge: ImmutableTree<Node>): (r: Node)
    ensures Entries(merge) == [] ==> r == node
  {
    MergeEntries(node, Entries(merge))
  }

  /** The merge tree rooted at the view: `changed` placed at `path`. */
  function ViewMergeTree(path: Path, changed: ImmutableTree<Node>): ImmutableTree<Node>
  {
    if path == [] then changed else SetTree(EmptyTree(), path, changed)
  }

  /** A new key whose data is neither in the server cache nor given whole. */
  predicate IsUnknownDeepMerge(vc: ViewCache, childKey: string, childTree: ImmutableTree<Node>)
  {
    !IsCompleteForChild(vc.server, childKey) && childTree.value.None?
  }

  /** The merge children the server merge applies in one pass: with
      `existing`, those whose key the server node has; otherwise the new keys
      that are not unknown deep merges. */
  function ServerMergePass(vc: ViewCache, cs: seq<(string, ImmutableTree<Node>)>, existing: bool)
    : (r: seq<(string, ImmutableTree<Node>)>)
    ensures |r| <= |cs|
    ensures forall c :: c in r ==>
      (c in cs &&
       if existing then HasChild(vc.server.node, c.0)
       else !HasChild(vc.server.node, c.0) && !IsUnknownDeepMerge(vc, c.0, c.1))
  {
    if cs == [] then []
    else
      var rest := ServerMergePass(vc, cs[..|cs| - 1], existing);
      var c := cs[|cs| - 1];
      var take := if existing then HasChild(vc.server.node, c.0)
                  else !HasChild(vc.server.node, c.0) && !IsUnknownDeepMerge(vc, c.0, c.1);
      if take then rest + [c] else rest
  }

  /** The order in which a server merge applies its children. */
  function ServerMergeOrder(vc: ViewCache, path: Path, changed: ImmutableTree<Node>): seq<(string, ImmutableTree<Node>)>
  {
    var cs := ViewMergeTree(path, changed).children;
    ServerMergePass(vc, cs, true) + ServerMergePass(vc, cs, false)
  }

  /** The handler a server merge applies to each selected child: a server
      overwrite at [key] of the child merged into the server node of the
      original cache `vc0`. */
  function ServerStep(vp: ViewProcessor, vc0: ViewCache, writes: WriteTreeRef, completeCache: Option<Node>,
                      filterServerNode: bool): (ViewCache, (string, ImmutableTree<Node>)) -> Result<Step>
  {
    (c: ViewCache, item: (string, ImmutableTree<Node>)) =>
      ServerOverwrite(vp, c, [item.0], MergedNode(ImmediateChild(vc0.server.node, item.0), item.1), writes,
                      completeCache, filterServerNode)
  }

  /** applyServerMerge_. */
  function ServerMerge(vp: ViewProcessor, vc: ViewCache, path: Path, changed: ImmutableTree<Node>,
                       writes: WriteTreeRef, completeCache: Option<Node>, filterServerNode: bool): Result<Step>
  {
    if IsEmpty(vc.server.node) && !vc.server.fullyInitialized then
      // meant for an earlier listen at this location: wait for complete data
      Ok(Step(vc, []))
    else
      FoldResults(vc, ServerMergeOrder(vc, path, changed), ServerStep(vp, vc, writes, completeCache, filterServerNode))
  }

  // ----------------------------------------------------------------------- ack

  /** Every child of `n` set at its own one-key path, in key order. */
  function SetChildren(t: ImmutableTree<Node>, cs: seq<(string, Node)>): ImmutableTree<Node>
    decreases |cs|
  {
    if cs == [] then t
    else
      var c := cs[|cs| - 1];
      Set(SetChildren(t, cs[..|cs| - 1]), [c.0], c.1)
  }

  /** The server data at each acknowledged merge path the server cache is
      complete for. */
  function AckedServerData(serverCache: CacheNode, ackPath: Path, t: ImmutableTree<Node>,
                           es: seq<(Path, bool)>): ImmutableTree<Node>
    decreases |es|
  {
    if es == [] then t
    else
      var prev := AckedServerData(serverCache, ackPath, t, es[..|es| - 1]);
      var mergePath := es[|es| - 1].0;
      var serverCachePath := ackPath + mergePath;
      if IsCompleteForPath(serverCache, serverCachePath) then
        Set(prev, mergePath, GetChild(serverCache.node, serverCachePath))
      else prev
  }

  /** ackUserWrite_: re-applies the held server data at the acknowledged paths
      as a server update, now that no local write masks it. */
  function AckWrite(vp: ViewProcessor, vc: ViewCache, ackPath: Path, affectedTree: ImmutableTree<bool>,
                    writes: WriteTreeRef, completeCache: Option<Node>): (r: Result<Step>)
    ensures writes.shadowingWrite(ackPath).Some? ==> r == Ok(Step(vc, []))
  {
    if writes.shadowingWrite(ackPath).Some? then Ok(Step(vc, []))
    else
      var filterServerNode := vc.server.filtered;
      var serverCache := vc.server;
      if affectedTree.value.Some? then
        if (ackPath == [] && serverCache.fullyInitialized) || IsCompleteForPath(serverCache, ackPath) then
          ServerOverwrite(vp, vc, ackPath, GetChild(serverCache.node, ackPath), writes, completeCache, filterServerNode)
        else if ackPath == [] then
          // acking the root without full data: re-apply whatever is cached as a merge
          var changedChildren := SetChildren(EmptyTree(), ChildrenOf(serverCache.node));
          ServerMerge(vp, vc, ackPath, changedChildren, writes, completeCache, filterServerNode)
        else Ok(Step(vc, []))
      else
        var changedChildren := AckedServerData(serverCache, ackPath, EmptyTree(), Entries(affectedTree));
        ServerMerge(vp, vc, ackPath, changedChildren, writes, completeCache, filterServerNode)
  }

  // --------------------------------------------------------- listen complete

  /** listenComplete_: marks the server cache complete at `path` and recomputes
      the event cache there. */
  function ListenCompleted(vp: ViewProcessor, vc: ViewCache, path: Path, writes: WriteTreeRef): (r: Result<Step>)
    ensures r.Ok? ==>
      r.value.cache.server.node == vc.server.node &&
      r.value.cache.server.filtered == vc.server.filtered &&
      r.value.cache.server.fullyInitialized == (vc.server.fullyInitialized || path == [])
  {
    var oldServerNode := vc.server;
    var newViewCache := UpdateServerSnap(vc, oldServerNode.node, oldServerNode.fullyInitialized || path == [],
                                         oldServerNode.filtered);
    EventCacheAfterServerEvent(vp, newViewCache, path, writes, NoCompleteChildSource)
  }

  // -------------------------------------------------------------------- revert

  /** The new event node (and changes) for a reverted write at `path`. */
  function EventNodeAfterRevert(vp: ViewProcessor, vc: ViewCache, path: Path, writes: WriteTreeRef,
                                completeServerCache: Option<Node>): (r: Result<(Node, seq<ChildChange>)>)
    ensures r.Failure? <==>
      (path == [] || Front(path) == PRIORITY_KEY) && !vc.server.fullyInitialized && vc.server.node.Leaf?
  {
    var source := WriteTreeCompleteChildSource(writes, vc, completeServerCache);
    var oldEventCache := vc.event.node;
    if path == [] || Front(path) == PRIORITY_KEY then
      var newNode :=
        if vc.server.fullyInitialized then Ok(writes.calcCompleteEventCache(CompleteServerSnap(vc).value))
        else if vc.server.node.Branch? then Ok(writes.calcCompleteEventChildren(vc.server.node))
        else Failure("serverChildren would be complete if leaf node");
      match newNode
      case Failure(e) => Failure(e)
      case Ok(n) => Ok(vp.filter.updateFullNode(oldEventCache, n))
    else
      var childKey := Front(path);
      var completeChild := writes.calcCompleteChild(childKey, vc.server);
      var newChild :=
        if completeChild.None? && IsCompleteForChild(vc.server, childKey) then Some(ImmediateChild(oldEventCache, childKey))
        else completeChild;
      var upd :=
        match newChild
        case Some(c) => vp.filter.updateChild(oldEventCache, childKey, c, PopFront(path), source)
        case None =>
          if HasChild(vc.event.node, childKey) then
            // nothing justifies the child any more: delete it
            vp.filter.updateChild(oldEventCache, childKey, EMPTY, PopFront(path), source)
          else (oldEventCache, []);
      if IsEmpty(upd.0) && vc.server.fullyInitialized then
        // all child writes may be reverted: the old event may have been a leaf
        var complete := writes.calcCompleteEventCache(CompleteServerSnap(vc).value);
        if IsLeafNode(complete) then
          var full := vp.filter.updateFullNode(upd.0, complete);
          Ok((full.0, upd.1 + full.1))
        else Ok(upd)
      else Ok(upd)
  }

  /** revertUserWrite_: recomputes the event cache at `path` from the server
      data and the remaining writes; the server cache is untouched. */
  function RevertWrite(vp: ViewProcessor, vc: ViewCache, path: Path, writes: WriteTreeRef,
                       completeServerCache: Option<Node>): (r: Result<Step>)
    ensures writes.shadowingWrite(path).Some? ==> r == Ok(Step(vc, []))
    ensures r.Ok? ==> r.value.cache.server == vc.server
    ensures r.Ok? && writes.shadowingWrite(path).None? ==>
      r.value.cache.event.fullyInitialized == (vc.server.fullyInitialized || writes.shadowingWrite([]).Some?)
  {
    if writes.shadowingWrite(path).Some? then Ok(Step(vc, []))
    else
      match EventNodeAfterRevert(vp, vc, path, writes, completeServerCache)
      case Failure(e) => Failure(e)
      case Ok(upd) =>
        var complete := vc.server.fullyInitialized || writes.shadowingWrite([]).Some?;
        Ok(Step(UpdateEventSnap(vc, upd.0, complete, vp.filter.filtersNodes), upd.1))
  }

  // ------------------------------------------------------------------ dispatch

  /** The `filterServerNode` flag of a server overwrite: tagged data, or data
      below the root of an already filtered server cache. */
  predicate FilterServerOverwrite(vc: ViewCache, source: OperationSource, path: Path)
  {
    source.tagged || (vc.server.filtered && path != [])
  }

  /** The `filterServerNode` flag of a server merge. */
  predicate FilterServerMerge(vc: ViewCache, source: OperationSource)
  {
    source.tagged || vc.server.filtered
  }

  /** The handler the operation's kind and source select. */
  function Dispatch(vp: ViewProcessor, vc: ViewCache, op: Operation, writes: WriteTreeRef,
                    completeCache: Option<Node>): (r: Result<Step>)
    ensures (op.Overwrite? || op.Merge?) && op.source.fromUser ==> r.Ok?
    ensures (op.Overwrite? || op.Merge?) && !op.source.fromUser && !op.source.fromServer ==>
      r == Failure("Unknown source.")
    ensures op.AckUserWrite? && writes.shadowingWrite(op.path).Some? ==> r == Ok(Step(vc, []))
    ensures op.ListenComplete? && r.Ok? ==>
      r.value.cache.server.fullyInitialized == (vc.server.fullyInitialized || op.path == [])
  {
    match op
    case Overwrite(source, path, snap) =>
      if source.fromUser then Ok(UserOverwrite(vp, vc, path, snap, writes, completeCache))
      else if !source.fromServer then Failure("Unknown source.")
      else ServerOverwrite(vp, vc, path, snap, writes, completeCache, FilterServerOverwrite(vc, source, path))
    case Merge(source, path, children) =>
      if source.fromUser then Ok(UserMerge(vp, vc, path, children, writes, completeCache))
      else if !source.fromServer then Failure("Unknown source.")
      else ServerMerge(vp, vc, path, children, writes, completeCache, FilterServerMerge(vc, source))
    case AckUserWrite(path, affectedTree, revert) =>
      if !revert then AckWrite(vp, vc, path, affectedTree, writes, completeCache)
      else RevertWrite(vp, vc, path, writes, completeCache)
    case ListenComplete(_, path) =>
      ListenCompleted(vp, vc, path, writes)
  }

  /** applyOperation: the handler's cache, then its child changes followed by
      at most one value change. */
  function Process(vp: ViewProcessor, oldViewCache: ViewCache, op: Operation, writes: WriteTreeRef,
                   completeCache: Option<Node>): (r: Result<ProcessorResult>)
    ensures r.Failure? <==> Dispatch(vp, oldViewCache, op, writes, completeCache).Failure?
  {
    match Dispatch(vp, oldViewCache, op, writes, completeCache)
    case Failure(e) => Failure(e)
    case Ok(s) => Ok(ProcessorResult(s.cache, MaybeAddValueEvent(oldViewCache, s.cache, s.changes)))
  }
}
