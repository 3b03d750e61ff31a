/** The per-listener cache, the change events, the inbound operations and the
    collaborators the view processor consults without knowing their insides. */
module Views {
  import opened Common
  import opened Snap
  import opened Trees

  /** A cached node: its value, whether it is known in full, and whether it
      already reflects a query filter. */
  datatype CacheNode = CacheNode(node: Node, fullyInitialized: bool, filtered: bool)

  predicate IsCompleteForChild(c: CacheNode, k: string)
  {
    (c.fullyInitialized && !c.filtered) || HasChild(c.node, k)
  }

  predicate IsCompleteForPath(c: CacheNode, p: Path)
  {
    if p == [] then c.fullyInitialized && !c.filtered else IsCompleteForChild(c, p[0])
  }

  /** What the application sees (event) and what the server has said (server). */
  datatype ViewCache = ViewCache(event: CacheNode, server: CacheNode)

  function UpdateEventSnap(vc: ViewCache, n: Node, full: bool, filtered: bool): (r: ViewCache)
    ensures r.server == vc.server && r.event == CacheNode(n, full, filtered)
  {
    vc.(event := CacheNode(n, full, filtered))
  }

  function UpdateServerSnap(vc: ViewCache, n: Node, full: bool, filtered: bool): (r: ViewCache)
    ensures r.event == vc.event && r.server == CacheNode(n, full, filtered)
  {
    vc.(server := CacheNode(n, full, filtered))
  }

  /** The server node when it is known in full, otherwise nothing. */
  function CompleteServerSnap(vc: ViewCache): Option<Node>
  {
    if vc.server.fullyInitialized then Some(vc.server.node) else None
  }

  /** A per-child event, as a filter reports it to the accumulator. */
  datatype ChildChange =
    | ChildAdded(key: string, snapshot: Node)
    | ChildRemoved(key: string, snapshot: Node)
    | ChildChanged(key: string, snapshot: Node, oldSnapshot: Node)
    | ChildMoved(key: string, snapshot: Node)

  /** An event handed to listeners: a child event or a whole-value event. */
  datatype Change = ChildEvent(change: ChildChange) | ValueEvent(snapshot: Node)

  datatype OperationSource = OperationSource(fromUser: bool, fromServer: bool, tagged: bool)

  datatype Operation =
    | Overwrite(source: OperationSource, path: Path, snap: Node)
    | Merge(source: OperationSource, path: Path, children: ImmutableTree<Node>)
    | AckUserWrite(path: Path, affectedTree: ImmutableTree<bool>, revert: bool)
    | ListenComplete(source: OperationSource, path: Path)

  /** The pending-write overlay scoped to this view; only its answers are used. */
  datatype WriteTreeRef = WriteTreeRef(
    shadowingWrite: Path -> Option<nat>,
    calcCompleteEventCache: Node -> Node,
    calcCompleteEventChildren: Node -> Node,
    calcEventCacheAfterServerOverwrite: (Path, Node, Node) -> Option<Node>,
    calcCompleteChild: (string, CacheNode) -> Option<Node>,
    /** the lookup a WriteTreeCompleteChildSource over these writes performs */
    completeChildInView: (ViewCache, Option<Node>, string) -> Option<Node>)

  datatype CompleteChildSource =
    | NoCompleteChildSource
    | WriteTreeCompleteChildSource(writes: WriteTreeRef, viewCache: ViewCache, completeServerCache: Option<Node>)

  function GetCompleteChild(src: CompleteChildSource, k: string): Option<Node>
  {
    match src
    case NoCompleteChildSource => None
    case WriteTreeCompleteChildSource(w, vc, sc) => w.completeChildInView(vc, sc, k)
  }

  /** A filter policy: each update returns the new node and the child changes
      it would report to an accumulator, in order. */
  datatype NodeFilter = NodeFilter(
    updateFullNode: (Node, Node) -> (Node, seq<ChildChange>),
    updateChild: (Node, string, Node, Path, CompleteChildSource) -> (Node, seq<ChildChange>),
    updatePriority: (Node, Node) -> Node,
    filtersNodes: bool)

  /** Collects the child changes of one reconciliation call, in order. */
  class ChildChangeAccumulator {
    var changes: seq<ChildChange>

    constructor ()
      ensures changes == []
    {
      changes := [];
    }

    /** Records the changes a filter reports, after those already tracked. */
    method TrackChildChanges(cs: seq<ChildChange>)
      modifies this
      ensures changes == old(changes) + cs
    {
      changes := changes + cs;
    }
  }
}
