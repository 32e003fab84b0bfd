/** `app/services/graph_view.py`: the drawn neighbourhood of one principal. */
module GraphView {
  import opened Ordering
  import opened Digraph

  /** A stored permission edge. */
  datatype EdgeRow = EdgeRow(srcType: string, srcUid: string, dstType: string, dstUid: string,
                             relation: string, sensitive: bool)

  datatype Node = Node(id: string, nodeType: string, uid: string, isFocus: bool)

  datatype Drawn = Drawn(id: string, source: string, target: string, relation: string, sensitive: bool, onPath: bool)

  const CHAIN_RELATIONS := {"HAS_POLICY", "GRANTS_ACTION", "ON_RESOURCE"}
  const HOP_RELATIONS := {"CAN_ASSUME", "CAN_ESCALATE"}

  function NodeId(nodeType: string, uid: string): string {
    nodeType + ":" + uid
  }

  function EdgeId(e: EdgeRow): string {
    NodeId(e.srcType, e.srcUid) + "->" + NodeId(e.dstType, e.dstUid) + ":" + e.relation
  }

  predicate IsChain(e: EdgeRow) {
    e.relation in CHAIN_RELATIONS
  }

  predicate IsHop(e: EdgeRow) {
    e.relation in HOP_RELATIONS
  }

  /** The page: whose it is, and the recorded escalation path if there is one. */
  datatype Page = Page(focus: string, path: Option<seq<string>>)

  /** The two uids follow each other on the recorded path. */
  predicate IsOnPath(page: Page, src: string, dst: string) {
    page.path.Some? && exists i :: 0 <= i < |page.path.value| - 1 && page.path.value[i] == src && page.path.value[i + 1] == dst
  }

  function NodeOf(page: Page, nodeType: string, uid: string): Node {
    Node(NodeId(nodeType, uid), nodeType, uid, uid == page.focus)
  }

  function DrawnOf(page: Page, e: EdgeRow): Drawn {
    Drawn(EdgeId(e), NodeId(e.srcType, e.srcUid), NodeId(e.dstType, e.dstUid), e.relation, e.sensitive,
          IsOnPath(page, e.srcUid, e.dstUid))
  }

  // ----- what is drawn -----

  datatype Picture = Picture(nodes: seq<Node>, edges: seq<Drawn>)

  ghost predicate HasNode(p: Picture, id: string) {
    exists i :: 0 <= i < |p.nodes| && p.nodes[i].id == id
  }

  ghost predicate HasEdge(p: Picture, id: string) {
    exists i :: 0 <= i < |p.edges| && p.edges[i].id == id
  }

  /** No id is drawn twice, and both ends of every edge are drawn. */
  ghost predicate AreEndsDrawn(p: Picture) {
    && (forall i, j :: 0 <= i < j < |p.nodes| ==> p.nodes[i].id != p.nodes[j].id)
    && (forall i, j :: 0 <= i < j < |p.edges| ==> p.edges[i].id != p.edges[j].id)
    && (forall i :: 0 <= i < |p.edges| ==> HasNode(p, p.edges[i].source) && HasNode(p, p.edges[i].target))
  }

  /** The node is the focal one or an end of a drawn edge. */
  ghost predicate IsNeeded(p: Picture, page: Page, id: string) {
    id == NodeId("principal", page.focus)
    || exists i :: 0 <= i < |p.edges| && (p.edges[i].source == id || p.edges[i].target == id)
  }

  ghost predicate IsTidy(p: Picture, page: Page) {
    forall i :: 0 <= i < |p.nodes| ==>
      p.nodes[i] == NodeOf(page, p.nodes[i].nodeType, p.nodes[i].uid) && IsNeeded(p, page, p.nodes[i].id)
  }

  ghost predicate IsWellDrawn(p: Picture, page: Page) {
    AreEndsDrawn(p) && IsTidy(p, page)
  }

  function Drawing(page: Page): EdgeRow -> Drawn {
    (e: EdgeRow) => DrawnOf(page, e)
  }

  /** The edges of `p` are exactly those wanted, one for each edge id. */
  ghost predicate DrawsExactly(p: Picture, draw: EdgeRow -> Drawn, wanted: set<EdgeRow>) {
    && (forall e :: e in wanted ==> HasEdge(p, draw(e).id))
    && (forall i :: 0 <= i < |p.edges| ==> IsOneOf(p.edges[i], draw, wanted))
  }

  ghost predicate IsOneOf(d: Drawn, draw: EdgeRow -> Drawn, wanted: set<EdgeRow>) {
    exists e :: e in wanted && d == draw(e)
  }

  /** The picture once the node is drawn. */
  ghost function WithNode(p: Picture, node: Node): Picture {
    if HasNode(p, node.id) then p else Picture(p.nodes + [node], p.edges)
  }

  /** The pairs the policy chain is walked along. */
  function ChainPairs(rows: seq<EdgeRow>): set<(string, string)> {
    set i | 0 <= i < |rows| && IsChain(rows[i]) :: (rows[i].srcUid, rows[i].dstUid)
  }

  /** The chain edges whose source can be reached from `start`. */
  ghost function ChainFrom(rows: seq<EdgeRow>, start: string): set<EdgeRow> {
    set e | e in rows && IsChain(e) && Reaches(ChainPairs(rows), start, e.srcUid)
  }

  /** `by_src.get(uid, [])`. */
  function RowsFrom(rows: seq<EdgeRow>, uid: string): (r: seq<EdgeRow>)
    ensures forall e :: e in r <==> e in rows && e.srcUid == uid
  {
    if rows == [] then []
    else
      var n := |rows| - 1;
      var earlier := RowsFrom(rows[..n], uid);
      assert forall e :: e in rows <==> e in rows[..n] || e == rows[n];
      if rows[n].srcUid == uid then earlier + [rows[n]] else earlier
  }

  class Canvas {
    const page: Page
    var nodes: seq<Node>
    var edges: seq<Drawn>

    constructor (page: Page)
      ensures this.page == page && State() == Picture([], [])
    {
      this.page := page;
      nodes, edges := [], [];
    }

    ghost function State(): Picture
      reads this
    {
      Picture(nodes, edges)
    }

    method AddNode(nodeType: string, uid: string)
      requires AreEndsDrawn(State())
      modifies this`nodes
      ensures AreEndsDrawn(State())
      ensures State() == WithNode(old(State()), NodeOf(page, nodeType, uid))
    {
      var id := NodeId(nodeType, uid);
      if exists i :: 0 <= i < |nodes| && nodes[i].id == id {
        return;
      }
      nodes := nodes + [NodeOf(page, nodeType, uid)];
      forall i | 0 <= i < |edges| ensures HasNode(State(), edges[i].source) && HasNode(State(), edges[i].target) {
        NodesGrow(old(State()), State(), edges[i].source);
        NodesGrow(old(State()), State(), edges[i].target);
      }
    }

    method AddEdge(e: EdgeRow)
      requires IsWellDrawn(State(), page)
      modifies this
      ensures IsWellDrawn(State(), page) && old(nodes) <= nodes
      ensures edges == if HasEdge(old(State()), EdgeId(e)) then old(edges) else old(edges) + [DrawnOf(page, e)]
    {
      if exists i :: 0 <= i < |edges| && edges[i].id == EdgeId(e) {
        return;
      }
      AddNode(e.srcType, e.srcUid);
      AddNode(e.dstType, e.dstUid);
      EdgeDrawn(old(State()), State(), page, e);
      edges := edges + [DrawnOf(page, e)];
    }

    method DrawOne(e: EdgeRow, ghost wanted: set<EdgeRow>)
      requires IsWellDrawn(State(), page) && DrawsExactly(State(), Drawing(page), wanted)
      modifies this
      ensures IsWellDrawn(State(), page) && old(nodes) <= nodes
      ensures DrawsExactly(State(), Drawing(page), wanted + {e})
    {
      AddEdge(e);
      StillExact(old(State()), State(), Drawing(page), wanted, e);
    }

    /** `add_policy_chain`: a depth-first walk over a frontier. */
    method AddPolicyChain(rows: seq<EdgeRow>, start: string, ghost wanted: set<EdgeRow>)
      requires IsWellDrawn(State(), page) && DrawsExactly(State(), Drawing(page), wanted)
      modifies this
      ensures IsWellDrawn(State(), page) && old(nodes) <= nodes
      ensures DrawsExactly(State(), Drawing(page), wanted + ChainFrom(rows, start))
    {
      var frontier := [start];
      var seen := {start};
      ghost var done: set<EdgeRow> := {};
      ReachesSelf(ChainPairs(rows), start);
      assert wanted + done == wanted;
      while frontier != []
        invariant IsWellDrawn(State(), page) && old(nodes) <= nodes
        invariant DrawsExactly(State(), Drawing(page), wanted + done)
        invariant IsWalk(rows, start, frontier, seen, done)
        decreases Unseen(rows, start, seen), |frontier|
      {
        frontier, seen, done := Visit(rows, start, frontier, seen, wanted, done);
      }
      WalkIsDone(rows, start, seen, done);
    }

    /** One turn of the loop: takes the last uid off the frontier. */
    method Visit(rows: seq<EdgeRow>, start: string, frontier: seq<string>, seen: set<string>,
        ghost wanted: set<EdgeRow>, ghost done: set<EdgeRow>)
        returns (frontier': seq<string>, seen': set<string>, ghost done': set<EdgeRow>)
      requires frontier != [] && IsWalk(rows, start, frontier, seen, done)
      requires IsWellDrawn(State(), page) && DrawsExactly(State(), Drawing(page), wanted + done)
      modifies this
      ensures IsWellDrawn(State(), page) && old(nodes) <= nodes
      ensures DrawsExactly(State(), Drawing(page), wanted + done')
      ensures IsWalk(rows, start, frontier', seen', done')
      ensures Unseen(rows, start, seen') < Unseen(rows, start, seen)
              || (seen' == seen && |frontier'| < |frontier|)
    {
      var uid := frontier[|frontier| - 1];
      var found: seq<string>;
      found, seen' := DrawChainOf(rows, uid, seen, wanted + done);
      done' := done + ChainAt(rows, uid);
      frontier' := frontier[..|frontier| - 1] + found;
      WalkVisits(rows, start, frontier, uid, found, seen, done);
      Regroup(wanted, done, ChainAt(rows, uid));
    }

    /** The inner loop: draws the chain edges of one uid, and lists the uids seen
        for the first time. */
    method DrawChainOf(rows: seq<EdgeRow>, uid: string, seen: set<string>, ghost wanted: set<EdgeRow>)
        returns (found: seq<string>, seen': set<string>)
      requires IsWellDrawn(State(), page) && DrawsExactly(State(), Drawing(page), wanted)
      modifies this
      ensures IsWellDrawn(State(), page) && old(nodes) <= nodes
      ensures DrawsExactly(State(), Drawing(page), wanted + ChainAt(rows, uid))
      ensures seen' == seen + Targets(rows, uid)
      ensures forall v :: v in found <==> v in Targets(rows, uid) && v !in seen
    {
      var out := RowsFrom(rows, uid);
      found, seen' := [], seen;
      assert wanted + ChainIn(out[..0]) == wanted;
      for i := 0 to |out|
        invariant IsWellDrawn(State(), page) && old(nodes) <= nodes
        invariant DrawsExactly(State(), Drawing(page), wanted + ChainIn(out[..i]))
        invariant IsScan(out[..i], seen, seen', found)
      {
        var e := out[i];
        ChainStep(out, i, wanted);
        ScanStep(out, i, seen, seen', found);
        if IsChain(e) {
          DrawOne(e, wanted + ChainIn(out[..i]));
          if e.dstUid !in seen' {
            seen' := seen' + {e.dstUid};
            found := found + [e.dstUid];
          }
        }
      }
      assert out[..|out|] == out;
      ScanEnds(rows, uid, out, seen, seen', found);
    }
  }

  // ----- the walk -----

  function ChainIn(rows: seq<EdgeRow>): set<EdgeRow> {
    set e | e in rows && IsChain(e)
  }

  function TargetsIn(rows: seq<EdgeRow>): set<string> {
    set e | e in rows && IsChain(e) :: e.dstUid
  }

  /** The chain edges out of `uid`. */
  function ChainAt(rows: seq<EdgeRow>, uid: string): set<EdgeRow> {
    set e | e in rows && IsChain(e) && e.srcUid == uid
  }

  function Targets(rows: seq<EdgeRow>, uid: string): set<string> {
    set e | e in rows && IsChain(e) && e.srcUid == uid :: e.dstUid
  }

  function Uids(rows: seq<EdgeRow>, start: string): set<string> {
    (set e | e in rows :: e.dstUid) + {start}
  }

  ghost function Unseen(rows: seq<EdgeRow>, start: string, seen: set<string>): nat {
    |Uids(rows, start) - seen|
  }

  /** Everything seen is reachable; the chain edges of everything seen and no
      longer on the frontier are drawn, and lead to something seen. */
  ghost predicate IsWalk(rows: seq<EdgeRow>, start: string, frontier: seq<string>, seen: set<string>, done: set<EdgeRow>) {
    && start in seen
    && (forall v :: v in frontier ==> v in seen)
    && seen <= Uids(rows, start)
    && (forall v :: v in seen ==> Reaches(ChainPairs(rows), start, v))
    && (forall e :: e in done ==> e in rows && IsChain(e) && e.srcUid in seen)
    && (forall e :: e in rows && IsChain(e) && e.srcUid in seen && e.srcUid !in frontier ==> e in done)
    && (forall e :: e in done ==> e.dstUid in seen)
  }

  lemma WalkGrows(rows: seq<EdgeRow>, start: string, frontier: seq<string>, uid: string, found: seq<string>,
      seen: set<string>, done: set<EdgeRow>)
    requires IsWalk(rows, start, frontier + [uid], seen, done)
    requires forall v :: v in found <==> v in Targets(rows, uid) && v !in seen
    ensures IsWalk(rows, start, frontier + found, seen + Targets(rows, uid), done + ChainAt(rows, uid))
    ensures found != [] ==> Unseen(rows, start, seen + Targets(rows, uid)) < Unseen(rows, start, seen)
    ensures found == [] ==> seen + Targets(rows, uid) == seen
  {
    var seen' := seen + Targets(rows, uid);
    assert uid in frontier + [uid] && forall v :: v in frontier ==> v in frontier + [uid];
    forall v | v in Targets(rows, uid) ensures v in Uids(rows, start) && Reaches(ChainPairs(rows), start, v) {
      var e :| e in rows && IsChain(e) && e.srcUid == uid && e.dstUid == v;
      PairOf(rows, e);
      ReachesStep(ChainPairs(rows), start, uid, v);
    }
    forall e | e in rows && IsChain(e) && e.srcUid in seen' && e.srcUid !in frontier + found
      ensures e in done + ChainAt(rows, uid)
    {
      assert e.srcUid in seen;
      assert e.srcUid == uid || e.srcUid !in frontier + [uid];
    }
    if found != [] {
      var v := found[0];
      assert v in Uids(rows, start) - seen && v !in Uids(rows, start) - seen';
      Fewer(Uids(rows, start) - seen', Uids(rows, start) - seen, v);
    } else {
      assert forall v :: v in Targets(rows, uid) ==> v in found || v in seen;
    }
  }

  lemma WalkVisits(rows: seq<EdgeRow>, start: string, frontier: seq<string>, uid: string, found: seq<string>,
      seen: set<string>, done: set<EdgeRow>)
    requires frontier != [] && uid == frontier[|frontier| - 1] && IsWalk(rows, start, frontier, seen, done)
    requires forall v :: v in found <==> v in Targets(rows, uid) && v !in seen
    ensures IsWalk(rows, start, frontier[..|frontier| - 1] + found, seen + Targets(rows, uid), done + ChainAt(rows, uid))
    ensures Unseen(rows, start, seen + Targets(rows, uid)) < Unseen(rows, start, seen)
            || (seen + Targets(rows, uid) == seen && found == [])
  {
    assert frontier == frontier[..|frontier| - 1] + [uid];
    WalkGrows(rows, start, frontier[..|frontier| - 1], uid, found, seen, done);
  }

  lemma Regroup(a: set<EdgeRow>, b: set<EdgeRow>, c: set<EdgeRow>)
    ensures a + b + c == a + (b + c)
  {
  }

  lemma Fewer(a: set<string>, b: set<string>, v: string)
    requires a <= b && v in b && v !in a
    ensures |a| < |b|
  {
    assert a <= b - {v};
    assert b == (b - {v}) + {v};
    Smaller(a, b - {v});
  }

  lemma {:induction false} Smaller(a: set<string>, b: set<string>)
    requires a <= b
    ensures |a| <= |b|
  {
    if a != {} {
      var x :| x in a;
      Smaller(a - {x}, b - {x});
    }
  }

  /** With the frontier empty, what is drawn is what can be reached. */
  lemma WalkIsDone(rows: seq<EdgeRow>, start: string, seen: set<string>, done: set<EdgeRow>)
    requires IsWalk(rows, start, [], seen, done)
    ensures done == ChainFrom(rows, start)
  {
    var pairs := ChainPairs(rows);
    forall u, v | (u, v) in pairs && u in seen ensures v in seen {
      var i :| 0 <= i < |rows| && IsChain(rows[i]) && (rows[i].srcUid, rows[i].dstUid) == (u, v);
      assert rows[i] in done;
    }
    forall v | Reaches(pairs, start, v) ensures v in seen {
      ReachesStaysIn(pairs, start, v, seen);
    }
  }

  lemma PairOf(rows: seq<EdgeRow>, e: EdgeRow)
    requires e in rows && IsChain(e)
    ensures (e.srcUid, e.dstUid) in ChainPairs(rows)
  {
  }

  lemma ChainStep(rows: seq<EdgeRow>, i: nat, wanted: set<EdgeRow>)
    requires i < |rows|
    ensures IsChain(rows[i]) ==> wanted + ChainIn(rows[..i + 1]) == wanted + ChainIn(rows[..i]) + {rows[i]}
    ensures !IsChain(rows[i]) ==> wanted + ChainIn(rows[..i + 1]) == wanted + ChainIn(rows[..i])
  {
    assert rows[..i + 1] == rows[..i] + [rows[i]];
    if IsChain(rows[i]) {
      assert ChainIn(rows[..i + 1]) == ChainIn(rows[..i]) + {rows[i]};
    } else {
      assert ChainIn(rows[..i + 1]) == ChainIn(rows[..i]);
    }
  }

  /** What the inner loop has seen and found after some rows. */
  ghost predicate IsScan(rows: seq<EdgeRow>, start: set<string>, seen: set<string>, found: seq<string>) {
    && seen == start + TargetsIn(rows)
    && forall v :: v in found <==> v in TargetsIn(rows) && v !in start
  }

  lemma ScanStep(rows: seq<EdgeRow>, i: nat, start: set<string>, seen: set<string>, found: seq<string>)
    requires i < |rows| && IsScan(rows[..i], start, seen, found)
    ensures var v := rows[i].dstUid;
      if !IsChain(rows[i]) || v in seen then IsScan(rows[..i + 1], start, seen, found)
      else IsScan(rows[..i + 1], start, seen + {v}, found + [v])
  {
  }

  /** The rows out of one uid, all scanned. */
  lemma ScanEnds(rows: seq<EdgeRow>, uid: string, out: seq<EdgeRow>, start: set<string>, seen: set<string>, found: seq<string>)
    requires (forall e :: e in out <==> e in rows && e.srcUid == uid) && IsScan(out, start, seen, found)
    ensures ChainIn(out) == ChainAt(rows, uid) && seen == start + Targets(rows, uid)
    ensures forall v :: v in found <==> v in Targets(rows, uid) && v !in start
  {
    assert TargetsIn(out) == Targets(rows, uid);
  }

  // ----- drawing -----

  lemma NodesGrow(before: Picture, after: Picture, id: string)
    requires before.nodes <= after.nodes && HasNode(before, id)
    ensures HasNode(after, id)
  {
  }

  lemma NewNodeDrawn(p: Picture, node: Node)
    ensures HasNode(WithNode(p, node), node.id)
  {
    if !HasNode(p, node.id) {
      assert WithNode(p, node).nodes[|p.nodes|].id == node.id;
    }
  }

  lemma StillTidy(before: Picture, after: Picture, page: Page, e: EdgeRow)
    requires IsTidy(before, page) && after.edges == before.edges + [DrawnOf(page, e)]
    requires before.nodes <= after.nodes
    requires forall i :: |before.nodes| <= i < |after.nodes| ==>
      after.nodes[i] == NodeOf(page, e.srcType, e.srcUid) || after.nodes[i] == NodeOf(page, e.dstType, e.dstUid)
    ensures IsTidy(after, page)
  {
    var last := after.edges[|before.edges|];
    assert last == DrawnOf(page, e);
    forall i | 0 <= i < |after.nodes|
      ensures after.nodes[i] == NodeOf(page, after.nodes[i].nodeType, after.nodes[i].uid)
      ensures IsNeeded(after, page, after.nodes[i].id)
    {
      if i < |before.nodes| {
        var id := before.nodes[i].id;
        assert IsNeeded(before, page, id);
        if k :| 0 <= k < |before.edges| && (before.edges[k].source == id || before.edges[k].target == id) {
          assert after.edges[k] == before.edges[k];
        }
      }
    }
  }

  lemma EdgeAdded(p: Picture, d: Drawn)
    requires AreEndsDrawn(p) && !HasEdge(p, d.id) && HasNode(p, d.source) && HasNode(p, d.target)
    ensures AreEndsDrawn(Picture(p.nodes, p.edges + [d]))
  {
  }

  /** A new edge over a picture to which its ends were added. */
  lemma EdgeDrawn(before: Picture, ends: Picture, page: Page, e: EdgeRow)
    requires IsWellDrawn(before, page) && !HasEdge(before, EdgeId(e)) && AreEndsDrawn(ends)
    requires ends == WithNode(WithNode(before, NodeOf(page, e.srcType, e.srcUid)), NodeOf(page, e.dstType, e.dstUid))
    ensures IsWellDrawn(Picture(ends.nodes, ends.edges + [DrawnOf(page, e)]), page) && before.nodes <= ends.nodes
  {
    var source, target := NodeOf(page, e.srcType, e.srcUid), NodeOf(page, e.dstType, e.dstUid);
    NewNodeDrawn(before, source);
    NewNodeDrawn(WithNode(before, source), target);
    NodesGrow(WithNode(before, source), ends, source.id);
    EdgeAdded(ends, DrawnOf(page, e));
    StillTidy(before, Picture(ends.nodes, ends.edges + [DrawnOf(page, e)]), page, e);
  }

  lemma EdgesGrow(before: Picture, after: Picture, id: string)
    requires before.edges <= after.edges && HasEdge(before, id)
    ensures HasEdge(after, id)
  {
  }

  lemma StillExact(before: Picture, after: Picture, draw: EdgeRow -> Drawn, wanted: set<EdgeRow>, e: EdgeRow)
    requires DrawsExactly(before, draw, wanted)
    requires after.edges == if HasEdge(before, draw(e).id) then before.edges else before.edges + [draw(e)]
    ensures DrawsExactly(after, draw, wanted + {e})
  {
    if !HasEdge(before, draw(e).id) {
      assert after.edges[|before.edges|].id == draw(e).id;
    }
    forall w | w in wanted + {e} ensures HasEdge(after, draw(w).id) {
      if HasEdge(before, draw(w).id) {
        EdgesGrow(before, after, draw(w).id);
      }
    }
    forall i | 0 <= i < |after.edges| ensures IsOneOf(after.edges[i], draw, wanted + {e}) {
      if i < |before.edges| {
        assert IsOneOf(before.edges[i], draw, wanted);
        var w :| w in wanted && before.edges[i] == draw(w);
        assert w in wanted + {e};
      } else {
        assert e in wanted + {e};
      }
    }
  }

  // ----- the page -----

  /** The uids whose policy chains are drawn besides the focal one: those on the
      recorded path, or every hop target if there is none. */
  predicate IsExpanded(page: Page, uid: string) {
    page.path.Some? ==> page.path.value != [] && uid in page.path.value[1..]
  }

  function Hops(rows: seq<EdgeRow>, focus: string): set<EdgeRow> {
    set e | e in rows && IsHop(e) && e.srcUid == focus
  }

  /** The edges of the page: the focal chain, the hops out of the focal
      principal, and the chains of the hop targets that are expanded. */
  ghost function Wanted(page: Page, rows: seq<EdgeRow>): set<EdgeRow> {
    ChainFrom(rows, page.focus) + Hops(rows, page.focus)
    + set e, h | h in Hops(rows, page.focus) && IsExpanded(page, h.dstUid) && e in ChainFrom(rows, h.dstUid) :: e
  }

  method DrawHops(canvas: Canvas, rows: seq<EdgeRow>, ghost wanted: set<EdgeRow>) returns (targets: seq<string>)
    requires IsWellDrawn(canvas.State(), canvas.page) && DrawsExactly(canvas.State(), Drawing(canvas.page), wanted)
    modifies canvas
    ensures IsWellDrawn(canvas.State(), canvas.page) && old(canvas.nodes) <= canvas.nodes
    ensures DrawsExactly(canvas.State(), Drawing(canvas.page), wanted + Hops(rows, canvas.page.focus))
    ensures AreTargets(targets, Hops(rows, canvas.page.focus))
  {
    var out := RowsFrom(rows, canvas.page.focus);
    targets := [];
    assert wanted + HopsIn(out[..0]) == wanted;
    for i := 0 to |out|
      invariant IsWellDrawn(canvas.State(), canvas.page) && old(canvas.nodes) <= canvas.nodes
      invariant DrawsExactly(canvas.State(), Drawing(canvas.page), wanted + HopsIn(out[..i]))
      invariant AreTargets(targets, HopsIn(out[..i]))
    {
      var e := out[i];
      HopsGrow(out, i, wanted);
      TargetsGrow(out, i, targets);
      if IsHop(e) {
        canvas.DrawOne(e, wanted + HopsIn(out[..i]));
        targets := targets + [e.dstUid];
      }
    }
    assert out[..|out|] == out;
    HopsOfRows(rows, out, canvas.page.focus);
  }

  function HopsIn(rows: seq<EdgeRow>): set<EdgeRow> {
    set e | e in rows && IsHop(e)
  }

  ghost predicate AreTargets(targets: seq<string>, hops: set<EdgeRow>) {
    forall v :: v in targets <==> exists h :: h in hops && h.dstUid == v
  }

  lemma HopsGrow(rows: seq<EdgeRow>, i: nat, wanted: set<EdgeRow>)
    requires i < |rows|
    ensures IsHop(rows[i]) ==> wanted + HopsIn(rows[..i + 1]) == wanted + HopsIn(rows[..i]) + {rows[i]}
    ensures !IsHop(rows[i]) ==> wanted + HopsIn(rows[..i + 1]) == wanted + HopsIn(rows[..i])
  {
    HopsStep(rows, i);
  }

  lemma HopsStep(rows: seq<EdgeRow>, i: nat)
    requires i < |rows|
    ensures IsHop(rows[i]) ==> HopsIn(rows[..i + 1]) == HopsIn(rows[..i]) + {rows[i]}
    ensures !IsHop(rows[i]) ==> HopsIn(rows[..i + 1]) == HopsIn(rows[..i])
  {
    assert rows[..i + 1] == rows[..i] + [rows[i]];
  }

  lemma TargetsGrow(rows: seq<EdgeRow>, i: nat, targets: seq<string>)
    requires i < |rows| && AreTargets(targets, HopsIn(rows[..i]))
    ensures IsHop(rows[i]) ==> AreTargets(targets + [rows[i].dstUid], HopsIn(rows[..i + 1]))
    ensures !IsHop(rows[i]) ==> AreTargets(targets, HopsIn(rows[..i + 1]))
  {
    HopsStep(rows, i);
    if IsHop(rows[i]) {
      assert rows[i] in HopsIn(rows[..i + 1]);
    }
  }

  lemma HopsOfRows(rows: seq<EdgeRow>, out: seq<EdgeRow>, focus: string)
    requires forall e :: e in out <==> e in rows && e.srcUid == focus
    ensures HopsIn(out) == Hops(rows, focus)
  {
  }

  ghost function ChainsOf(rows: seq<EdgeRow>, page: Page, targets: seq<string>): set<EdgeRow> {
    set e, v | v in targets && IsExpanded(page, v) && e in ChainFrom(rows, v) :: e
  }

  method DrawTargets(canvas: Canvas, rows: seq<EdgeRow>, targets: seq<string>, ghost wanted: set<EdgeRow>)
    requires IsWellDrawn(canvas.State(), canvas.page) && DrawsExactly(canvas.State(), Drawing(canvas.page), wanted)
    modifies canvas
    ensures IsWellDrawn(canvas.State(), canvas.page) && old(canvas.nodes) <= canvas.nodes
    ensures DrawsExactly(canvas.State(), Drawing(canvas.page), wanted + ChainsOf(rows, canvas.page, targets))
  {
    NoChains(rows, canvas.page, wanted);
    assert targets[..0] == [];
    for i := 0 to |targets|
      invariant IsWellDrawn(canvas.State(), canvas.page) && old(canvas.nodes) <= canvas.nodes
      invariant DrawsExactly(canvas.State(), Drawing(canvas.page), wanted + ChainsOf(rows, canvas.page, targets[..i]))
    {
      MoreChains(rows, canvas.page, targets, i, wanted);
      if IsExpanded(canvas.page, targets[i]) {
        canvas.AddPolicyChain(rows, targets[i], wanted + ChainsOf(rows, canvas.page, targets[..i]));
      }
    }
    assert targets[..|targets|] == targets;
  }

  lemma NoChains(rows: seq<EdgeRow>, page: Page, wanted: set<EdgeRow>)
    ensures wanted + ChainsOf(rows, page, []) == wanted
  {
  }

  lemma MoreChains(rows: seq<EdgeRow>, page: Page, targets: seq<string>, i: nat, wanted: set<EdgeRow>)
    requires i < |targets|
    ensures IsExpanded(page, targets[i]) ==>
      wanted + ChainsOf(rows, page, targets[..i + 1]) == wanted + ChainsOf(rows, page, targets[..i]) + ChainFrom(rows, targets[i])
    ensures !IsExpanded(page, targets[i]) ==>
      wanted + ChainsOf(rows, page, targets[..i + 1]) == wanted + ChainsOf(rows, page, targets[..i])
  {
    assert targets[..i + 1] == targets[..i] + [targets[i]];
    if IsExpanded(page, targets[i]) {
      assert ChainsOf(rows, page, targets[..i + 1]) == ChainsOf(rows, page, targets[..i]) + ChainFrom(rows, targets[i]);
    } else {
      assert ChainsOf(rows, page, targets[..i + 1]) == ChainsOf(rows, page, targets[..i]);
    }
  }

  lemma WantedByTargets(page: Page, rows: seq<EdgeRow>, targets: seq<string>)
    requires AreTargets(targets, Hops(rows, page.focus))
    ensures ChainFrom(rows, page.focus) + Hops(rows, page.focus) + ChainsOf(rows, page, targets) == Wanted(page, rows)
  {
  }

  /** `principal_graph`: no page for an unknown principal; otherwise exactly the
      wanted edges are drawn, once per id and with both ends, and the focal
      principal is the first node. */
  method PrincipalGraph(principals: set<string>, rows: seq<EdgeRow>, page: Page) returns (drawn: Option<Picture>)
    ensures drawn.None? <==> page.focus !in principals
    ensures drawn.Some? ==>
      && IsWellDrawn(drawn.value, page)
      && DrawsExactly(drawn.value, Drawing(page), Wanted(page, rows))
      && [NodeOf(page, "principal", page.focus)] <= drawn.value.nodes
  {
    if page.focus !in principals {
      return None;
    }
    var canvas := new Canvas(page);
    canvas.AddNode("principal", page.focus);
    canvas.AddPolicyChain(rows, page.focus, {});
    assert {} + ChainFrom(rows, page.focus) == ChainFrom(rows, page.focus);
    var targets := DrawHops(canvas, rows, ChainFrom(rows, page.focus));
    DrawTargets(canvas, rows, targets, ChainFrom(rows, page.focus) + Hops(rows, page.focus));
    WantedByTargets(page, rows, targets);
    drawn := Some(Picture(canvas.nodes, canvas.edges));
  }

  // ----- the page, edge by edge -----

  predicate IsPolicyHop(e: EdgeRow) {
    e.relation == "HAS_POLICY" || e.relation == "GRANTS_ACTION" || e.relation == "ON_RESOURCE"
  }

  predicate IsPrincipalHop(e: EdgeRow) {
    e.relation == "CAN_ASSUME" || e.relation == "CAN_ESCALATE"
  }

  lemma RelationsExactly(e: EdgeRow)
    ensures IsChain(e) <==> IsPolicyHop(e)
    ensures IsHop(e) <==> IsPrincipalHop(e)
  {
  }

  /** `uids` follows rows of the policy relations from `start` to `uid`. */
  ghost predicate ChainLeads(rows: seq<EdgeRow>, uids: seq<string>, start: string, uid: string) {
    && uids != [] && uids[0] == start && uids[|uids| - 1] == uid
    && forall i :: 0 <= i < |uids| - 1 ==> HasChainRow(rows, uids[i], uids[i + 1])
  }

  ghost predicate HasChainRow(rows: seq<EdgeRow>, src: string, dst: string) {
    exists e :: e in rows && IsPolicyHop(e) && e.srcUid == src && e.dstUid == dst
  }

  /** A policy row whose source the chain of `start` leads to. */
  ghost predicate IsInChain(rows: seq<EdgeRow>, start: string, e: EdgeRow) {
    e in rows && IsPolicyHop(e) && exists uids :: ChainLeads(rows, uids, start, e.srcUid)
  }

  lemma PairsExactly(rows: seq<EdgeRow>, src: string, dst: string)
    ensures (src, dst) in ChainPairs(rows) <==> HasChainRow(rows, src, dst)
  {
    if HasChainRow(rows, src, dst) {
      var e :| e in rows && IsPolicyHop(e) && e.srcUid == src && e.dstUid == dst;
      RelationsExactly(e);
      PairOf(rows, e);
    }
    if (src, dst) in ChainPairs(rows) {
      var i :| 0 <= i < |rows| && IsChain(rows[i]) && (rows[i].srcUid, rows[i].dstUid) == (src, dst);
      RelationsExactly(rows[i]);
      assert rows[i] in rows;
    }
  }

  lemma ChainLeadsExactly(rows: seq<EdgeRow>, uids: seq<string>, start: string, uid: string)
    ensures ChainLeads(rows, uids, start, uid) <==> WalkFromTo(ChainPairs(rows), uids, start, uid)
  {
    forall i | 0 <= i < |uids| - 1 ensures (uids[i], uids[i + 1]) in ChainPairs(rows) <==> HasChainRow(rows, uids[i], uids[i + 1]) {
      PairsExactly(rows, uids[i], uids[i + 1]);
    }
  }

  lemma ChainExactly(rows: seq<EdgeRow>, start: string, e: EdgeRow)
    ensures e in ChainFrom(rows, start) <==> IsInChain(rows, start, e)
  {
    RelationsExactly(e);
    forall uids ensures ChainLeads(rows, uids, start, e.srcUid) <==> WalkFromTo(ChainPairs(rows), uids, start, e.srcUid) {
      ChainLeadsExactly(rows, uids, start, e.srcUid);
    }
  }

  /** The chain of a hop target is drawn if no path is recorded, or the target
      is on it after its first uid. */
  ghost predicate IsShown(page: Page, uid: string) {
    page.path.None? || exists i :: 1 <= i < |page.path.value| && page.path.value[i] == uid
  }

  lemma ExpandedExactly(page: Page, uid: string)
    ensures IsExpanded(page, uid) <==> IsShown(page, uid)
  {
    if page.path.Some? {
      var path := page.path.value;
      if i :| 1 <= i < |path| && path[i] == uid {
        assert path[1..][i - 1] == uid;
      }
      if path != [] && uid in path[1..] {
        var i :| 0 <= i < |path[1..]| && path[1..][i] == uid;
        assert path[i + 1] == uid;
      }
    }
  }

  /** The rows of the page: the focal chain, the hops out of the focal principal,
      and the chains of the hop targets that are shown. */
  lemma WantedExactly(page: Page, rows: seq<EdgeRow>, e: EdgeRow)
    ensures e in Wanted(page, rows) <==>
      || IsInChain(rows, page.focus, e)
      || (e in rows && IsPrincipalHop(e) && e.srcUid == page.focus)
      || exists h :: h in rows && IsPrincipalHop(h) && h.srcUid == page.focus && IsShown(page, h.dstUid)
                     && IsInChain(rows, h.dstUid, e)
  {
    ChainExactly(rows, page.focus, e);
    RelationsExactly(e);
    forall h ensures h in Hops(rows, page.focus) && IsExpanded(page, h.dstUid) && e in ChainFrom(rows, h.dstUid)
      <==> h in rows && IsPrincipalHop(h) && h.srcUid == page.focus && IsShown(page, h.dstUid) && IsInChain(rows, h.dstUid, e)
    {
      RelationsExactly(h);
      ExpandedExactly(page, h.dstUid);
      ChainExactly(rows, h.dstUid, e);
    }
  }

  /** A drawn node is named by kind and uid, and is the focus exactly when it has
      the uid of the page. */
  lemma NodesExactly(p: Picture, page: Page, i: nat)
    requires IsWellDrawn(p, page) && i < |p.nodes|
    ensures p.nodes[i].id == p.nodes[i].nodeType + ":" + p.nodes[i].uid
    ensures p.nodes[i].isFocus <==> p.nodes[i].uid == page.focus
  {
    assert p.nodes[i] == NodeOf(page, p.nodes[i].nodeType, p.nodes[i].uid);
  }

  /** The recorded path goes from one uid straight to the other. */
  ghost predicate IsHopOfPath(page: Page, src: string, dst: string) {
    page.path.Some? && exists i :: 0 < i < |page.path.value| && page.path.value[i - 1] == src && page.path.value[i] == dst
  }

  /** What is drawn for a row: both ends as kind and uid, the relation, the
      sensitivity, and whether the recorded path takes the hop. */
  lemma DrawnExactly(page: Page, e: EdgeRow)
    ensures var d := Drawing(page)(e);
      && d.source == e.srcType + ":" + e.srcUid && d.target == e.dstType + ":" + e.dstUid
      && d.id == d.source + "->" + d.target + ":" + e.relation
      && d.relation == e.relation && d.sensitive == e.sensitive
      && (d.onPath <==> IsHopOfPath(page, e.srcUid, e.dstUid))
  {
    if page.path.Some? {
      var path := page.path.value;
      if i :| 0 < i < |path| && path[i - 1] == e.srcUid && path[i] == e.dstUid {
        assert path[i - 1] == e.srcUid && path[i - 1 + 1] == e.dstUid;
      }
      if i :| 0 <= i < |path| - 1 && path[i] == e.srcUid && path[i + 1] == e.dstUid {
        assert path[i + 1 - 1] == e.srcUid;
      }
    }
  }
}
