/** `app/analysis/graph.py`: blast radius and escalation paths over the stored
    permission graph. */
module PermissionGraph {
  import opened Ordering
  import opened Text
  import opened Policy
  import opened Records
  import opened GraphEdges
  import opened Digraph
  import opened Rounding

  /** What `_score_principal` is given about the whole dataset. */
  datatype Model = Model(
    g: PairMap,
    granted: map<string, set<string>>,
    selfAttach: map<string, string>)

  datatype EscalationPath = EscalationPath(principal: string, hops: seq<string>, via: string, target: string)

  type Escalations = map<string, seq<EscalationPath>>

  datatype GraphResult = GraphResult(edges: seq<GraphEdge>, escalations: Escalations)

  // ----- reading the model -----

  /** Node pairs stored with CAN_ASSUME. */
  function AssumePairs(g: PairMap): set<(Node, Node)> {
    set pair | pair in g && g[pair].relation == CanAssume
  }

  /** Node pairs stored with CAN_ASSUME or CAN_ESCALATE. */
  function EscapePairs(g: PairMap): set<(Node, Node)> {
    set pair | pair in g && g[pair].relation in {CanAssume, CanEscalate}
  }

  function GrantedAt(m: Model, uid: string): set<string> {
    if uid in m.granted then m.granted[uid] else {}
  }

  function DirectAdmins(m: Model): set<Node> {
    set uid | uid in m.granted && "*" in m.granted[uid] :: P(uid)
  }

  function Admins(m: Model): set<Node> {
    DirectAdmins(m) + set uid | uid in m.selfAttach :: P(uid)
  }

  /** The uids of the nodes other than `uid`'s own that `pairs` lead to. */
  ghost function Closure(pairs: set<(Node, Node)>, uid: string): set<string> {
    set v | v in Heads(pairs) && v != P(uid) && Reaches(pairs, P(uid), v) :: v.uid
  }

  ghost function Assumable(m: Model, uid: string): set<string> {
    Closure(AssumePairs(m.g), uid)
  }

  ghost function UnionActions(m: Model, uid: string): set<string> {
    GrantedAt(m, uid) + set v, a | v in Assumable(m, uid) && a in GrantedAt(m, v) :: a
  }

  /** An admin-equivalent principal other than `uid` is reachable from it. */
  ghost predicate ReachesOtherAdmin(m: Model, uid: string) {
    exists t :: t in Admins(m) && t != P(uid) && Reaches(EscapePairs(m.g), P(uid), t)
  }

  ghost predicate CanReachAdmin(m: Model, uid: string) {
    P(uid) in Admins(m) || ReachesOtherAdmin(m, uid)
  }

  /** A path is recorded unless the principal holds `*` itself. */
  ghost predicate MustRecord(m: Model, uid: string) {
    CanReachAdmin(m, uid) && P(uid) !in DirectAdmins(m)
  }

  // ----- the score -----

  function Norm(x: nat, cap: nat): real
    requires cap > 0
  {
    (if x < cap then x else cap) as real / cap as real
  }

  function Blast(sensitive: nat, actions: nat, admin: bool, roles: nat): real {
    100.0 * (0.45 * Norm(sensitive, 25) + 0.25 * Norm(actions, 300)
             + 0.20 * (if admin then 1.0 else 0.0) + 0.10 * Norm(roles, 10))
  }

  function BlastScore(sensitive: nat, actions: nat, admin: bool, roles: nat): int {
    Clamp(Blast(sensitive, actions, admin, roles))
  }

  ghost function ScoreOf(m: Model, uid: string): int {
    BlastScore(|SensitiveAmong(UnionActions(m, uid))|, |UnionActions(m, uid)|,
               CanReachAdmin(m, uid), |Assumable(m, uid)|)
  }

  /** The three fields written back onto a principal. */
  ghost predicate Scored(m: Model, p: PrincipalRecord)
    reads p
  {
    && p.reachableActions == |UnionActions(m, p.info.uid)|
    && p.reachableSensitive == |SensitiveAmong(UnionActions(m, p.info.uid))|
    && p.blastRadiusScore == ScoreOf(m, p.info.uid)
  }

  // ----- the recorded path -----

  function NodesOf(hops: seq<string>): seq<Node> {
    seq(|hops|, i requires 0 <= i < |hops| => P(hops[i]))
  }

  function UidsOf(nodes: seq<Node>): seq<string> {
    seq(|nodes|, i requires 0 <= i < |nodes| => nodes[i].uid)
  }

  /** The label of one hop: its `via`, else its relation. */
  function HopLabel(attrs: EdgeAttrs): string {
    if attrs.via.Some? && attrs.via.value != "" then attrs.via.value else RelationName(attrs.relation)
  }

  function HopLabels(g: PairMap, nodes: seq<Node>): seq<string>
    requires forall i :: 0 <= i < |nodes| - 1 ==> (nodes[i], nodes[i + 1]) in g
  {
    if |nodes| <= 1 then []
    else [HopLabel(g[(nodes[0], nodes[1])])] + HopLabels(g, nodes[1..])
  }

  /** `nodes` is a shortest walk to an admin-equivalent principal other than
      `uid`; no other such principal is nearer, and none as near has a smaller
      stored name. */
  ghost predicate NearestAdmin(m: Model, uid: string, nodes: seq<Node>) {
    var edges := EscapePairs(m.g);
    && Walk(edges, nodes)
    && nodes[0] == P(uid)
    && var target := nodes[|nodes| - 1];
    && target in Admins(m) && target != P(uid)
    && forall t, q :: t in Admins(m) && t != P(uid) && WalkFromTo(edges, q, P(uid), t) ==>
         |nodes| <= |q| && (|nodes| == |q| ==> StrLeq(Render(target), Render(t)))
  }

  lemma EscapeWalkStored(g: PairMap, nodes: seq<Node>)
    requires Walk(EscapePairs(g), nodes)
    ensures forall i :: 0 <= i < |nodes| - 1 ==> (nodes[i], nodes[i + 1]) in g
  {
  }

  ghost predicate RecordsNearest(m: Model, uid: string, path: EscalationPath, nodes: seq<Node>) {
    && NearestAdmin(m, uid, nodes)
    && path.hops == UidsOf(nodes)
    && path.target == nodes[|nodes| - 1].uid
    && (forall i :: 0 <= i < |nodes| - 1 ==> (nodes[i], nodes[i + 1]) in m.g)
    && path.via == Join(HopLabels(m.g, nodes), ',')
  }

  /** What a path recorded for `uid` says: the nearest other admin-equivalent
      principal if there is one, else the principal's own self-attach primitive. */
  ghost predicate IsPathFor(m: Model, uid: string, path: EscalationPath) {
    && path.principal == uid
    && if ReachesOtherAdmin(m, uid) then
         exists nodes :: RecordsNearest(m, uid, path, nodes)
       else
         && path.hops == [uid] && path.target == uid
         && uid in m.selfAttach && path.via == m.selfAttach[uid]
  }

  // ----- `_shortest_of` and `_score_principal` -----

  predicate NodeLeq(a: Node, b: Node) {
    StrLeq(Render(a), Render(b))
  }

  lemma NodeLeqIsTotalOrder()
    ensures TotalOrder(NodeLeq)
  {
    StrLeqIsTotalOrder();
    forall a, b | NodeLeq(a, b) && NodeLeq(b, a) ensures a == b {
      RenderInjective(a, b);
    }
  }

  /** Nearest of `targets`; the first of them when several are equally near. */
  method ShortestOf(edges: set<(Node, Node)>, source: Node, targets: seq<Node>)
    returns (best: Option<seq<Node>>)
    ensures best.None? <==> forall t :: t in targets ==> !Reaches(edges, source, t)
    ensures best.Some? ==> exists k :: 0 <= k < |targets| && IsBestOf(edges, source, targets, best.value, k)
  {
    best := None;
    ghost var k := 0;
    for i := 0 to |targets|
      invariant best.None? <==> forall t :: t in targets[..i] ==> !Reaches(edges, source, t)
      invariant best.Some? ==> 0 <= k < i && IsBestOf(edges, source, targets[..i], best.value, k)
    {
      ghost var prefix := targets[..i + 1];
      assert prefix == targets[..i] + [targets[i]];
      var path := ShortestPath(edges, source, targets[i]);
      if path.Some? && (best.None? || |path.value| < |best.value|) {
        forall j, q | 0 <= j < |prefix| && WalkFromTo(edges, q, source, prefix[j])
          ensures |path.value| <= |q| && (|path.value| == |q| ==> i <= j)
        {
          if j < i {
            assert targets[..i][j] in targets[..i];
            assert Reaches(edges, source, targets[..i][j]);
          }
        }
        assert WalkFromTo(edges, path.value, source, targets[i]);
        best, k := path, i;
      } else if best.Some? {
        forall j, q | 0 <= j < |prefix| && WalkFromTo(edges, q, source, prefix[j])
          ensures |best.value| <= |q| && (|best.value| == |q| ==> k <= j)
        {
          if j < i {
            assert targets[..i][j] == prefix[j];
          } else {
            assert Reaches(edges, source, targets[i]);
          }
        }
      }
    }
    assert targets[..|targets|] == targets;
  }

  ghost predicate IsBestOf(edges: set<(Node, Node)>, source: Node, targets: seq<Node>, path: seq<Node>, k: nat)
    requires k < |targets|
  {
    && WalkFromTo(edges, path, source, targets[k])
    && forall j, q :: 0 <= j < |targets| && WalkFromTo(edges, q, source, targets[j]) ==>
         |path| <= |q| && (|path| == |q| ==> k <= j)
  }

  lemma BestIsNearest(m: Model, uid: string, targets: seq<Node>, path: seq<Node>, k: nat)
    requires k < |targets| && IsBestOf(EscapePairs(m.g), P(uid), targets, path, k)
    requires forall t :: t in targets <==> t in Admins(m) && t != P(uid) && Reaches(EscapePairs(m.g), P(uid), t)
    requires forall i, j :: 0 <= i < j < |targets| ==> NodeLeq(targets[i], targets[j])
    ensures NearestAdmin(m, uid, path)
  {
    var edges := EscapePairs(m.g);
    assert targets[k] in targets;
    forall t, q | t in Admins(m) && t != P(uid) && WalkFromTo(edges, q, P(uid), t)
      ensures |path| <= |q| && (|path| == |q| ==> StrLeq(Render(targets[k]), Render(t)))
    {
      assert Reaches(edges, P(uid), t);
      var j :| 0 <= j < |targets| && targets[j] == t;
      if k == j {
        LexTotal(CharLeq, Render(t), Render(t));
      } else if k < j {
        assert NodeLeq(targets[k], targets[j]);
      }
    }
  }

  lemma ReachedIsHead(edges: set<(Node, Node)>, u: Node, v: Node)
    requires Reaches(edges, u, v) && v != u
    ensures v in Heads(edges)
  {
    var q :| WalkFromTo(edges, q, u, v);
    assert (q[|q| - 2], q[|q| - 1]) in edges;
  }

  /** Step 1: the uids of the nodes the stored CAN_ASSUME pairs lead to. */
  method AssumableRoles(m: Model, uid: string) returns (uids: set<string>)
    ensures uids == Assumable(m, uid)
  {
    var assumable := Descendants(AssumePairs(m.g), P(uid));
    uids := set v | v in assumable :: v.uid;
    forall v | v in assumable ensures v in Heads(AssumePairs(m.g)) {
      ReachedIsHead(AssumePairs(m.g), P(uid), v);
    }
  }

  /** Step 2: the union of the grants over the principal and `uids`. */
  method UnionOver(m: Model, uid: string, uids: set<string>) returns (union: set<string>)
    ensures union == GrantedAt(m, uid) + set v, a | v in uids && a in GrantedAt(m, v) :: a
  {
    union := GrantedAt(m, uid);
    var rest := uids;
    while rest != {}
      invariant rest <= uids
      invariant union == GrantedAt(m, uid) + set v, a | v in uids - rest && a in GrantedAt(m, v) :: a
    {
      var v :| v in rest;
      union := union + GrantedAt(m, v);
      rest := rest - {v};
    }
  }

  /** The admin-equivalent nodes the principal is or can reach. */
  method AdminTargets(m: Model, uid: string) returns (targets: set<Node>)
    ensures forall t :: t in targets <==>
      t in Admins(m) && (t == P(uid) || Reaches(EscapePairs(m.g), P(uid), t))
  {
    var reachable := Descendants(EscapePairs(m.g), P(uid));
    var selfAsTarget := if P(uid) in Admins(m) then {P(uid)} else {};
    targets := (reachable + selfAsTarget) * Admins(m);
  }

  method ScorePrincipal(m: Model, p: PrincipalRecord, escalations: Escalations) returns (out: Escalations)
    modifies p
    ensures Scored(m, p)
    ensures !MustRecord(m, p.info.uid) ==> out == escalations
    ensures MustRecord(m, p.info.uid) ==>
      exists path :: IsPathFor(m, p.info.uid, path) && out == Appended(escalations, path)
  {
    var uid := p.info.uid;
    var roles := AssumableRoles(m, uid);
    var union := UnionOver(m, uid, roles);
    var adminTargets := AdminTargets(m, uid);
    var canReachAdmin := adminTargets != {};
    CanReachAdminByTargets(m, uid, adminTargets);
    out := escalations;
    if canReachAdmin && P(uid) !in DirectAdmins(m) {
      var path := PathTo(m, uid, adminTargets - {P(uid)});
      out := Appended(escalations, path);
    }
    p.blastRadiusScore := BlastScore(|SensitiveAmong(union)|, |union|, canReachAdmin, |roles|);
    p.reachableActions := |union|;
    p.reachableSensitive := |SensitiveAmong(union)|;
  }

  lemma CanReachAdminByTargets(m: Model, uid: string, targets: set<Node>)
    requires forall t :: t in targets <==>
      t in Admins(m) && (t == P(uid) || Reaches(EscapePairs(m.g), P(uid), t))
    ensures targets != {} <==> CanReachAdmin(m, uid)
  {
  }

  /** `escalations.setdefault(uid, []).append(path)`. */
  function Appended(escalations: Escalations, path: EscalationPath): Escalations {
    escalations[path.principal :=
      (if path.principal in escalations then escalations[path.principal] else []) + [path]]
  }

  /** The branch of `_score_principal` that records a path. */
  method PathTo(m: Model, uid: string, others: set<Node>) returns (path: EscalationPath)
    requires MustRecord(m, uid)
    requires forall t :: t in others <==> t in Admins(m) && t != P(uid) && Reaches(EscapePairs(m.g), P(uid), t)
    ensures IsPathFor(m, uid, path)
  {
    NodeLeqIsTotalOrder();
    var targets := SortSet(others, NodeLeq);
    SortSetIsSorted(others, NodeLeq);
    var hops := ShortestOf(EscapePairs(m.g), P(uid), targets);
    if hops.Some? {
      ghost var k :| 0 <= k < |targets| && IsBestOf(EscapePairs(m.g), P(uid), targets, hops.value, k);
      BestIsNearest(m, uid, targets, hops.value, k);
      EscapeWalkStored(m.g, hops.value);
      assert targets[k] in targets;
      path := EscalationPath(uid, UidsOf(hops.value), Join(HopLabels(m.g, hops.value), ','),
                             hops.value[|hops.value| - 1].uid);
      assert RecordsNearest(m, uid, path, hops.value);
    } else {
      forall t | t in Admins(m) && t != P(uid) ensures !Reaches(EscapePairs(m.g), P(uid), t) {
        assert t in others ==> t in targets;
      }
      path := EscalationPath(uid, [uid], m.selfAttach[uid], uid);
    }
  }

  // ----- `build` -----

  /** `granted_by_principal`, filled in principal order. */
  function GrantedBy(org: Org, principals: seq<PrincipalInfo>): map<string, set<string>> {
    if principals == [] then map[]
    else
      var p := principals[|principals| - 1];
      GrantedBy(org, principals[..|principals| - 1])[p.uid := PrincipalGrants(org, p)]
  }

  function ModelOf(org: Org): Model {
    Model(Store(AllEdges(org)), GrantedBy(org, org.principals), SelfAttach(org, org.principals))
  }

  function Infos(principals: seq<PrincipalRecord>): seq<PrincipalInfo> {
    seq(|principals|, i requires 0 <= i < |principals| => principals[i].info)
  }

  /** How many of the first `n` principals have this uid. */
  function Occurrences(principals: seq<PrincipalInfo>, uid: string): nat {
    if principals == [] then 0
    else Occurrences(principals[..|principals| - 1], uid)
         + if principals[|principals| - 1].uid == uid then 1 else 0
  }

  /** The escalations left by scoring `principals` in turn: one fitting path for
      each of them that must have one, under its uid, and nothing else. */
  ghost predicate Recorded(m: Model, principals: seq<PrincipalInfo>, escalations: Escalations) {
    && (forall uid :: uid in escalations <==> Occurrences(principals, uid) > 0 && MustRecord(m, uid))
    && (forall uid :: uid in escalations ==> |escalations[uid]| == Occurrences(principals, uid))
    && (forall uid, i :: uid in escalations && 0 <= i < |escalations[uid]| ==>
          IsPathFor(m, uid, escalations[uid][i]))
  }

  lemma OneMoreOccurrence(done: seq<PrincipalInfo>, p: PrincipalInfo, uid: string)
    ensures Occurrences(done + [p], uid) == Occurrences(done, uid) + if uid == p.uid then 1 else 0
  {
    assert (done + [p])[..|done|] == done;
  }

  lemma RecordsNothing(m: Model, done: seq<PrincipalInfo>, p: PrincipalInfo, escalations: Escalations)
    requires Recorded(m, done, escalations) && !MustRecord(m, p.uid)
    ensures Recorded(m, done + [p], escalations)
  {
    forall uid ensures Occurrences(done + [p], uid) == Occurrences(done, uid) + if uid == p.uid then 1 else 0 {
      OneMoreOccurrence(done, p, uid);
    }
  }

  lemma RecordsOne(m: Model, done: seq<PrincipalInfo>, p: PrincipalInfo, before: Escalations, path: EscalationPath)
    requires Recorded(m, done, before) && MustRecord(m, p.uid) && IsPathFor(m, p.uid, path)
    ensures Recorded(m, done + [p], Appended(before, path))
  {
    var after := Appended(before, path);
    forall uid ensures Occurrences(done + [p], uid) == Occurrences(done, uid) + if uid == p.uid then 1 else 0 {
      OneMoreOccurrence(done, p, uid);
    }
    forall uid, i | uid in after && 0 <= i < |after[uid]| ensures IsPathFor(m, uid, after[uid][i]) {
      AppendedAt(before, path, uid, i);
    }
  }

  lemma AppendedAt(before: Escalations, path: EscalationPath, uid: string, i: nat)
    requires uid in Appended(before, path) && i < |Appended(before, path)[uid]|
    ensures (uid == path.principal && Appended(before, path)[uid][i] == path)
            || (uid in before && i < |before[uid]| && Appended(before, path)[uid][i] == before[uid][i])
  {
  }

  lemma RecordsStep(m: Model, done: seq<PrincipalInfo>, p: PrincipalInfo, before: Escalations, after: Escalations)
    requires Recorded(m, done, before)
    requires !MustRecord(m, p.uid) ==> after == before
    requires MustRecord(m, p.uid) ==> exists path :: IsPathFor(m, p.uid, path) && after == Appended(before, path)
    ensures Recorded(m, done + [p], after)
  {
    if MustRecord(m, p.uid) {
      var path :| IsPathFor(m, p.uid, path) && after == Appended(before, path);
      RecordsOne(m, done, p, before, path);
    } else {
      RecordsNothing(m, done, p, before);
    }
  }

  method GrantedByPrincipal(org: Org) returns (granted: map<string, set<string>>)
    ensures granted == GrantedBy(org, org.principals)
  {
    granted := map[];
    for i := 0 to |org.principals|
      invariant granted == GrantedBy(org, org.principals[..i])
    {
      assert org.principals[..i + 1][..i] == org.principals[..i];
      var actions := PrincipalGrantedActions(org, org.principals[i]);
      granted := granted[org.principals[i].uid := actions];
    }
    assert org.principals[..|org.principals|] == org.principals;
  }

  method ScoreNext(m: Model, ghost done: seq<PrincipalInfo>, p: PrincipalRecord, escalations: Escalations)
    returns (out: Escalations)
    requires Recorded(m, done, escalations)
    modifies p
    ensures Scored(m, p)
    ensures Recorded(m, done + [p.info], out)
  {
    out := ScorePrincipal(m, p, escalations);
    RecordsStep(m, done, p.info, escalations, out);
  }

  method ScoreAll(m: Model, principals: seq<PrincipalRecord>) returns (escalations: Escalations)
    modifies principals
    ensures Recorded(m, Infos(principals), escalations)
    ensures forall p :: p in principals ==> Scored(m, p)
  {
    escalations := map[];
    ghost var done := [];
    for i := 0 to |principals|
      invariant |done| == i && forall j :: 0 <= j < i ==> done[j] == principals[j].info
      invariant Recorded(m, done, escalations)
      invariant forall j :: 0 <= j < i ==> Scored(m, principals[j])
    {
      label Unscored:
      escalations := ScoreNext(m, done, principals[i], escalations);
      done := done + [principals[i].info];
      forall j | 0 <= j < i ensures Scored(m, principals[j]) {
        assert principals[j] == principals[i] || unchanged@Unscored(principals[j]);
      }
    }
    assert done == Infos(principals);
  }

  method Build(hasNetworkx: bool, principals: seq<PrincipalRecord>, policies: seq<PolicyRecord>)
    returns (result: GraphResult)
    modifies principals
    ensures !hasNetworkx || principals == [] ==>
      result == GraphResult([], map[]) && forall p :: p in principals ==> unchanged(p)
    ensures hasNetworkx && principals != [] ==>
      var org := Org(Infos(principals), policies);
      && result.edges == AllEdges(org)
      && Recorded(ModelOf(org), org.principals, result.escalations)
      && forall p :: p in principals ==> Scored(ModelOf(org), p)
  {
    if !hasNetworkx || principals == [] {
      return GraphResult([], map[]);
    }
    var org := Org(Infos(principals), policies);
    var builder := new GraphBuilder();
    builder.AddPolicyEdges(org);
    builder.AddAssumeEdges(org);
    var selfAttach := builder.AddEscalationEdges(org);

    var granted := GrantedByPrincipal(org);
    var m := Model(builder.g, granted, selfAttach);
    var escalations := ScoreAll(m, principals);
    result := GraphResult(builder.edges, escalations);
  }
}
