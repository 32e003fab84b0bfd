/** The edges of `app/analysis/graph.py`: which `add_edge` calls a dataset leads
    to, in order, and the deduplicating builder that receives them. */
module GraphEdges {
  import opened Ordering
  import opened Text
  import opened Policy
  import opened Records

  datatype Kind = PrincipalKind | PolicyKind | ActionKind | ResourceKind

  datatype Node = Node(kind: Kind, uid: string)

  function KindName(kind: Kind): (r: string)
    ensures ':' !in r
  {
    match kind
    case PrincipalKind => "principal"
    case PolicyKind => "policy"
    case ActionKind => "action"
    case ResourceKind => "resource"
  }

  /** `_node`: the string a node is stored under. */
  function Render(n: Node): string {
    KindName(n.kind) + [':'] + n.uid
  }

  function P(uid: string): Node {
    Node(PrincipalKind, uid)
  }

  lemma RenderSplits(n: Node)
    ensures ':' in Render(n)
    ensures Before(Render(n), ':') == KindName(n.kind)
    ensures After(Render(n), ':') == n.uid
  {
    assert Render(n)[|KindName(n.kind)|] == ':';
    BeforeConcat(KindName(n.kind), ':', n.uid);
  }

  lemma KindNameInjective(a: Kind, b: Kind)
    requires KindName(a) == KindName(b)
    ensures a == b
  {
  }

  /** Distinct nodes never share a string, whatever the uids contain. */
  lemma RenderInjective(a: Node, b: Node)
    ensures Render(a) == Render(b) <==> a == b
  {
    if Render(a) == Render(b) {
      RenderSplits(a);
      RenderSplits(b);
      KindNameInjective(a.kind, b.kind);
    }
  }

  datatype Relation = HasPolicy | Grants | OnResource | CanAssume | CanEscalate

  function RelationName(relation: Relation): (r: string)
    ensures r != ""
  {
    match relation
    case HasPolicy => "HAS_POLICY"
    case Grants => "GRANTS_ACTION"
    case OnResource => "ON_RESOURCE"
    case CanAssume => "CAN_ASSUME"
    case CanEscalate => "CAN_ESCALATE"
  }

  datatype GraphEdge = GraphEdge(src: Node, dst: Node, relation: Relation, sensitive: bool, via: Option<string>)

  datatype EdgeKey = EdgeKey(src: Node, dst: Node, relation: Relation)

  datatype EdgeAttrs = EdgeAttrs(relation: Relation, sensitive: bool, via: Option<string>)

  function Key(e: GraphEdge): EdgeKey { EdgeKey(e.src, e.dst, e.relation) }

  function Attrs(e: GraphEdge): EdgeAttrs { EdgeAttrs(e.relation, e.sensitive, e.via) }

  type PairMap = map<(Node, Node), EdgeAttrs>

  function Keys(edges: seq<GraphEdge>): (r: set<EdgeKey>)
    ensures forall e :: e in edges ==> Key(e) in r
    ensures forall k :: k in r ==> exists e :: e in edges && Key(e) == k
  {
    if edges == [] then {}
    else
      var init := edges[..|edges| - 1];
      assert forall e :: e in edges <==> e in init || e == edges[|edges| - 1];
      Keys(init) + {Key(edges[|edges| - 1])}
  }

  lemma KeysAppend(edges: seq<GraphEdge>, e: GraphEdge)
    ensures Keys(edges + [e]) == Keys(edges) + {Key(e)}
  {
  }

  function AddOne(edges: seq<GraphEdge>, e: GraphEdge): seq<GraphEdge> {
    if Key(e) in Keys(edges) then edges else edges + [e]
  }

  /** The edge list after a sequence of `add_edge` calls. */
  function AddAll(edges: seq<GraphEdge>, requests: seq<GraphEdge>): seq<GraphEdge> {
    if requests == [] then edges
    else AddOne(AddAll(edges, requests[..|requests| - 1]), requests[|requests| - 1])
  }

  lemma {:induction false} AddAllConcat(edges: seq<GraphEdge>, a: seq<GraphEdge>, b: seq<GraphEdge>)
    ensures AddAll(edges, a + b) == AddAll(AddAll(edges, a), b)
    decreases |b|
  {
    if b == [] {
      assert a + b == a;
    } else {
      var init := b[..|b| - 1];
      assert (a + b)[..|a + b| - 1] == a + init;
      AddAllConcat(edges, a, init);
    }
  }

  /** One more element of a loop that adds `f(x)` for each `x` of `xs`. */
  lemma AddAllStep<A>(edges: seq<GraphEdge>, f: A -> seq<GraphEdge>, xs: seq<A>, i: nat)
    requires i < |xs|
    ensures AddAll(edges, FlatMap(f, xs[..i + 1])) == AddAll(AddAll(edges, FlatMap(f, xs[..i])), f(xs[i]))
  {
    FlatMapStep(f, xs, i);
    AddAllConcat(edges, FlatMap(f, xs[..i]), f(xs[i]));
  }

  lemma AddAllOne(edges: seq<GraphEdge>, e: GraphEdge)
    ensures AddAll(edges, [e]) == AddOne(edges, e)
  {
  }

  /** `add_edge` only ever appends, and what it appends was requested. */
  lemma {:induction false} AddAllGrows(edges: seq<GraphEdge>, requests: seq<GraphEdge>)
    ensures edges <= AddAll(edges, requests)
    ensures forall e :: e in AddAll(edges, requests)[|edges|..] ==> e in requests
    ensures forall e :: e in requests ==> Key(e) in Keys(AddAll(edges, requests))
  {
    if requests != [] {
      var init := requests[..|requests| - 1];
      var last := requests[|requests| - 1];
      AddAllGrows(edges, init);
      var before := AddAll(edges, init);
      var after := AddAll(edges, requests);
      assert after == before || after == before + [last];
      KeysAppend(before, last);
      forall e | e in after[|edges|..] ensures e in requests {
        assert e in before[|edges|..] || e == last;
      }
      forall e | e in requests ensures Key(e) in Keys(after) {
        assert e in init || e == last;
      }
    }
  }

  ghost predicate NoRepeats(edges: seq<GraphEdge>) {
    forall i, j :: 0 <= i < j < |edges| ==> Key(edges[i]) != Key(edges[j])
  }

  lemma AddOneNoRepeats(edges: seq<GraphEdge>, e: GraphEdge)
    requires NoRepeats(edges)
    ensures NoRepeats(AddOne(edges, e))
  {
  }

  lemma {:induction false} AddAllNoRepeats(edges: seq<GraphEdge>, requests: seq<GraphEdge>)
    requires NoRepeats(edges)
    ensures NoRepeats(AddAll(edges, requests))
  {
    if requests != [] {
      AddAllNoRepeats(edges, requests[..|requests| - 1]);
      AddOneNoRepeats(AddAll(edges, requests[..|requests| - 1]), requests[|requests| - 1]);
    }
  }

  /** The `DiGraph`: one attribute record a node pair, the last edge's. */
  function Store(edges: seq<GraphEdge>): PairMap {
    if edges == [] then map[]
    else
      var last := edges[|edges| - 1];
      Store(edges[..|edges| - 1])[(last.src, last.dst) := Attrs(last)]
  }

  // ----- the requested edges, as functions of the dataset -----

  function EdgeActions(st: Statement): seq<string> {
    if Actions(st) != [] then Actions(st) else if NotActions(st) != [] then ["*"] else []
  }

  function EdgeResources(st: Statement): (r: seq<string>)
    ensures r != []
  {
    if Resources(st) != [] then Resources(st) else ["*"]
  }

  function GrantEdge(policy: string, action: string): GraphEdge {
    GraphEdge(Node(PolicyKind, policy), Node(ActionKind, action), Grants, IsSensitive(action), None)
  }

  function ResourceEdge(action: string, resource: string): GraphEdge {
    GraphEdge(Node(ActionKind, action), Node(ResourceKind, resource), OnResource, false, None)
  }

  function ResourceEdges(action: string, resources: seq<string>): seq<GraphEdge> {
    seq(|resources|, i requires 0 <= i < |resources| => ResourceEdge(action, resources[i]))
  }

  function ActionEdges(policy: string, resources: seq<string>): string -> seq<GraphEdge> {
    action => [GrantEdge(policy, action)] + ResourceEdges(action, resources)
  }

  function StatementEdges(policy: string): Statement -> seq<GraphEdge> {
    (st: Statement) => if IsAllow(st) then FlatMap(ActionEdges(policy, EdgeResources(st)), EdgeActions(st)) else []
  }

  function DocumentEdges(policy: PolicyRecord): seq<GraphEdge> {
    FlatMap(StatementEdges(policy.uid), Statements(policy.document))
  }

  function HasPolicyEdge(principal: string, policy: string): GraphEdge {
    GraphEdge(P(principal), Node(PolicyKind, policy), HasPolicy, false, None)
  }

  function AttachmentEdges(index: map<string, PolicyRecord>, principal: string): string -> seq<GraphEdge> {
    uid => if uid in index then [HasPolicyEdge(principal, uid)] + DocumentEdges(index[uid]) else []
  }

  function PrincipalPolicyEdges(org: Org): PrincipalInfo -> seq<GraphEdge> {
    (p: PrincipalInfo) => FlatMap(AttachmentEdges(PolicyIndex(org.policies), p.uid), p.attached)
  }

  function Uids(principals: seq<PrincipalInfo>): set<string> {
    set p | p in principals :: p.uid
  }

  /** The trust document a role is read by: the first truthy raw entry. */
  function TrustDocument(p: PrincipalInfo): Option<Document> {
    var raw := if p.trustPolicy.Falsy? then p.assumeRolePolicyDocument else p.trustPolicy;
    if raw.Dict? then Some(raw.document) else None
  }

  function Strings(items: seq<Option<string>>): (r: seq<string>)
    ensures forall a :: a in r <==> Some(a) in items
  {
    if items == [] then []
    else (if items[0].Some? then [items[0].value] else []) + Strings(items[1..])
  }

  /** `_trust_principal_arns`. */
  function TrustArns(field: TrustField): seq<string> {
    match field
    case NotADict => []
    case WithoutAws => []
    case AwsOne(arn) => [arn]
    case AwsMany(arns) => Strings(arns)
  }

  function AssumeEdge(src: string, role: string): GraphEdge {
    GraphEdge(P(src), P(role), CanAssume, true, None)
  }

  function ArnEdges(uids: set<string>, role: string): string -> seq<GraphEdge> {
    arn => if arn in uids && arn != role then [AssumeEdge(arn, role)] else []
  }

  function TrustEdges(uids: set<string>, role: string): Statement -> seq<GraphEdge> {
    (st: Statement) => if IsAssumeRole(st) then FlatMap(ArnEdges(uids, role), TrustArns(st.principal)) else []
  }

  function PrincipalAssumeEdges(org: Org): PrincipalInfo -> seq<GraphEdge> {
    (p: PrincipalInfo) => if p.kind == "role" && TrustDocument(p).Some?
         then FlatMap(TrustEdges(Uids(org.principals), p.uid), Statements(TrustDocument(p).value))
         else []
  }

  const COMPUTE_LAUNCH_ACTIONS := ["ec2:RunInstances", "lambda:CreateFunction"]
  const CREATE_CREDENTIAL_ACTIONS := ["iam:CreateAccessKey", "iam:CreateLoginProfile", "iam:UpdateLoginProfile"]
  const SELF_ATTACH_ACTIONS :=
    ["iam:AttachUserPolicy", "iam:AttachRolePolicy", "iam:PutUserPolicy", "iam:PutRolePolicy"]

  lemma {:induction false} FirstGrantedExists(actions: set<string>, wanted: seq<string>)
    requires exists a :: a in wanted && GrantsAction(actions, a)
    ensures exists i :: IsFirstGranted(actions, wanted, i)
  {
    if GrantsAction(actions, wanted[0]) {
      assert IsFirstGranted(actions, wanted, 0);
    } else {
      FirstGrantedExists(actions, wanted[1..]);
      var i :| IsFirstGranted(actions, wanted[1..], i);
      assert IsFirstGranted(actions, wanted, i + 1);
    }
  }

  predicate IsFirstGranted(actions: set<string>, wanted: seq<string>, i: int) {
    && 0 <= i < |wanted| && GrantsAction(actions, wanted[i])
    && forall j :: 0 <= j < i ==> !GrantsAction(actions, wanted[j])
  }

  /** `next(a for a in wanted if grants_action(actions, a))`, if there is one. */
  function FirstGranted(actions: set<string>, wanted: seq<string>): (r: Option<string>)
    ensures r.Some? <==> exists a :: a in wanted && GrantsAction(actions, a)
    ensures r.Some? ==> exists i :: IsFirstGranted(actions, wanted, i) && wanted[i] == r.value
  {
    if exists i :: 0 <= i < |wanted| && GrantsAction(actions, wanted[i]) then
      FirstGrantedExists(actions, wanted);
      var i :| 0 <= i < |wanted| && IsFirstGranted(actions, wanted, i);
      Some(wanted[i])
    else None
  }

  predicate CanLaunch(actions: set<string>) {
    GrantsAction(actions, "iam:PassRole") && FirstGranted(actions, COMPUTE_LAUNCH_ACTIONS).Some?
  }

  function EscalateEdge(src: string, dst: string, via: string): GraphEdge {
    GraphEdge(P(src), P(dst), CanEscalate, true, Some(via))
  }

  function TargetEdges(src: string, via: string, wantRoles: bool): PrincipalInfo -> seq<GraphEdge> {
    (q: PrincipalInfo) => if (q.kind == "role") == wantRoles && q.uid != src then [EscalateEdge(src, q.uid, via)] else []
  }

  function LaunchEdges(org: Org, p: PrincipalInfo, actions: set<string>): seq<GraphEdge> {
    if CanLaunch(actions)
    then FlatMap(TargetEdges(p.uid, "passrole_compute_launch", true), org.principals) else []
  }

  function CredentialEdges(org: Org, p: PrincipalInfo, actions: set<string>): seq<GraphEdge> {
    var via := FirstGranted(actions, CREATE_CREDENTIAL_ACTIONS);
    if via.Some? then FlatMap(TargetEdges(p.uid, via.value, false), org.principals) else []
  }

  function AttachEdges(p: PrincipalInfo, actions: set<string>): seq<GraphEdge> {
    var via := FirstGranted(actions, SELF_ATTACH_ACTIONS);
    if via.Some? then [EscalateEdge(p.uid, p.uid, via.value)] else []
  }

  function PrincipalEscalations(org: Org): PrincipalInfo -> seq<GraphEdge> {
    (p: PrincipalInfo) => var actions := PrincipalGrants(org, p);
         if actions == {} then []
         else LaunchEdges(org, p, actions) + (CredentialEdges(org, p, actions) + AttachEdges(p, actions))
  }

  function SelfAttachOf(org: Org, p: PrincipalInfo): Option<string> {
    var actions := PrincipalGrants(org, p);
    if actions == {} then None else FirstGranted(actions, SELF_ATTACH_ACTIONS)
  }

  /** `self_attach_via`, filled in principal order. */
  function SelfAttach(org: Org, principals: seq<PrincipalInfo>): map<string, string> {
    if principals == [] then map[]
    else
      var rest := SelfAttach(org, principals[..|principals| - 1]);
      var p := principals[|principals| - 1];
      var via := SelfAttachOf(org, p);
      if via.Some? then rest[p.uid := via.value] else rest
  }

  lemma SelfAttachStep(org: Org, principals: seq<PrincipalInfo>, i: nat)
    requires i < |principals|
    ensures var before := SelfAttach(org, principals[..i]);
      var via := SelfAttachOf(org, principals[i]);
      SelfAttach(org, principals[..i + 1]) == if via.Some? then before[principals[i].uid := via.value] else before
  {
    assert principals[..i + 1][..i] == principals[..i];
  }

  function PolicyRequests(org: Org): seq<GraphEdge> {
    FlatMap(PrincipalPolicyEdges(org), org.principals)
  }

  function AssumeRequests(org: Org): seq<GraphEdge> {
    FlatMap(PrincipalAssumeEdges(org), org.principals)
  }

  function EscalateRequests(org: Org): seq<GraphEdge> {
    FlatMap(PrincipalEscalations(org), org.principals)
  }

  /** The edge list `build` returns. */
  function AllEdges(org: Org): seq<GraphEdge> {
    AddAll(AddAll(AddAll([], PolicyRequests(org)), AssumeRequests(org)), EscalateRequests(org))
  }

  class GraphBuilder {
    var edges: seq<GraphEdge>
    var seen: set<EdgeKey>
    var g: PairMap

    ghost predicate Valid()
      reads this
    {
      && seen == Keys(edges)
      && g == Store(edges)
    }

    constructor ()
      ensures Valid() && edges == []
    {
      edges, seen, g := [], {}, map[];
    }

    method AddEdge(e: GraphEdge)
      requires Valid()
      modifies this
      ensures Valid()
      ensures edges == AddOne(old(edges), e)
    {
      if Key(e) in seen {
        return;
      }
      KeysAppend(edges, e);
      seen := seen + {Key(e)};
      edges := edges + [e];
      g := g[(e.src, e.dst) := Attrs(e)];
      assert edges[..|edges| - 1] == old(edges);
    }

    method AddEdges(requests: seq<GraphEdge>)
      requires Valid()
      modifies this
      ensures Valid()
      ensures edges == AddAll(old(edges), requests)
    {
      for i := 0 to |requests|
        invariant Valid()
        invariant edges == AddAll(old(edges), requests[..i])
      {
        AddEdge(requests[i]);
        assert requests[..i + 1][..i] == requests[..i];
      }
      assert requests[..|requests|] == requests;
    }

    method AddActionEdges(uid: string, actions: seq<string>, resources: seq<string>)
      requires Valid()
      modifies this
      ensures Valid()
      ensures edges == AddAll(old(edges), FlatMap(ActionEdges(uid, resources), actions))
    {
      ghost var h := ActionEdges(uid, resources);
      for j := 0 to |actions|
        invariant Valid()
        invariant edges == AddAll(old(edges), FlatMap(h, actions[..j]))
      {
        AddAllStep(old(edges), h, actions, j);
        AddAllConcat(edges, [GrantEdge(uid, actions[j])], ResourceEdges(actions[j], resources));
        assert [GrantEdge(uid, actions[j])][..0] == [];
        AddEdge(GrantEdge(uid, actions[j]));
        AddEdges(ResourceEdges(actions[j], resources));
      }
      assert actions[..|actions|] == actions;
    }

    /** `_add_statement_edges`. */
    method AddStatementEdges(policy: PolicyRecord)
      requires Valid()
      modifies this
      ensures Valid()
      ensures edges == AddAll(old(edges), DocumentEdges(policy))
    {
      var sts := Statements(policy.document);
      ghost var f := StatementEdges(policy.uid);
      for i := 0 to |sts|
        invariant Valid()
        invariant edges == AddAll(old(edges), FlatMap(f, sts[..i]))
      {
        AddAllStep(old(edges), f, sts, i);
        var st := sts[i];
        if IsAllow(st) {
          AddActionEdges(policy.uid, EdgeActions(st), EdgeResources(st));
        }
      }
      assert sts[..|sts|] == sts;
    }

    /** `_add_policy_edges`. */
    method AddPolicyEdges(org: Org)
      requires Valid()
      modifies this
      ensures Valid()
      ensures edges == AddAll(old(edges), PolicyRequests(org))
    {
      var index := PolicyIndex(org.policies);
      ghost var f := PrincipalPolicyEdges(org);
      for i := 0 to |org.principals|
        invariant Valid()
        invariant edges == AddAll(old(edges), FlatMap(f, org.principals[..i]))
      {
        AddAllStep(old(edges), f, org.principals, i);
        var p := org.principals[i];
        ghost var before := edges;
        ghost var h := AttachmentEdges(index, p.uid);
        for j := 0 to |p.attached|
          invariant Valid()
          invariant edges == AddAll(before, FlatMap(h, p.attached[..j]))
        {
          AddAllStep(before, h, p.attached, j);
          var uid := p.attached[j];
          if uid in index {
            AddAllConcat(edges, [HasPolicyEdge(p.uid, uid)], DocumentEdges(index[uid]));
            AddAllOne(edges, HasPolicyEdge(p.uid, uid));
            AddEdge(HasPolicyEdge(p.uid, uid));
            AddStatementEdges(index[uid]);
          }
        }
        assert p.attached[..|p.attached|] == p.attached;
      }
      assert org.principals[..|org.principals|] == org.principals;
    }

    /** One trust statement's share of `_add_assume_edges`. */
    method AddTrustEdges(uids: set<string>, role: string, st: Statement)
      requires Valid()
      modifies this
      ensures Valid()
      ensures edges == AddAll(old(edges), TrustEdges(uids, role)(st))
    {
      if IsAssumeRole(st) {
        var arns := TrustArns(st.principal);
        ghost var f := ArnEdges(uids, role);
        for i := 0 to |arns|
          invariant Valid()
          invariant edges == AddAll(old(edges), FlatMap(f, arns[..i]))
        {
          AddAllStep(old(edges), f, arns, i);
          if arns[i] in uids && arns[i] != role {
            assert [AssumeEdge(arns[i], role)][..0] == [];
            AddEdge(AssumeEdge(arns[i], role));
          }
        }
        assert arns[..|arns|] == arns;
      }
    }

    /** One principal's share of `_add_assume_edges`. */
    method AddPrincipalAssume(org: Org, uids: set<string>, p: PrincipalInfo)
      requires Valid() && uids == Uids(org.principals)
      modifies this
      ensures Valid()
      ensures edges == AddAll(old(edges), PrincipalAssumeEdges(org)(p))
    {
      var trust := TrustDocument(p);
      if p.kind == "role" && trust.Some? {
        var sts := Statements(trust.value);
        ghost var f := TrustEdges(uids, p.uid);
        for i := 0 to |sts|
          invariant Valid()
          invariant edges == AddAll(old(edges), FlatMap(f, sts[..i]))
        {
          AddAllStep(old(edges), f, sts, i);
          AddTrustEdges(uids, p.uid, sts[i]);
        }
        assert sts[..|sts|] == sts;
      }
    }

    /** `_add_assume_edges`. */
    method AddAssumeEdges(org: Org)
      requires Valid()
      modifies this
      ensures Valid()
      ensures edges == AddAll(old(edges), AssumeRequests(org))
    {
      var uids := Uids(org.principals);
      ghost var f := PrincipalAssumeEdges(org);
      for i := 0 to |org.principals|
        invariant Valid()
        invariant edges == AddAll(old(edges), FlatMap(f, org.principals[..i]))
      {
        AddAllStep(old(edges), f, org.principals, i);
        AddPrincipalAssume(org, uids, org.principals[i]);
      }
      assert org.principals[..|org.principals|] == org.principals;
    }

    /** The loop over target principals inside `_add_escalation_edges`. */
    method AddTargets(src: string, via: string, wantRoles: bool, targets: seq<PrincipalInfo>)
      requires Valid()
      modifies this
      ensures Valid()
      ensures edges == AddAll(old(edges), FlatMap(TargetEdges(src, via, wantRoles), targets))
    {
      ghost var f := TargetEdges(src, via, wantRoles);
      for i := 0 to |targets|
        invariant Valid()
        invariant edges == AddAll(old(edges), FlatMap(f, targets[..i]))
      {
        AddAllStep(old(edges), f, targets, i);
        var q := targets[i];
        if (q.kind == "role") == wantRoles && q.uid != src {
          AddAllOne(edges, EscalateEdge(src, q.uid, via));
          AddEdge(EscalateEdge(src, q.uid, via));
        }
      }
      assert targets[..|targets|] == targets;
    }

    /** One principal's share of `_add_escalation_edges`; `via` is its
        self-attach primitive. */
    method AddPrincipalEscalations(org: Org, p: PrincipalInfo) returns (via: Option<string>)
      requires Valid()
      modifies this
      ensures Valid()
      ensures edges == AddAll(old(edges), PrincipalEscalations(org)(p))
      ensures via == SelfAttachOf(org, p)
    {
      via := None;
      var actions := PrincipalGrantedActions(org, p);
      if actions != {} {
        ghost var launch := LaunchEdges(org, p, actions);
        ghost var credential := CredentialEdges(org, p, actions);
        ghost var attach := AttachEdges(p, actions);
        AddAllConcat(edges, launch, credential + attach);
        AddAllConcat(AddAll(edges, launch), credential, attach);
        if CanLaunch(actions) {
          AddTargets(p.uid, "passrole_compute_launch", true, org.principals);
        }
        via := FirstGranted(actions, CREATE_CREDENTIAL_ACTIONS);
        if via.Some? {
          AddTargets(p.uid, via.value, false, org.principals);
        }
        via := FirstGranted(actions, SELF_ATTACH_ACTIONS);
        if via.Some? {
          AddAllOne(edges, EscalateEdge(p.uid, p.uid, via.value));
          AddEdge(EscalateEdge(p.uid, p.uid, via.value));
        }
      }
    }

    /** `_add_escalation_edges`: also returns the self-attach primitives. */
    method AddEscalationEdges(org: Org) returns (selfAttach: map<string, string>)
      requires Valid()
      modifies this
      ensures Valid()
      ensures edges == AddAll(old(edges), EscalateRequests(org))
      ensures selfAttach == SelfAttach(org, org.principals)
    {
      selfAttach := map[];
      ghost var f := PrincipalEscalations(org);
      for i := 0 to |org.principals|
        invariant Valid()
        invariant edges == AddAll(old(edges), FlatMap(f, org.principals[..i]))
        invariant selfAttach == SelfAttach(org, org.principals[..i])
      {
        AddAllStep(old(edges), f, org.principals, i);
        SelfAttachStep(org, org.principals, i);
        var p := org.principals[i];
        var via := AddPrincipalEscalations(org, p);
        if via.Some? {
          selfAttach := selfAttach[p.uid := via.value];
        }
      }
      assert org.principals[..|org.principals|] == org.principals;
    }
  }
}
