/** What the permission graph means for a whole dataset: which pairs are stored
    and how, when the stored CAN_ASSUME closure is the intended one, when a path
    is recorded, and how the results move when grants are added. */
module GraphTheorems {
  import opened Ordering
  import opened Policy
  import opened Records
  import opened GraphEdges
  import opened Digraph
  import opened Rounding
  import opened PermissionGraph

  // ----- the two principal-to-principal relations, declaratively -----

  ghost predicate TrustedBy(p: PrincipalInfo, u: string) {
    && p.kind == "role"
    && TrustDocument(p).Some?
    && exists st :: st in Statements(TrustDocument(p).value) && IsAssumeRole(st) && u in TrustArns(st.principal)
  }

  /** Some role with uid `v` names the known principal `u` in its trust policy. */
  ghost predicate Trusts(org: Org, u: string, v: string) {
    u != v && u in Uids(org.principals) && exists p :: p in org.principals && p.uid == v && TrustedBy(p, u)
  }

  ghost predicate HasTarget(org: Org, v: string, wantRoles: bool) {
    exists q :: q in org.principals && q.uid == v && (q.kind == "role") == wantRoles
  }

  /** The three primitives: launch compute as a role, mint a user's
      credentials, attach a policy to oneself. */
  ghost predicate EscalatesTo(org: Org, p: PrincipalInfo, v: string) {
    var actions := PrincipalGrants(org, p);
    || (CanLaunch(actions) && v != p.uid && HasTarget(org, v, true))
    || (FirstGranted(actions, CREATE_CREDENTIAL_ACTIONS).Some? && v != p.uid && HasTarget(org, v, false))
    || (FirstGranted(actions, SELF_ATTACH_ACTIONS).Some? && v == p.uid)
  }

  ghost predicate Escalates(org: Org, u: string, v: string) {
    exists p :: p in org.principals && p.uid == u && EscalatesTo(org, p, v)
  }

  lemma AssumeRequestsExactly(org: Org, e: GraphEdge)
    ensures e in AssumeRequests(org) <==>
            exists u, v :: Trusts(org, u, v) && e == AssumeEdge(u, v)
  {
    InFlatMap(PrincipalAssumeEdges(org), org.principals, e);
    var uids := Uids(org.principals);
    forall p | p in org.principals
      ensures e in PrincipalAssumeEdges(org)(p) <==>
              exists u :: TrustedBy(p, u) && u in uids && u != p.uid && e == AssumeEdge(u, p.uid)
    {
      TrustEdgesExactly(uids, p, e);
    }
    if e in AssumeRequests(org) {
      var p :| p in org.principals && e in PrincipalAssumeEdges(org)(p);
      var u :| TrustedBy(p, u) && u in uids && u != p.uid && e == AssumeEdge(u, p.uid);
      assert Trusts(org, u, p.uid);
    }
  }

  lemma TrustEdgesExactly(uids: set<string>, p: PrincipalInfo, e: GraphEdge)
    ensures (p.kind == "role" && TrustDocument(p).Some?
             && e in FlatMap(TrustEdges(uids, p.uid), Statements(TrustDocument(p).value)))
       <==> exists u :: TrustedBy(p, u) && u in uids && u != p.uid && e == AssumeEdge(u, p.uid)
  {
    if p.kind == "role" && TrustDocument(p).Some? {
      var sts := Statements(TrustDocument(p).value);
      InFlatMap(TrustEdges(uids, p.uid), sts, e);
      forall st | st in sts && IsAssumeRole(st)
        ensures e in TrustEdges(uids, p.uid)(st) <==>
                exists u :: u in TrustArns(st.principal) && u in uids && u != p.uid && e == AssumeEdge(u, p.uid)
      {
        InFlatMap(ArnEdges(uids, p.uid), TrustArns(st.principal), e);
      }
    }
  }

  lemma TargetEdgesExactly(org: Org, src: string, via: string, wantRoles: bool, e: GraphEdge)
    ensures e in FlatMap(TargetEdges(src, via, wantRoles), org.principals)
       <==> exists v :: v != src && HasTarget(org, v, wantRoles) && e == EscalateEdge(src, v, via)
  {
    InFlatMap(TargetEdges(src, via, wantRoles), org.principals, e);
    if v :| v != src && HasTarget(org, v, wantRoles) && e == EscalateEdge(src, v, via) {
      var q :| q in org.principals && q.uid == v && (q.kind == "role") == wantRoles;
      assert e in TargetEdges(src, via, wantRoles)(q);
    }
  }

  ghost predicate IsEscalation(e: GraphEdge, u: string, v: string) {
    exists via :: e == EscalateEdge(u, v, via)
  }

  lemma EscalationSound(org: Org, p: PrincipalInfo, e: GraphEdge) returns (v: string)
    requires e in PrincipalEscalations(org)(p)
    ensures EscalatesTo(org, p, v) && IsEscalation(e, p.uid, v)
  {
    var actions := PrincipalGrants(org, p);
    if e in LaunchEdges(org, p, actions) {
      TargetEdgesExactly(org, p.uid, "passrole_compute_launch", true, e);
      v :| v != p.uid && HasTarget(org, v, true) && e == EscalateEdge(p.uid, v, "passrole_compute_launch");
    } else if e in CredentialEdges(org, p, actions) {
      var via := FirstGranted(actions, CREATE_CREDENTIAL_ACTIONS).value;
      TargetEdgesExactly(org, p.uid, via, false, e);
      v :| v != p.uid && HasTarget(org, v, false) && e == EscalateEdge(p.uid, v, via);
    } else {
      assert e in AttachEdges(p, actions);
      v := p.uid;
    }
  }

  lemma EscalationComplete(org: Org, p: PrincipalInfo, v: string) returns (e: GraphEdge)
    requires EscalatesTo(org, p, v)
    ensures e in PrincipalEscalations(org)(p) && IsEscalation(e, p.uid, v)
  {
    var actions := PrincipalGrants(org, p);
    var credential := FirstGranted(actions, CREATE_CREDENTIAL_ACTIONS);
    if CanLaunch(actions) && v != p.uid && HasTarget(org, v, true) {
      e := EscalateEdge(p.uid, v, "passrole_compute_launch");
      TargetEdgesExactly(org, p.uid, "passrole_compute_launch", true, e);
      assert e in LaunchEdges(org, p, actions);
    } else if credential.Some? && v != p.uid && HasTarget(org, v, false) {
      e := EscalateEdge(p.uid, v, credential.value);
      TargetEdgesExactly(org, p.uid, credential.value, false, e);
      assert e in CredentialEdges(org, p, actions);
    } else {
      e := EscalateEdge(p.uid, p.uid, FirstGranted(actions, SELF_ATTACH_ACTIONS).value);
      assert e in AttachEdges(p, actions);
    }
  }

  lemma EscalateRequestSound(org: Org, e: GraphEdge) returns (u: string, v: string)
    requires e in EscalateRequests(org)
    ensures Escalates(org, u, v) && IsEscalation(e, u, v)
  {
    InFlatMap(PrincipalEscalations(org), org.principals, e);
    var p :| p in org.principals && e in PrincipalEscalations(org)(p);
    u := p.uid;
    v := EscalationSound(org, p, e);
  }

  lemma EscalateRequestComplete(org: Org, u: string, v: string) returns (e: GraphEdge)
    requires Escalates(org, u, v)
    ensures e in EscalateRequests(org) && IsEscalation(e, u, v)
  {
    var p :| p in org.principals && p.uid == u && EscalatesTo(org, p, v);
    e := EscalationComplete(org, p, v);
    InFlatMap(PrincipalEscalations(org), org.principals, e);
  }

  // ----- the policy edges, declaratively -----

  predicate IsPolicyEdge(e: GraphEdge) {
    e.relation in {HasPolicy, Grants, OnResource} && e.dst.kind != PrincipalKind
  }

  /** A principal with this uid has the existing policy attached. */
  ghost predicate HoldsPolicy(org: Org, u: string, policy: string) {
    policy in PolicyIndex(org.policies) && exists p :: p in org.principals && p.uid == u && policy in p.attached
  }

  /** An Allow statement of an attached policy, and one of its actions. */
  ghost predicate IsGrant(org: Org, policy: string, st: Statement, action: string) {
    && (exists u :: HoldsPolicy(org, u, policy))
    && policy in PolicyIndex(org.policies)
    && st in Statements(PolicyIndex(org.policies)[policy].document)
    && IsAllow(st) && action in EdgeActions(st)
  }

  /** A policy edge that the dataset gives rise to. */
  ghost predicate IsDue(org: Org, e: GraphEdge) {
    || (exists u, policy :: HoldsPolicy(org, u, policy) && e == HasPolicyEdge(u, policy))
    || (exists policy, st, action :: IsGrant(org, policy, st, action) && e == GrantEdge(policy, action))
    || (exists policy, st, action, resource ::
          IsGrant(org, policy, st, action) && resource in EdgeResources(st) && e == ResourceEdge(action, resource))
  }

  ghost predicate IsOfStatement(policy: string, st: Statement, action: string, e: GraphEdge) {
    && IsAllow(st) && action in EdgeActions(st)
    && (e == GrantEdge(policy, action) || exists r :: r in EdgeResources(st) && e == ResourceEdge(action, r))
  }

  lemma StatementEdgesExactly(policy: string, st: Statement, e: GraphEdge)
    ensures e in StatementEdges(policy)(st) <==> exists action :: IsOfStatement(policy, st, action, e)
  {
    if IsAllow(st) {
      var f := ActionEdges(policy, EdgeResources(st));
      InFlatMap(f, EdgeActions(st), e);
      forall action ensures e in f(action) <==>
        e == GrantEdge(policy, action) || exists r :: r in EdgeResources(st) && e == ResourceEdge(action, r)
      {
        ActionEdgesExactly(policy, EdgeResources(st), action, e);
      }
      if action :| action in EdgeActions(st) && e in f(action) {
        assert IsOfStatement(policy, st, action, e);
      }
    }
  }

  lemma ActionEdgesExactly(policy: string, resources: seq<string>, action: string, e: GraphEdge)
    ensures e in ActionEdges(policy, resources)(action)
       <==> e == GrantEdge(policy, action) || exists r :: r in resources && e == ResourceEdge(action, r)
  {
    var onResources := ResourceEdges(action, resources);
    assert ActionEdges(policy, resources)(action) == [GrantEdge(policy, action)] + onResources;
    if r :| r in resources && e == ResourceEdge(action, r) {
      var i :| 0 <= i < |resources| && resources[i] == r;
      assert onResources[i] == e;
    }
  }

  lemma DocumentEdgesExactly(policy: PolicyRecord, e: GraphEdge)
    ensures e in DocumentEdges(policy) <==>
      exists st, action :: st in Statements(policy.document) && IsOfStatement(policy.uid, st, action, e)
  {
    InFlatMap(StatementEdges(policy.uid), Statements(policy.document), e);
    forall st ensures e in StatementEdges(policy.uid)(st) <==> exists action :: IsOfStatement(policy.uid, st, action, e) {
      StatementEdgesExactly(policy.uid, st, e);
    }
  }

  lemma PolicyRequestFrom(org: Org, e: GraphEdge)
    ensures e in PolicyRequests(org) <==>
      exists p, policy :: p in org.principals && policy in p.attached
                          && e in AttachmentEdges(PolicyIndex(org.policies), p.uid)(policy)
  {
    var index := PolicyIndex(org.policies);
    InFlatMap(PrincipalPolicyEdges(org), org.principals, e);
    forall p ensures e in PrincipalPolicyEdges(org)(p) <==>
      exists policy :: policy in p.attached && e in AttachmentEdges(index, p.uid)(policy)
    {
      InFlatMap(AttachmentEdges(index, p.uid), p.attached, e);
    }
  }

  lemma PolicyRequestIsDue(org: Org, e: GraphEdge)
    requires e in PolicyRequests(org)
    ensures IsDue(org, e)
  {
    var index := PolicyIndex(org.policies);
    PolicyRequestFrom(org, e);
    var p, policy :| p in org.principals && policy in p.attached && e in AttachmentEdges(index, p.uid)(policy);
    assert HoldsPolicy(org, p.uid, policy);
    if e != HasPolicyEdge(p.uid, policy) {
      DocumentEdgesExactly(index[policy], e);
      var st, action :| st in Statements(index[policy].document) && IsOfStatement(policy, st, action, e);
      assert IsGrant(org, policy, st, action);
    }
  }

  lemma AttachedIsRequested(org: Org, u: string, policy: string, e: GraphEdge)
    requires HoldsPolicy(org, u, policy)
    requires e == HasPolicyEdge(u, policy) || e in DocumentEdges(PolicyIndex(org.policies)[policy])
    ensures e in PolicyRequests(org)
  {
    PolicyRequestFrom(org, e);
    var p :| p in org.principals && p.uid == u && policy in p.attached;
    assert e in AttachmentEdges(PolicyIndex(org.policies), p.uid)(policy);
  }

  lemma GrantIsRequested(org: Org, policy: string, st: Statement, action: string, e: GraphEdge)
    requires IsGrant(org, policy, st, action) && IsOfStatement(policy, st, action, e)
    ensures e in PolicyRequests(org)
  {
    var u :| HoldsPolicy(org, u, policy);
    DocumentEdgesExactly(PolicyIndex(org.policies)[policy], e);
    AttachedIsRequested(org, u, policy, e);
  }

  lemma DueIsRequested(org: Org, e: GraphEdge)
    requires IsDue(org, e)
    ensures e in PolicyRequests(org)
  {
    if u, policy :| HoldsPolicy(org, u, policy) && e == HasPolicyEdge(u, policy) {
      AttachedIsRequested(org, u, policy, e);
    } else if policy, st, action :| IsGrant(org, policy, st, action) && e == GrantEdge(policy, action) {
      GrantIsRequested(org, policy, st, action, e);
    } else {
      var policy, st, action, resource :|
        IsGrant(org, policy, st, action) && resource in EdgeResources(st) && e == ResourceEdge(action, resource);
      GrantIsRequested(org, policy, st, action, e);
    }
  }

  lemma PolicyRequestsArePolicyEdges(org: Org, e: GraphEdge)
    requires e in PolicyRequests(org)
    ensures IsPolicyEdge(e)
  {
    PolicyRequestIsDue(org, e);
  }

  // ----- what ends up in the edge list and in the graph -----

  function PolicyPart(org: Org): seq<GraphEdge> {
    AddAll([], PolicyRequests(org))
  }

  function WithAssume(org: Org): seq<GraphEdge> {
    AddAll(PolicyPart(org), AssumeRequests(org))
  }

  lemma AppendedPart(before: seq<GraphEdge>, requests: seq<GraphEdge>) returns (part: seq<GraphEdge>)
    ensures AddAll(before, requests) == before + part
    ensures forall e :: e in part ==> e in requests
  {
    AddAllGrows(before, requests);
    part := AddAll(before, requests)[|before|..];
  }

  /** The three stages of `build` append one after the other. */
  lemma EdgeListParts(org: Org) returns (policy: seq<GraphEdge>, trust: seq<GraphEdge>, escalate: seq<GraphEdge>)
    ensures AllEdges(org) == policy + trust + escalate
    ensures forall e :: e in policy ==> e in PolicyRequests(org) && IsPolicyEdge(e)
    ensures forall e :: e in trust ==> e in AssumeRequests(org) && e.relation == CanAssume
    ensures forall e :: e in escalate ==> e in EscalateRequests(org) && e.relation == CanEscalate
  {
    policy := AppendedPart([], PolicyRequests(org));
    assert [] + policy == policy;
    trust := AppendedPart(policy, AssumeRequests(org));
    escalate := AppendedPart(policy + trust, EscalateRequests(org));
    forall e | e in policy ensures IsPolicyEdge(e) {
      PolicyRequestsArePolicyEdges(org, e);
    }
    forall e | e in trust ensures e.relation == CanAssume {
      AssumeRequestsExactly(org, e);
    }
    forall e | e in escalate ensures e.relation == CanEscalate {
      var u, v := EscalateRequestSound(org, e);
    }
  }

  /** What is listed stays listed. */
  lemma AddAllKeeps(edges: seq<GraphEdge>, requests: seq<GraphEdge>)
    ensures edges <= AddAll(edges, requests)
  {
    AddAllGrows(edges, requests);
  }

  /** Every requested edge is listed, under its key. */
  lemma Arrives(edges: seq<GraphEdge>, requests: seq<GraphEdge>, e: GraphEdge) returns (stored: GraphEdge)
    requires e in requests
    ensures stored in AddAll(edges, requests) && Key(stored) == Key(e)
  {
    AddAllGrows(edges, requests);
    stored :| stored in AddAll(edges, requests) && Key(stored) == Key(e);
  }

  lemma RequestsArrive(org: Org, e: GraphEdge) returns (stored: GraphEdge)
    requires e in PolicyRequests(org) || e in AssumeRequests(org) || e in EscalateRequests(org)
    ensures stored in AllEdges(org) && Key(stored) == Key(e)
  {
    AddAllKeeps(PolicyPart(org), AssumeRequests(org));
    AddAllKeeps(WithAssume(org), EscalateRequests(org));
    if e in PolicyRequests(org) {
      stored := Arrives([], PolicyRequests(org), e);
    } else if e in AssumeRequests(org) {
      stored := Arrives(PolicyPart(org), AssumeRequests(org), e);
    } else {
      stored := Arrives(WithAssume(org), EscalateRequests(org), e);
    }
  }

  /** No relation of a pair is listed twice. */
  lemma ReturnedEdgesDistinct(org: Org)
    ensures NoRepeats(AllEdges(org))
  {
    AddAllNoRepeats([], PolicyRequests(org));
    AddAllNoRepeats(PolicyPart(org), AssumeRequests(org));
    AddAllNoRepeats(WithAssume(org), EscalateRequests(org));
  }

  lemma ListedAssume(org: Org, e: GraphEdge)
    requires e in AllEdges(org) && e.relation == CanAssume
    ensures e in AssumeRequests(org)
  {
    var policy, trust, escalate := EdgeListParts(org);
    assert e in trust;
  }

  lemma ListedEscalate(org: Org, e: GraphEdge)
    requires e in AllEdges(org) && e.relation == CanEscalate
    ensures e in EscalateRequests(org)
  {
    var policy, trust, escalate := EdgeListParts(org);
    assert e in escalate;
  }

  /** Of the three policy relations the returned list holds exactly the edges
      that attachments and Allow statements give: HAS_POLICY for an attached
      existing policy, GRANTS_ACTION for each of its actions, with the right
      sensitivity, and ON_RESOURCE for each action and resource of a statement. */
  lemma ReturnedPolicyEdgesExactly(org: Org, e: GraphEdge)
    ensures e in AllEdges(org) && e.relation in {HasPolicy, Grants, OnResource} <==> IsDue(org, e)
  {
    if e in AllEdges(org) && e.relation in {HasPolicy, Grants, OnResource} {
      ListedPolicyEdgeIsDue(org, e);
    }
    if IsDue(org, e) {
      DueIsRequested(org, e);
      var stored := RequestsArrive(org, e);
      ListedPolicyEdgeIsDue(org, stored);
      DueByKey(org, e, stored);
    }
  }

  lemma ListedPolicyEdgeIsDue(org: Org, e: GraphEdge)
    requires e in AllEdges(org) && e.relation != CanAssume && e.relation != CanEscalate
    ensures IsDue(org, e)
  {
    var policy, trust, escalate := EdgeListParts(org);
    assert e in policy;
    PolicyRequestIsDue(org, e);
  }

  /** The policy edge with a given key. */
  function PolicyEdgeOf(k: EdgeKey): GraphEdge {
    if k.relation == HasPolicy then HasPolicyEdge(k.src.uid, k.dst.uid)
    else if k.relation == Grants then GrantEdge(k.src.uid, k.dst.uid)
    else ResourceEdge(k.src.uid, k.dst.uid)
  }

  lemma KeysDecide(u: string, v: string)
    ensures PolicyEdgeOf(Key(HasPolicyEdge(u, v))) == HasPolicyEdge(u, v)
    ensures PolicyEdgeOf(Key(GrantEdge(u, v))) == GrantEdge(u, v)
    ensures PolicyEdgeOf(Key(ResourceEdge(u, v))) == ResourceEdge(u, v)
  {
  }

  lemma DueIsOfKey(org: Org, e: GraphEdge)
    requires IsDue(org, e)
    ensures e == PolicyEdgeOf(Key(e))
  {
    KeysDecide(e.src.uid, e.dst.uid);
  }

  /** The key of a due edge decides the rest of it. */
  lemma DueByKey(org: Org, a: GraphEdge, b: GraphEdge)
    requires IsDue(org, a) && IsDue(org, b) && Key(a) == Key(b)
    ensures a == b
  {
    DueIsOfKey(org, a);
    DueIsOfKey(org, b);
  }

  /** The returned list holds a CAN_ASSUME edge exactly for the trusted pairs. */
  lemma AssumesAreListed(org: Org, u: string, v: string)
    ensures AssumeEdge(u, v) in AllEdges(org) <==> Trusts(org, u, v)
  {
    var wanted := AssumeEdge(u, v);
    AssumeRequestsExactly(org, wanted);
    if wanted in AllEdges(org) {
      ListedAssume(org, wanted);
    }
    if Trusts(org, u, v) {
      var e := RequestsArrive(org, wanted);
      ListedAssume(org, e);
      AssumeRequestsExactly(org, e);
    }
  }

  /** It holds a CAN_ESCALATE edge exactly for the escalating pairs, so a pair
      with both relations is listed under both. */
  lemma EscalationsAreListed(org: Org, u: string, v: string)
    ensures (exists e :: e in AllEdges(org) && IsEscalation(e, u, v)) <==> Escalates(org, u, v)
  {
    if e :| e in AllEdges(org) && IsEscalation(e, u, v) {
      ListedEscalate(org, e);
      var u', v' := EscalateRequestSound(org, e);
    }
    if Escalates(org, u, v) {
      var r := EscalateRequestComplete(org, u, v);
      var e := RequestsArrive(org, r);
      ListedEscalate(org, e);
      var u', v' := EscalateRequestSound(org, e);
    }
  }

  lemma {:induction false} StoreConcat(a: seq<GraphEdge>, b: seq<GraphEdge>)
    ensures Store(a + b) == Store(a) + Store(b)
    decreases |b|
  {
    if b == [] {
      assert a + b == a;
    } else {
      assert (a + b)[..|a + b| - 1] == a + b[..|b| - 1];
      StoreConcat(a, b[..|b| - 1]);
    }
  }

  ghost predicate StoredFrom(edges: seq<GraphEdge>, x: (Node, Node), attrs: EdgeAttrs) {
    exists e :: e in edges && (e.src, e.dst) == x && Attrs(e) == attrs
  }

  lemma {:induction false} StoreExactly(edges: seq<GraphEdge>)
    ensures forall e :: e in edges ==> (e.src, e.dst) in Store(edges)
    ensures forall x :: x in Store(edges) ==> StoredFrom(edges, x, Store(edges)[x])
  {
    if edges != [] {
      var init := edges[..|edges| - 1];
      var last := edges[|edges| - 1];
      StoreExactly(init);
      forall e | e in edges ensures (e.src, e.dst) in Store(edges) {
        assert e in init || e == last;
      }
      forall x | x in Store(edges) ensures StoredFrom(edges, x, Store(edges)[x]) {
        if x == (last.src, last.dst) {
          assert last in edges;
        } else {
          assert StoredFrom(init, x, Store(init)[x]);
          var e :| e in init && (e.src, e.dst) == x && Attrs(e) == Store(init)[x];
          assert e in edges;
        }
      }
    }
  }

  /** `x` is the pair of two principals of which the first escalates. */
  ghost predicate EscalatingPair(org: Org, x: (Node, Node)) {
    exists u, v :: x == (P(u), P(v)) && Escalates(org, u, v)
  }

  ghost predicate TrustedPair(org: Org, x: (Node, Node)) {
    exists u, v :: x == (P(u), P(v)) && Trusts(org, u, v)
  }

  lemma EscalatingPairsIn(org: Org, policy: seq<GraphEdge>, trust: seq<GraphEdge>, escalate: seq<GraphEdge>, x: (Node, Node))
    requires AllEdges(org) == policy + trust + escalate
    requires forall e :: e in policy ==> IsPolicyEdge(e)
    requires forall e :: e in trust ==> e.relation == CanAssume
    requires forall e :: e in escalate ==> e in EscalateRequests(org)
    ensures EscalatingPair(org, x) <==> exists e :: e in escalate && (e.src, e.dst) == x
  {
    if u, v :| x == (P(u), P(v)) && Escalates(org, u, v) {
      EscalationsAreListed(org, u, v);
      var e :| e in AllEdges(org) && IsEscalation(e, u, v);
      assert e in escalate;
    }
    if e :| e in escalate && (e.src, e.dst) == x {
      var u, v := EscalateRequestSound(org, e);
    }
  }

  lemma TrustedPairsIn(org: Org, policy: seq<GraphEdge>, trust: seq<GraphEdge>, escalate: seq<GraphEdge>, x: (Node, Node))
    requires AllEdges(org) == policy + trust + escalate
    requires forall e :: e in policy ==> IsPolicyEdge(e)
    requires forall e :: e in trust ==> e in AssumeRequests(org)
    requires forall e :: e in escalate ==> e.relation == CanEscalate
    ensures TrustedPair(org, x) <==> exists e :: e in trust && (e.src, e.dst) == x
  {
    if u, v :| x == (P(u), P(v)) && Trusts(org, u, v) {
      AssumesAreListed(org, u, v);
      assert AssumeEdge(u, v) in trust;
    }
    if e :| e in trust && (e.src, e.dst) == x {
      AssumeRequestsExactly(org, e);
    }
  }

  /** In the graph the relation of a pair is its CAN_ESCALATE edge if it has
      one, else its CAN_ASSUME edge, else a policy relation. */
  lemma StoredRelation(org: Org, x: (Node, Node))
    ensures var g := Store(AllEdges(org));
      && (EscalatingPair(org, x) ==> x in g && g[x].relation == CanEscalate)
      && (TrustedPair(org, x) && !EscalatingPair(org, x) ==> x in g && g[x].relation == CanAssume)
      && (x in g && !TrustedPair(org, x) && !EscalatingPair(org, x) ==> g[x].relation !in {CanAssume, CanEscalate})
  {
    var policy, trust, escalate := EdgeListParts(org);
    EscalatingPairsIn(org, policy, trust, escalate, x);
    TrustedPairsIn(org, policy, trust, escalate, x);
    StoreConcat(policy + trust, escalate);
    StoreConcat(policy, trust);
    StoreExactly(policy);
    StoreExactly(trust);
    StoreExactly(escalate);
    assert x in Store(escalate) <==> EscalatingPair(org, x);
    assert x in Store(trust) <==> TrustedPair(org, x);
  }

  /** A pair is stored as CAN_ESCALATE when it escalates, trusted or not, and as
      CAN_ASSUME when it is trusted and does not escalate. */
  lemma StoredExactly(org: Org, x: (Node, Node))
    ensures var g := Store(AllEdges(org));
      && (x in AssumePairs(g) <==>
            exists u, v :: x == (P(u), P(v)) && Trusts(org, u, v) && !Escalates(org, u, v))
      && (x in EscapePairs(g) <==>
            exists u, v :: x == (P(u), P(v)) && (Trusts(org, u, v) || Escalates(org, u, v)))
  {
    StoredRelation(org, x);
  }

  // ----- the stored CAN_ASSUME closure against the intended one -----

  ghost predicate UniqueUids(org: Org) {
    forall i, j :: 0 <= i < j < |org.principals| ==> org.principals[i].uid != org.principals[j].uid
  }

  lemma SameUid(org: Org, p: PrincipalInfo, q: PrincipalInfo)
    requires UniqueUids(org) && p in org.principals && q in org.principals && p.uid == q.uid
    ensures p == q
  {
  }

  /** The CAN_ASSUME pairs of the returned edge list. */
  ghost function TrustPairs(org: Org): set<(Node, Node)> {
    set e | e in AllEdges(org) && e.relation == CanAssume :: (e.src, e.dst)
  }

  ghost function IntendedAssumable(org: Org, uid: string): set<string> {
    Closure(TrustPairs(org), uid)
  }

  /** Some principal with this uid holds iam:PassRole and a compute launch. */
  ghost predicate Launches(org: Org, u: string) {
    exists p :: p in org.principals && p.uid == u && CanLaunch(PrincipalGrants(org, p))
  }

  ghost predicate TrustsALauncher(org: Org) {
    exists u, v :: Trusts(org, u, v) && Launches(org, u)
  }

  lemma TrustPairsExactly(org: Org, x: (Node, Node))
    ensures x in TrustPairs(org) <==> exists u, v :: x == (P(u), P(v)) && Trusts(org, u, v)
  {
    if x in TrustPairs(org) {
      var e :| e in AllEdges(org) && e.relation == CanAssume && x == (e.src, e.dst);
      ListedAssume(org, e);
      AssumeRequestsExactly(org, e);
    }
    if u, v :| x == (P(u), P(v)) && Trusts(org, u, v) {
      AssumesAreListed(org, u, v);
    }
  }

  lemma LauncherEscalates(org: Org, u: string, v: string)
    requires Launches(org, u) && Trusts(org, u, v)
    ensures Escalates(org, u, v)
  {
    var p :| p in org.principals && p.uid == u && CanLaunch(PrincipalGrants(org, p));
    var r :| r in org.principals && r.uid == v && TrustedBy(r, u);
    assert HasTarget(org, v, true);
    assert EscalatesTo(org, p, v);
  }

  lemma OnlyLaunchersEscalateWhereTrusted(org: Org, u: string, v: string)
    requires UniqueUids(org) && Trusts(org, u, v) && Escalates(org, u, v)
    ensures Launches(org, u)
  {
    var p :| p in org.principals && p.uid == u && EscalatesTo(org, p, v);
    var r :| r in org.principals && r.uid == v && TrustedBy(r, u);
    forall q | q in org.principals && q.uid == v ensures q.kind == "role" {
      SameUid(org, q, r);
    }
    assert !HasTarget(org, v, false);
  }

  /** A launcher has no stored CAN_ASSUME pair, so no assumable role. */
  lemma LauncherAssumesNothing(org: Org, u: string)
    requires Launches(org, u)
    ensures Assumable(ModelOf(org), u) == {}
  {
    var pairs := AssumePairs(Store(AllEdges(org)));
    forall w ensures (P(u), w) !in pairs {
      StoredExactly(org, (P(u), w));
      forall v | Trusts(org, u, v) ensures Escalates(org, u, v) {
        LauncherEscalates(org, u, v);
      }
    }
    forall v | Reaches(pairs, P(u), v) ensures v == P(u) {
      ReachesStuck(pairs, P(u), v);
    }
  }

  /** A trusted pair that stays CAN_ASSUME: the principal is no launcher. */
  ghost predicate AssumeHop(org: Org, u: string, v: string) {
    Trusts(org, u, v) && !Launches(org, u)
  }

  lemma TrustedEscalatesExactly(org: Org, u: string, v: string)
    requires UniqueUids(org) && Trusts(org, u, v)
    ensures Escalates(org, u, v) <==> Launches(org, u)
  {
    if Escalates(org, u, v) {
      OnlyLaunchersEscalateWhereTrusted(org, u, v);
    }
    if Launches(org, u) {
      LauncherEscalates(org, u, v);
    }
  }

  lemma StoredAssumeIsHop(org: Org, x: (Node, Node)) returns (u: string, v: string)
    requires UniqueUids(org) && x in AssumePairs(Store(AllEdges(org)))
    ensures x == (P(u), P(v)) && AssumeHop(org, u, v)
  {
    StoredExactly(org, x);
    u, v :| x == (P(u), P(v)) && Trusts(org, u, v) && !Escalates(org, u, v);
    TrustedEscalatesExactly(org, u, v);
  }

  lemma AssumeHopIsStored(org: Org, u: string, v: string)
    requires UniqueUids(org) && AssumeHop(org, u, v)
    ensures (P(u), P(v)) in AssumePairs(Store(AllEdges(org)))
  {
    TrustedEscalatesExactly(org, u, v);
    StoredExactly(org, (P(u), P(v)));
  }

  lemma AssumePairsExactly(org: Org, x: (Node, Node))
    requires UniqueUids(org)
    ensures x in AssumePairs(Store(AllEdges(org))) <==> exists u, v :: x == (P(u), P(v)) && AssumeHop(org, u, v)
  {
    if x in AssumePairs(Store(AllEdges(org))) {
      var u, v := StoredAssumeIsHop(org, x);
    } else if u, v :| x == (P(u), P(v)) && AssumeHop(org, u, v) {
      AssumeHopIsStored(org, u, v);
    }
  }

  lemma NoLauncherKeepsPairs(org: Org)
    requires UniqueUids(org) && !TrustsALauncher(org)
    ensures AssumePairs(Store(AllEdges(org))) == TrustPairs(org)
  {
    forall x ensures x in AssumePairs(Store(AllEdges(org))) <==> x in TrustPairs(org) {
      StoredExactly(org, x);
      TrustPairsExactly(org, x);
      forall u, v | Trusts(org, u, v) && Escalates(org, u, v) ensures TrustsALauncher(org) {
        OnlyLaunchersEscalateWhereTrusted(org, u, v);
      }
    }
  }

  /** Every principal's assumable roles are the CAN_ASSUME closure of the
      returned edges exactly when no role trusts a PassRole launcher. */
  lemma AssumableIsIntendedExactlyWhen(org: Org)
    requires UniqueUids(org)
    ensures (forall uid :: Assumable(ModelOf(org), uid) == IntendedAssumable(org, uid)) <==> !TrustsALauncher(org)
  {
    if TrustsALauncher(org) {
      var u, v :| Trusts(org, u, v) && Launches(org, u);
      LauncherAssumesNothing(org, u);
      TrustPairsExactly(org, (P(u), P(v)));
      ReachesSelf(TrustPairs(org), P(u));
      ReachesStep(TrustPairs(org), P(u), P(u), P(v));
      assert P(v) in Heads(TrustPairs(org)) by {
        assert (P(u), P(v)) in TrustPairs(org);
      }
      assert P(v).uid in IntendedAssumable(org, u);
    } else {
      NoLauncherKeepsPairs(org);
    }
  }

  // ----- recorded paths, in terms of principals -----

  /** One escalation hop between principals. */
  ghost predicate Hop(org: Org, u: string, v: string) {
    Trusts(org, u, v) || Escalates(org, u, v)
  }

  ghost predicate HopWalk(org: Org, q: seq<string>, u: string, v: string) {
    && q != [] && q[0] == u && q[|q| - 1] == v
    && forall i :: 0 <= i < |q| - 1 ==> Hop(org, q[i], q[i + 1])
  }

  ghost predicate AdminEquivalent(org: Org, u: string) {
    exists p :: p in org.principals && p.uid == u
      && ("*" in PrincipalGrants(org, p) || SelfAttachOf(org, p).Some?)
  }

  /** The principal holds `*` outright. */
  ghost predicate HoldsStar(org: Org, u: string) {
    exists p :: p in org.principals && p.uid == u && "*" in PrincipalGrants(org, p)
  }

  lemma {:induction false} GrantedByExactly(org: Org, principals: seq<PrincipalInfo>)
    ensures forall uid :: uid in GrantedBy(org, principals) <==> exists p :: p in principals && p.uid == uid
    ensures forall uid :: uid in GrantedBy(org, principals) ==>
              exists p :: p in principals && p.uid == uid && GrantedBy(org, principals)[uid] == PrincipalGrants(org, p)
  {
    if principals != [] {
      var init := principals[..|principals| - 1];
      var last := principals[|principals| - 1];
      GrantedByExactly(org, init);
      assert forall p :: p in principals <==> p in init || p == last;
    }
  }

  lemma {:induction false} SelfAttachExactly(org: Org, principals: seq<PrincipalInfo>)
    ensures forall uid :: uid in SelfAttach(org, principals) <==>
              exists p :: p in principals && p.uid == uid && SelfAttachOf(org, p).Some?
  {
    if principals != [] {
      var init := principals[..|principals| - 1];
      var last := principals[|principals| - 1];
      SelfAttachExactly(org, init);
      assert forall p :: p in principals <==> p in init || p == last;
    }
  }

  lemma DirectAdminsExactly(org: Org, u: string)
    requires UniqueUids(org)
    ensures P(u) in DirectAdmins(ModelOf(org)) <==> HoldsStar(org, u)
  {
    GrantedByExactly(org, org.principals);
    var granted := GrantedBy(org, org.principals);
    if u in granted {
      var p :| p in org.principals && p.uid == u && granted[u] == PrincipalGrants(org, p);
      forall q | q in org.principals && q.uid == u ensures q == p {
        SameUid(org, q, p);
      }
    }
  }

  lemma AdminsExactly(org: Org, u: string)
    requires UniqueUids(org)
    ensures P(u) in Admins(ModelOf(org)) <==> AdminEquivalent(org, u)
    ensures forall t :: t in Admins(ModelOf(org)) ==> t == P(t.uid)
  {
    DirectAdminsExactly(org, u);
    SelfAttachExactly(org, org.principals);
  }

  lemma NodeWalkIsHopWalk(org: Org, nodes: seq<Node>, u: string, t: Node)
    requires WalkFromTo(EscapePairs(Store(AllEdges(org))), nodes, P(u), t)
    ensures HopWalk(org, UidsOf(nodes), u, t.uid)
  {
    var edges := EscapePairs(Store(AllEdges(org)));
    forall i | 0 <= i < |nodes| - 1 ensures Hop(org, UidsOf(nodes)[i], UidsOf(nodes)[i + 1]) {
      assert (nodes[i], nodes[i + 1]) in edges;
      StoredExactly(org, (nodes[i], nodes[i + 1]));
    }
  }

  lemma HopWalkIsNodeWalk(org: Org, q: seq<string>, u: string, v: string)
    requires HopWalk(org, q, u, v)
    ensures WalkFromTo(EscapePairs(Store(AllEdges(org))), NodesOf(q), P(u), P(v))
  {
    var edges := EscapePairs(Store(AllEdges(org)));
    forall i | 0 <= i < |q| - 1 ensures (NodesOf(q)[i], NodesOf(q)[i + 1]) in edges {
      assert Hop(org, q[i], q[i + 1]);
      StoredExactly(org, (P(q[i]), P(q[i + 1])));
    }
  }

  lemma {:induction false} LexCommonPrefix(x: string, a: string, b: string)
    ensures Lex(CharLeq, x + a, x + b) <==> Lex(CharLeq, a, b)
  {
    if x == "" {
      assert x + a == a && x + b == b;
    } else {
      assert (x + a)[1..] == x[1..] + a && (x + b)[1..] == x[1..] + b;
      LexCommonPrefix(x[1..], a, b);
    }
  }

  /** Stored principal names sort as their uids do. */
  lemma PrincipalOrder(a: string, b: string)
    ensures StrLeq(Render(P(a)), Render(P(b))) <==> StrLeq(a, b)
  {
    LexCommonPrefix("principal" + [':'], a, b);
  }

  ghost predicate ReachesOther(org: Org, uid: string) {
    exists q, t :: t != uid && AdminEquivalent(org, t) && HopWalk(org, q, uid, t)
  }

  lemma ReachesOtherExactly(org: Org, uid: string)
    requires UniqueUids(org)
    ensures ReachesOtherAdmin(ModelOf(org), uid) <==> ReachesOther(org, uid)
  {
    var m := ModelOf(org);
    if ReachesOtherAdmin(m, uid) {
      var t :| t in Admins(m) && t != P(uid) && Reaches(EscapePairs(m.g), P(uid), t);
      var nodes :| WalkFromTo(EscapePairs(m.g), nodes, P(uid), t);
      NodeWalkIsHopWalk(org, nodes, uid, t);
      AdminsExactly(org, t.uid);
    }
    if ReachesOther(org, uid) {
      var q, t :| t != uid && AdminEquivalent(org, t) && HopWalk(org, q, uid, t);
      HopWalkIsNodeWalk(org, q, uid, t);
      AdminsExactly(org, t);
      assert Reaches(EscapePairs(m.g), P(uid), P(t));
    }
  }

  /** A recorded path to another principal is a real hop walk to an
      admin-equivalent one; none is nearer, and none as near sorts earlier. */
  lemma RecordedPathIsNearest(org: Org, uid: string, path: EscalationPath)
    requires UniqueUids(org) && IsPathFor(ModelOf(org), uid, path)
    requires path.target != uid
    ensures HopWalk(org, path.hops, uid, path.target) && AdminEquivalent(org, path.target)
    ensures forall q, t :: t != uid && AdminEquivalent(org, t) && HopWalk(org, q, uid, t) ==>
              |path.hops| <= |q| && (|path.hops| == |q| ==> StrLeq(path.target, t))
  {
    var m := ModelOf(org);
    var nodes :| RecordsNearest(m, uid, path, nodes);
    var target := nodes[|nodes| - 1];
    NodeWalkIsHopWalk(org, nodes, uid, target);
    AdminsExactly(org, target.uid);
    forall q, t | t != uid && AdminEquivalent(org, t) && HopWalk(org, q, uid, t)
      ensures |path.hops| <= |q| && (|path.hops| == |q| ==> StrLeq(path.target, t))
    {
      HopWalkIsNodeWalk(org, q, uid, t);
      AdminsExactly(org, t);
      PrincipalOrder(path.target, t);
      assert |nodes| <= |NodesOf(q)|;
    }
  }

  lemma {:induction false} OccurrencesOnce(principals: seq<PrincipalInfo>, uid: string)
    requires forall i, j :: 0 <= i < j < |principals| ==> principals[i].uid != principals[j].uid
    ensures Occurrences(principals, uid) == if exists p :: p in principals && p.uid == uid then 1 else 0
  {
    if principals != [] {
      var init := principals[..|principals| - 1];
      var last := principals[|principals| - 1];
      OccurrencesOnce(init, uid);
      assert forall p :: p in principals <==> p in init || p == last;
      assert last in principals;
    }
  }

  /** A principal has exactly one recorded path if it does not hold `*` and
      either has a self-attach primitive or reaches another admin-equivalent
      principal, and none otherwise; the path stays on the principal exactly
      when no other is reachable. */
  lemma RecordedExactlyWhen(org: Org, escalations: Escalations, p: PrincipalInfo)
    requires UniqueUids(org) && p in org.principals
    requires Recorded(ModelOf(org), org.principals, escalations)
    ensures p.uid in escalations <==>
            "*" !in PrincipalGrants(org, p) && (SelfAttachOf(org, p).Some? || ReachesOther(org, p.uid))
    ensures p.uid in escalations ==>
            |escalations[p.uid]| == 1
            && (escalations[p.uid][0].target == p.uid <==> !ReachesOther(org, p.uid))
  {
    var m := ModelOf(org);
    OccurrencesOnce(org.principals, p.uid);
    PrincipalStatus(org, p);
    if p.uid in escalations {
      var path := escalations[p.uid][0];
      assert IsPathFor(m, p.uid, path);
      if ReachesOther(org, p.uid) {
        var nodes :| RecordsNearest(m, p.uid, path, nodes);
        AdminsExactly(org, path.target);
      }
    }
  }

  lemma PrincipalStatus(org: Org, p: PrincipalInfo)
    requires UniqueUids(org) && p in org.principals
    ensures P(p.uid) in DirectAdmins(ModelOf(org)) <==> "*" in PrincipalGrants(org, p)
    ensures P(p.uid) in Admins(ModelOf(org)) <==>
            "*" in PrincipalGrants(org, p) || SelfAttachOf(org, p).Some?
    ensures ReachesOtherAdmin(ModelOf(org), p.uid) <==> ReachesOther(org, p.uid)
  {
    DirectAdminsExactly(org, p.uid);
    AdminsExactly(org, p.uid);
    ReachesOtherExactly(org, p.uid);
    forall q | q in org.principals && q.uid == p.uid ensures q == p {
      SameUid(org, q, p);
    }
  }

  // ----- more grants -----

  /** Same principals, and every one of them is granted at least as much. */
  ghost predicate GrantsMore(less: Org, more: Org) {
    && less.principals == more.principals
    && forall p :: p in less.principals ==> PrincipalGrants(less, p) <= PrincipalGrants(more, p)
  }

  /** Every statement is still there, granting at least what it granted. */
  ghost predicate DocumentGrows(less: Document, more: Document) {
    forall st :: st in Statements(less) ==>
      exists st' :: st' in Statements(more) && StatementGrants(st) <= StatementGrants(st')
  }

  ghost predicate PoliciesGrow(less: seq<PolicyRecord>, more: seq<PolicyRecord>) {
    && |less| == |more|
    && forall i :: 0 <= i < |less| ==>
         less[i].uid == more[i].uid && DocumentGrows(less[i].document, more[i].document)
  }

  lemma {:induction false} IndexGrows(less: seq<PolicyRecord>, more: seq<PolicyRecord>)
    requires PoliciesGrow(less, more)
    ensures PolicyIndex(less).Keys == PolicyIndex(more).Keys
    ensures forall uid :: uid in PolicyIndex(less) ==>
              DocumentGrows(PolicyIndex(less)[uid].document, PolicyIndex(more)[uid].document)
  {
    if less != [] {
      IndexGrows(less[..|less| - 1], more[..|more| - 1]);
    }
  }

  lemma GrantedThrough(org: Org, p: PrincipalInfo, a: string)
    ensures a in PrincipalGrants(org, p) <==>
            exists uid, st :: uid in p.attached && uid in PolicyIndex(org.policies)
              && st in Statements(PolicyIndex(org.policies)[uid].document) && a in StatementGrants(st)
  {
    var policies := PoliciesFor(org, p);
    if a in PrincipalGrants(org, p) {
      var st :| st in AllStatements(policies) && a in StatementGrants(st);
      InAllStatements(policies, st);
      var policy :| policy in policies && st in Statements(policy.document);
    }
    if uid, st :| uid in p.attached && uid in PolicyIndex(org.policies)
                  && st in Statements(PolicyIndex(org.policies)[uid].document) && a in StatementGrants(st) {
      InAllStatements(policies, st);
      assert PolicyIndex(org.policies)[uid] in policies;
    }
  }

  /** Adding statements anywhere, or actions to a statement, grants more. */
  lemma GrowingPoliciesGrantMore(less: Org, more: Org)
    requires less.principals == more.principals && PoliciesGrow(less.policies, more.policies)
    ensures GrantsMore(less, more)
  {
    IndexGrows(less.policies, more.policies);
    forall p, a | p in less.principals && a in PrincipalGrants(less, p) ensures a in PrincipalGrants(more, p) {
      GrantedThrough(less, p, a);
      GrantedThrough(more, p, a);
      var uid, st :| uid in p.attached && uid in PolicyIndex(less.policies)
                     && st in Statements(PolicyIndex(less.policies)[uid].document) && a in StatementGrants(st);
      assert DocumentGrows(PolicyIndex(less.policies)[uid].document, PolicyIndex(more.policies)[uid].document);
      var st' :| st' in Statements(PolicyIndex(more.policies)[uid].document) && StatementGrants(st) <= StatementGrants(st');
      assert a in StatementGrants(st');
    }
  }

  lemma FirstGrantedMonotone(small: set<string>, large: set<string>, wanted: seq<string>)
    requires small <= large && FirstGranted(small, wanted).Some?
    ensures FirstGranted(large, wanted).Some?
  {
  }

  lemma CanLaunchMonotone(small: set<string>, large: set<string>)
    requires small <= large && CanLaunch(small)
    ensures CanLaunch(large)
  {
  }

  lemma HopMonotone(less: Org, more: Org, u: string, v: string)
    requires GrantsMore(less, more) && Hop(less, u, v)
    ensures Hop(more, u, v)
  {
    if Escalates(less, u, v) {
      var p :| p in less.principals && p.uid == u && EscalatesTo(less, p, v);
      var small, large := PrincipalGrants(less, p), PrincipalGrants(more, p);
      if CanLaunch(small) {
        CanLaunchMonotone(small, large);
      }
      if FirstGranted(small, CREATE_CREDENTIAL_ACTIONS).Some? {
        FirstGrantedMonotone(small, large, CREATE_CREDENTIAL_ACTIONS);
      }
      if FirstGranted(small, SELF_ATTACH_ACTIONS).Some? {
        FirstGrantedMonotone(small, large, SELF_ATTACH_ACTIONS);
      }
      assert EscalatesTo(more, p, v);
    }
  }

  lemma EscapePairsMonotone(less: Org, more: Org)
    requires GrantsMore(less, more)
    ensures EscapePairs(Store(AllEdges(less))) <= EscapePairs(Store(AllEdges(more)))
  {
    forall x | x in EscapePairs(Store(AllEdges(less))) ensures x in EscapePairs(Store(AllEdges(more))) {
      StoredExactly(less, x);
      StoredExactly(more, x);
      var u, v :| x == (P(u), P(v)) && (Trusts(less, u, v) || Escalates(less, u, v));
      HopMonotone(less, more, u, v);
    }
  }

  lemma {:induction false} GrantedByMonotone(less: Org, more: Org, principals: seq<PrincipalInfo>)
    requires GrantsMore(less, more) && forall p :: p in principals ==> p in less.principals
    ensures GrantedBy(less, principals).Keys == GrantedBy(more, principals).Keys
    ensures forall uid :: uid in GrantedBy(less, principals) ==>
              GrantedBy(less, principals)[uid] <= GrantedBy(more, principals)[uid]
  {
    if principals != [] {
      GrantedByMonotone(less, more, principals[..|principals| - 1]);
    }
  }

  lemma {:induction false} SelfAttachMonotone(less: Org, more: Org, principals: seq<PrincipalInfo>)
    requires GrantsMore(less, more) && forall p :: p in principals ==> p in less.principals
    ensures SelfAttach(less, principals).Keys <= SelfAttach(more, principals).Keys
  {
    if principals != [] {
      var p := principals[|principals| - 1];
      SelfAttachMonotone(less, more, principals[..|principals| - 1]);
      if SelfAttachOf(less, p).Some? {
        FirstGrantedMonotone(PrincipalGrants(less, p), PrincipalGrants(more, p), SELF_ATTACH_ACTIONS);
      }
    }
  }

  lemma AdminsMonotone(less: Org, more: Org)
    requires GrantsMore(less, more)
    ensures Admins(ModelOf(less)) <= Admins(ModelOf(more))
  {
    GrantedByMonotone(less, more, less.principals);
    SelfAttachMonotone(less, more, less.principals);
  }

  /** Granting more never takes admin reachability away from anyone. */
  lemma CanReachAdminMonotone(less: Org, more: Org, uid: string)
    requires GrantsMore(less, more) && CanReachAdmin(ModelOf(less), uid)
    ensures CanReachAdmin(ModelOf(more), uid)
  {
    EscapePairsMonotone(less, more);
    AdminsMonotone(less, more);
    if ReachesOtherAdmin(ModelOf(less), uid) {
      var t :| t in Admins(ModelOf(less)) && t != P(uid) && Reaches(EscapePairs(ModelOf(less).g), P(uid), t);
      ReachesMonotone(EscapePairs(ModelOf(less).g), EscapePairs(ModelOf(more).g), P(uid), t);
    }
  }

  // ----- the score -----

  lemma NormBounds(x: nat, y: nat, cap: nat)
    requires cap in {25, 300, 10} && x <= y
    ensures 0.0 <= Norm(x, cap) <= Norm(y, cap) <= 1.0
  {
  }

  lemma BlastScoreRange(sensitive: nat, actions: nat, admin: bool, roles: nat)
    ensures var score := BlastScore(sensitive, actions, admin, roles);
      0 <= score <= 100 && (if admin then 20 <= score else score <= 80)
  {
  }

  lemma BlastScoreMonotone(s1: nat, s2: nat, a1: nat, a2: nat, admin1: bool, admin2: bool, r1: nat, r2: nat)
    requires s1 <= s2 && a1 <= a2 && (admin1 ==> admin2) && r1 <= r2
    ensures BlastScore(s1, a1, admin1, r1) <= BlastScore(s2, a2, admin2, r2)
  {
    NormBounds(s1, s2, 25);
    NormBounds(a1, a2, 300);
    NormBounds(r1, r2, 10);
    ClampMonotone(Blast(s1, a1, admin1, r1), Blast(s2, a2, admin2, r2));
  }

  lemma TrustsSame(less: Org, more: Org, u: string, v: string)
    requires less.principals == more.principals
    ensures Trusts(less, u, v) <==> Trusts(more, u, v)
  {
  }

  lemma SubsetSize<T>(small: set<T>, large: set<T>)
    requires small <= large
    ensures |small| <= |large|
  {
    assert large == small + (large - small);
  }

  lemma GrantedAtMonotone(less: Org, more: Org, v: string)
    requires GrantsMore(less, more)
    ensures GrantedAt(ModelOf(less), v) <= GrantedAt(ModelOf(more), v)
  {
    GrantedByMonotone(less, more, less.principals);
  }

  lemma UnionMonotone(less: Org, more: Org, uid: string)
    requires GrantsMore(less, more)
    requires Assumable(ModelOf(less), uid) <= Assumable(ModelOf(more), uid)
    ensures UnionActions(ModelOf(less), uid) <= UnionActions(ModelOf(more), uid)
  {
    forall v ensures GrantedAt(ModelOf(less), v) <= GrantedAt(ModelOf(more), v) {
      GrantedAtMonotone(less, more, v);
    }
    UnionOfMore(ModelOf(less), ModelOf(more), uid);
  }

  lemma UnionOfMore(small: Model, large: Model, uid: string)
    requires Assumable(small, uid) <= Assumable(large, uid)
    requires forall v :: GrantedAt(small, v) <= GrantedAt(large, v)
    ensures UnionActions(small, uid) <= UnionActions(large, uid)
  {
    forall a | a in UnionActions(small, uid) ensures a in UnionActions(large, uid) {
      if a !in GrantedAt(small, uid) {
        var v :| v in Assumable(small, uid) && a in GrantedAt(small, v);
        assert a in GrantedAt(large, v);
      }
    }
  }

  /** Some trusted principal becomes a PassRole launcher. */
  ghost predicate TrustedBecomesLauncher(less: Org, more: Org) {
    exists u, v :: Trusts(less, u, v) && Launches(more, u) && !Launches(less, u)
  }

  lemma AssumePairsMonotone(less: Org, more: Org)
    requires UniqueUids(more) && GrantsMore(less, more) && !TrustedBecomesLauncher(less, more)
    ensures AssumePairs(ModelOf(less).g) <= AssumePairs(ModelOf(more).g)
  {
    forall x | x in AssumePairs(ModelOf(less).g) ensures x in AssumePairs(ModelOf(more).g) {
      AssumePairsExactly(less, x);
      AssumePairsExactly(more, x);
      var u, v :| x == (P(u), P(v)) && AssumeHop(less, u, v);
      TrustsSame(less, more, u, v);
      assert AssumeHop(more, u, v);
    }
  }

  lemma ClosureMonotone(small: set<(Node, Node)>, large: set<(Node, Node)>, uid: string)
    requires small <= large
    ensures Closure(small, uid) <= Closure(large, uid)
  {
    forall v | v in Heads(small) && v != P(uid) && Reaches(small, P(uid), v) ensures v.uid in Closure(large, uid) {
      ReachesMonotone(small, large, P(uid), v);
      ReachedIsHead(large, P(uid), v);
    }
  }

  lemma NewLauncherLosesRole(less: Org, more: Org, u: string, v: string)
    requires UniqueUids(less) && Trusts(less, u, v) && Launches(more, u) && !Launches(less, u)
    ensures v in Assumable(ModelOf(less), u) && Assumable(ModelOf(more), u) == {}
  {
    var pairs := AssumePairs(ModelOf(less).g);
    LauncherAssumesNothing(more, u);
    assert AssumeHop(less, u, v);
    AssumePairsExactly(less, (P(u), P(v)));
    ReachesSelf(pairs, P(u));
    ReachesStep(pairs, P(u), P(u), P(v));
    ReachedIsHead(pairs, P(u), P(v));
    assert P(v).uid in Closure(pairs, u);
  }

  /** Granting more takes no assumable role from any principal exactly when it
      turns no trusted principal into a PassRole launcher. */
  lemma AssumableMonotoneExactlyWhen(less: Org, more: Org)
    requires UniqueUids(more) && GrantsMore(less, more)
    ensures (forall uid :: Assumable(ModelOf(less), uid) <= Assumable(ModelOf(more), uid))
            <==> !TrustedBecomesLauncher(less, more)
  {
    if u, v :| Trusts(less, u, v) && Launches(more, u) && !Launches(less, u) {
      NewLauncherLosesRole(less, more, u, v);
    } else {
      AssumePairsMonotone(less, more);
      forall uid ensures Assumable(ModelOf(less), uid) <= Assumable(ModelOf(more), uid) {
        ClosureMonotone(AssumePairs(ModelOf(less).g), AssumePairs(ModelOf(more).g), uid);
      }
    }
  }

  /** Granting more never lowers the reachable counts or the blast radius, unless
      it turns a trusted principal into a PassRole launcher. */
  lemma ScoreMonotone(less: Org, more: Org, uid: string)
    requires UniqueUids(more) && GrantsMore(less, more) && !TrustedBecomesLauncher(less, more)
    ensures UnionActions(ModelOf(less), uid) <= UnionActions(ModelOf(more), uid)
    ensures ScoreOf(ModelOf(less), uid) <= ScoreOf(ModelOf(more), uid)
  {
    AssumableMonotoneExactlyWhen(less, more);
    UnionMonotone(less, more, uid);
    var small, large := UnionActions(ModelOf(less), uid), UnionActions(ModelOf(more), uid);
    SubsetSize(small, large);
    SubsetSize(SensitiveAmong(small), SensitiveAmong(large));
    SubsetSize(Assumable(ModelOf(less), uid), Assumable(ModelOf(more), uid));
    if CanReachAdmin(ModelOf(less), uid) {
      CanReachAdminMonotone(less, more, uid);
    }
    BlastScoreMonotone(|SensitiveAmong(small)|, |SensitiveAmong(large)|, |small|, |large|,
                       CanReachAdmin(ModelOf(less), uid), CanReachAdmin(ModelOf(more), uid),
                       |Assumable(ModelOf(less), uid)|, |Assumable(ModelOf(more), uid)|);
  }

  // ----- the reachable counts, in terms of principals -----

  /** `q` lists uids along trusted pairs out of principals that launch nothing. */
  ghost predicate AssumeWalk(org: Org, q: seq<string>, u: string, v: string) {
    && q != [] && q[0] == u && q[|q| - 1] == v
    && forall i :: 0 <= i < |q| - 1 ==> AssumeHop(org, q[i], q[i + 1])
  }

  lemma NodeWalkIsAssumeWalk(org: Org, nodes: seq<Node>, u: string, t: Node)
    requires UniqueUids(org) && WalkFromTo(AssumePairs(ModelOf(org).g), nodes, P(u), t)
    ensures AssumeWalk(org, UidsOf(nodes), u, t.uid)
  {
    var pairs := AssumePairs(ModelOf(org).g);
    forall i | 0 <= i < |nodes| - 1 ensures AssumeHop(org, UidsOf(nodes)[i], UidsOf(nodes)[i + 1]) {
      assert (nodes[i], nodes[i + 1]) in pairs;
      AssumePairsExactly(org, (nodes[i], nodes[i + 1]));
    }
  }

  lemma WalkEndsAtPrincipal(org: Org, nodes: seq<Node>, u: string, t: Node)
    requires UniqueUids(org) && WalkFromTo(AssumePairs(ModelOf(org).g), nodes, P(u), t)
    ensures t == P(t.uid)
  {
    if |nodes| > 1 {
      var pair := (nodes[|nodes| - 2], nodes[|nodes| - 1]);
      assert pair in AssumePairs(ModelOf(org).g);
      AssumePairsExactly(org, pair);
    }
  }

  lemma AssumeWalkIsNodeWalk(org: Org, q: seq<string>, u: string, v: string)
    requires UniqueUids(org) && AssumeWalk(org, q, u, v)
    ensures WalkFromTo(AssumePairs(ModelOf(org).g), NodesOf(q), P(u), P(v))
  {
    forall i | 0 <= i < |q| - 1 ensures (NodesOf(q)[i], NodesOf(q)[i + 1]) in AssumePairs(ModelOf(org).g) {
      assert AssumeHop(org, q[i], q[i + 1]);
      AssumePairsExactly(org, (P(q[i]), P(q[i + 1])));
    }
  }

  /** The other uids at the end of assume walks. */
  lemma AssumableExactly(org: Org, u: string, v: string)
    requires UniqueUids(org)
    ensures v in Assumable(ModelOf(org), u) <==> v != u && exists q :: AssumeWalk(org, q, u, v)
  {
    var pairs := AssumePairs(ModelOf(org).g);
    if v in Assumable(ModelOf(org), u) {
      var t :| t in Heads(pairs) && t != P(u) && Reaches(pairs, P(u), t) && t.uid == v;
      var nodes :| WalkFromTo(pairs, nodes, P(u), t);
      NodeWalkIsAssumeWalk(org, nodes, u, t);
      WalkEndsAtPrincipal(org, nodes, u, t);
    }
    if q :| v != u && AssumeWalk(org, q, u, v) {
      AssumeWalkIsNodeWalk(org, q, u, v);
      assert Reaches(pairs, P(u), P(v));
      ReachedIsHead(pairs, P(u), P(v));
      assert P(v).uid in Closure(pairs, u);
    }
  }

  lemma GrantedAtExactly(org: Org, uid: string, a: string)
    requires UniqueUids(org)
    ensures a in GrantedAt(ModelOf(org), uid) <==>
      exists p :: p in org.principals && p.uid == uid && a in PrincipalGrants(org, p)
  {
    GrantedByExactly(org, org.principals);
    var granted := GrantedBy(org, org.principals);
    if uid in granted {
      var p :| p in org.principals && p.uid == uid && granted[uid] == PrincipalGrants(org, p);
      forall q | q in org.principals && q.uid == uid ensures q == p {
        SameUid(org, q, p);
      }
    }
  }

  /** The counted actions are the grants of the principal itself and of every
      principal an assume walk leads to. */
  lemma ReachableActionsExactly(org: Org, uid: string, a: string)
    requires UniqueUids(org)
    ensures a in UnionActions(ModelOf(org), uid) <==>
      exists p, q :: p in org.principals && AssumeWalk(org, q, uid, p.uid) && a in PrincipalGrants(org, p)
  {
    if a in UnionActions(ModelOf(org), uid) {
      CountedIsReached(org, uid, a);
    }
    if p, q :| p in org.principals && AssumeWalk(org, q, uid, p.uid) && a in PrincipalGrants(org, p) {
      ReachedIsCounted(org, uid, p, q, a);
    }
  }

  lemma CountedIsReached(org: Org, uid: string, a: string)
    requires UniqueUids(org) && a in UnionActions(ModelOf(org), uid)
    ensures exists p, q :: p in org.principals && AssumeWalk(org, q, uid, p.uid) && a in PrincipalGrants(org, p)
  {
    var m := ModelOf(org);
    assert AssumeWalk(org, [uid], uid, uid);
    var v := uid;
    if a !in GrantedAt(m, uid) {
      v :| v in Assumable(m, uid) && a in GrantedAt(m, v);
    }
    GrantedAtExactly(org, v, a);
    AssumableExactly(org, uid, v);
  }

  lemma ReachedIsCounted(org: Org, uid: string, p: PrincipalInfo, q: seq<string>, a: string)
    requires UniqueUids(org) && p in org.principals && AssumeWalk(org, q, uid, p.uid) && a in PrincipalGrants(org, p)
    ensures a in UnionActions(ModelOf(org), uid)
  {
    GrantedAtExactly(org, p.uid, a);
    AssumableExactly(org, uid, p.uid);
  }
}
