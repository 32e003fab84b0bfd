/** The returned edges, the administrators and the recorded paths in terms of the
    dataset: its statements, the entries they grant and the names of actions. */
module DatasetTheorems {
  import opened Ordering
  import opened Text
  import opened Policy
  import opened Records
  import opened GraphEdges
  import opened Digraph
  import opened PermissionGraph
  import opened GraphTheorems

  /** The names of nodes and relations. */
  lemma NamesExactly(uid: string)
    ensures Render(P(uid)) == "principal:" + uid && Render(Node(PolicyKind, uid)) == "policy:" + uid
    ensures Render(Node(ActionKind, uid)) == "action:" + uid && Render(Node(ResourceKind, uid)) == "resource:" + uid
    ensures RelationName(HasPolicy) == "HAS_POLICY" && RelationName(Grants) == "GRANTS_ACTION"
    ensures RelationName(OnResource) == "ON_RESOURCE"
    ensures RelationName(CanAssume) == "CAN_ASSUME" && RelationName(CanEscalate) == "CAN_ESCALATE"
  {
  }

  // ----- the entries that give each primitive -----

  /** One of the entries is granted. */
  predicate Holds(actions: set<string>, entries: set<string>) {
    exists e :: e in entries && e in actions
  }

  predicate MayPassRole(actions: set<string>) {
    Holds(actions, {"*", "iam:*", "iam:PassRole"})
  }

  predicate MayStartCompute(actions: set<string>) {
    Holds(actions, {"*", "ec2:*", "ec2:RunInstances", "lambda:*", "lambda:CreateFunction"})
  }

  /** The credential action a principal escalates by: a wildcard gives the first. */
  function CredentialAction(actions: set<string>): Option<string> {
    if Holds(actions, {"*", "iam:*", "iam:CreateAccessKey"}) then Some("iam:CreateAccessKey")
    else if "iam:CreateLoginProfile" in actions then Some("iam:CreateLoginProfile")
    else if "iam:UpdateLoginProfile" in actions then Some("iam:UpdateLoginProfile")
    else None
  }

  function AttachAction(actions: set<string>): Option<string> {
    if Holds(actions, {"*", "iam:*", "iam:AttachUserPolicy"}) then Some("iam:AttachUserPolicy")
    else if "iam:AttachRolePolicy" in actions then Some("iam:AttachRolePolicy")
    else if "iam:PutUserPolicy" in actions then Some("iam:PutUserPolicy")
    else if "iam:PutRolePolicy" in actions then Some("iam:PutRolePolicy")
    else None
  }

  /** An action of a service is granted by itself and by the two wildcards. */
  lemma GrantedByThree(actions: set<string>, service: string, name: string)
    requires ':' !in service
    ensures GrantsAction(actions, service + ":" + name)
       <==> "*" in actions || service + ":*" in actions || service + ":" + name in actions
  {
    BeforeConcat(service, ':', name);
    assert service + ":" + name == service + [':'] + name;
  }

  lemma FirstGrantedStep(actions: set<string>, wanted: seq<string>)
    requires wanted != []
    ensures FirstGranted(actions, wanted)
         == if GrantsAction(actions, wanted[0]) then Some(wanted[0]) else FirstGranted(actions, wanted[1..])
  {
    var first, rest := FirstGranted(actions, wanted), FirstGranted(actions, wanted[1..]);
    if GrantsAction(actions, wanted[0]) {
      assert wanted[0] in wanted;
    } else {
      assert forall a :: a in wanted <==> a == wanted[0] || a in wanted[1..];
      if first.Some? {
        var i :| IsFirstGranted(actions, wanted, i) && wanted[i] == first.value;
        var j :| IsFirstGranted(actions, wanted[1..], j) && wanted[1..][j] == rest.value;
        assert IsFirstGranted(actions, wanted, j + 1) && wanted[j + 1] == rest.value;
      }
    }
  }

  lemma FirstOfNone(actions: set<string>)
    ensures FirstGranted(actions, []) == None
  {
  }

  lemma FirstOfTwo(actions: set<string>, a: string, b: string)
    ensures FirstGranted(actions, [a, b]).Some? <==> GrantsAction(actions, a) || GrantsAction(actions, b)
  {
    assert a in [a, b] && b in [a, b];
  }

  lemma FirstOfThree(actions: set<string>, a: string, b: string, c: string)
    ensures FirstGranted(actions, [a, b, c])
         == if GrantsAction(actions, a) then Some(a) else if GrantsAction(actions, b) then Some(b)
            else if GrantsAction(actions, c) then Some(c) else None
  {
    FirstGrantedStep(actions, [a, b, c]);
    FirstGrantedStep(actions, [b, c]);
    FirstGrantedStep(actions, [c]);
    assert [a, b, c][1..] == [b, c] && [b, c][1..] == [c] && [c][1..] == [];
    FirstOfNone(actions);
  }

  lemma FirstOfFour(actions: set<string>, a: string, b: string, c: string, d: string)
    ensures FirstGranted(actions, [a, b, c, d])
         == if GrantsAction(actions, a) then Some(a) else if GrantsAction(actions, b) then Some(b)
            else if GrantsAction(actions, c) then Some(c) else if GrantsAction(actions, d) then Some(d) else None
  {
    FirstGrantedStep(actions, [a, b, c, d]);
    assert [a, b, c, d][1..] == [b, c, d];
    FirstOfThree(actions, b, c, d);
  }

  /** `target` is an action of `service`. */
  predicate IsActionOf(target: string, service: string) {
    ':' !in service && |target| > |service| && target[..|service| + 1] == service + ":"
  }

  lemma GrantedActionOf(actions: set<string>, target: string, service: string)
    requires IsActionOf(target, service)
    ensures GrantsAction(actions, target) <==> "*" in actions || service + ":*" in actions || target in actions
  {
    assert target == service + ":" + target[|service| + 1..];
    GrantedByThree(actions, service, target[|service| + 1..]);
  }

  lemma FirstIamOfThree(actions: set<string>, iam: string, all: string, a: string, b: string, c: string)
    requires all == iam + ":*" && IsActionOf(a, iam) && IsActionOf(b, iam) && IsActionOf(c, iam)
    ensures FirstGranted(actions, [a, b, c])
         == if "*" in actions || all in actions || a in actions then Some(a)
            else if b in actions then Some(b) else if c in actions then Some(c) else None
  {
    FirstOfThree(actions, a, b, c);
    GrantedActionOf(actions, a, iam);
    GrantedActionOf(actions, b, iam);
    GrantedActionOf(actions, c, iam);
  }

  lemma FirstIamOfFour(actions: set<string>, iam: string, all: string, a: string, b: string, c: string, d: string)
    requires all == iam + ":*" && IsActionOf(a, iam) && IsActionOf(b, iam) && IsActionOf(c, iam) && IsActionOf(d, iam)
    ensures FirstGranted(actions, [a, b, c, d])
         == if "*" in actions || all in actions || a in actions then Some(a)
            else if b in actions then Some(b) else if c in actions then Some(c)
            else if d in actions then Some(d) else None
  {
    FirstOfFour(actions, a, b, c, d);
    GrantedActionOf(actions, a, iam);
    GrantedActionOf(actions, b, iam);
    GrantedActionOf(actions, c, iam);
    GrantedActionOf(actions, d, iam);
  }

  lemma CredentialNames()
    ensures "iam" + ":*" == "iam:*" && IsActionOf("iam:CreateAccessKey", "iam")
    ensures IsActionOf("iam:CreateLoginProfile", "iam") && IsActionOf("iam:UpdateLoginProfile", "iam")
  {
  }

  lemma AttachNames()
    ensures "iam" + ":*" == "iam:*" && IsActionOf("iam:AttachUserPolicy", "iam") && IsActionOf("iam:AttachRolePolicy", "iam")
    ensures IsActionOf("iam:PutUserPolicy", "iam") && IsActionOf("iam:PutRolePolicy", "iam")
  {
  }

  lemma LaunchNames()
    ensures "iam" + ":*" == "iam:*" && IsActionOf("iam:PassRole", "iam")
    ensures "ec2" + ":*" == "ec2:*" && IsActionOf("ec2:RunInstances", "ec2")
    ensures "lambda" + ":*" == "lambda:*" && IsActionOf("lambda:CreateFunction", "lambda")
  {
  }

  lemma LaunchExactly(actions: set<string>)
    ensures CanLaunch(actions) <==> MayPassRole(actions) && MayStartCompute(actions)
  {
    LaunchNames();
    GrantedActionOf(actions, "iam:PassRole", "iam");
    FirstOfTwo(actions, "ec2:RunInstances", "lambda:CreateFunction");
    GrantedActionOf(actions, "ec2:RunInstances", "ec2");
    GrantedActionOf(actions, "lambda:CreateFunction", "lambda");
  }

  lemma CredentialExactly(actions: set<string>)
    ensures FirstGranted(actions, CREATE_CREDENTIAL_ACTIONS) == CredentialAction(actions)
  {
    CredentialNames();
    FirstIamOfThree(actions, "iam", "iam:*", "iam:CreateAccessKey", "iam:CreateLoginProfile", "iam:UpdateLoginProfile");
  }

  lemma AttachExactly(actions: set<string>)
    ensures FirstGranted(actions, SELF_ATTACH_ACTIONS) == AttachAction(actions)
  {
    AttachNames();
    FirstIamOfFour(actions, "iam", "iam:*", "iam:AttachUserPolicy", "iam:AttachRolePolicy", "iam:PutUserPolicy", "iam:PutRolePolicy");
  }

  // ----- the returned policy edges -----

  /** The last record with this uid. */
  predicate IsLast(policies: seq<PolicyRecord>, i: nat, uid: string) {
    i < |policies| && policies[i].uid == uid && forall j :: i < j < |policies| ==> policies[j].uid != uid
  }

  lemma LastGrows(policies: seq<PolicyRecord>, i: nat, uid: string)
    requires policies != [] && policies[|policies| - 1].uid != uid && IsLast(policies[..|policies| - 1], i, uid)
    ensures IsLast(policies, i, uid)
  {
    var n := |policies| - 1;
    forall j | i < j < |policies| ensures policies[j].uid != uid {
      assert j < n ==> policies[..n][j].uid != uid;
    }
  }

  lemma {:induction false} IndexIsLatest(policies: seq<PolicyRecord>, uid: string) returns (i: nat)
    requires uid in PolicyIndex(policies)
    ensures IsLast(policies, i, uid) && policies[i] == PolicyIndex(policies)[uid]
  {
    var n := |policies| - 1;
    if policies[n].uid == uid {
      i := n;
    } else {
      i := IndexIsLatest(policies[..n], uid);
      LastGrows(policies, i, uid);
    }
  }

  lemma LastOnce(policies: seq<PolicyRecord>, i: nat, k: nat, uid: string)
    requires IsLast(policies, i, uid) && IsLast(policies, k, uid)
    ensures i == k
  {
  }

  lemma IndexHolds(policies: seq<PolicyRecord>, policy: PolicyRecord)
    requires policy in policies
    ensures policy.uid in PolicyIndex(policies)
  {
  }

  /** The record counts for its uid. */
  ghost predicate IsInForce(org: Org, policy: PolicyRecord) {
    exists i: nat :: IsLast(org.policies, i, policy.uid) && org.policies[i] == policy
  }

  lemma InForceExactly(org: Org, policy: PolicyRecord)
    ensures IsInForce(org, policy) <==> policy.uid in PolicyIndex(org.policies) && PolicyIndex(org.policies)[policy.uid] == policy
  {
    if policy in org.policies {
      IndexHolds(org.policies, policy);
    }
    if policy.uid in PolicyIndex(org.policies) {
      var i := IndexIsLatest(org.policies, policy.uid);
      if k: nat :| IsLast(org.policies, k, policy.uid) && org.policies[k] == policy {
        LastOnce(org.policies, i, k, policy.uid);
      }
    }
  }

  /** Some principal has a policy with this uid attached. */
  ghost predicate IsAttached(org: Org, uid: string) {
    exists p :: p in org.principals && uid in p.attached
  }

  /** The action an Allow statement lists; one that lists none but excludes some
      stands for `*`. */
  predicate ListsAction(st: Statement, action: string) {
    && IsAllow(st)
    && (action in AsList(st.action) || (AsList(st.action) == [] && AsList(st.notAction) != [] && action == "*"))
  }

  /** The resource it lists; one that lists none is on `*`. */
  predicate ListsResource(st: Statement, resource: string) {
    resource in AsList(st.resource) || (AsList(st.resource) == [] && resource == "*")
  }

  /** A statement of an attached policy in force. */
  ghost predicate IsOfPolicy(org: Org, uid: string, st: Statement) {
    IsAttached(org, uid) && exists policy: PolicyRecord :: policy.uid == uid && IsInForce(org, policy) && st in Statements(policy.document)
  }

  lemma GrantExactly(org: Org, uid: string, st: Statement, action: string)
    ensures IsGrant(org, uid, st, action) <==> IsOfPolicy(org, uid, st) && ListsAction(st, action)
  {
    forall policy ensures IsInForce(org, policy) <==>
      policy.uid in PolicyIndex(org.policies) && PolicyIndex(org.policies)[policy.uid] == policy
    {
      InForceExactly(org, policy);
    }
    if IsAttached(org, uid) && uid in PolicyIndex(org.policies) {
      var p :| p in org.principals && uid in p.attached;
      assert HoldsPolicy(org, p.uid, uid);
    }
  }

  lemma EdgeResourcesExactly(st: Statement, resource: string)
    ensures resource in EdgeResources(st) <==> ListsResource(st, resource)
  {
  }

  /** HAS_POLICY for an attached policy that exists, GRANTS_ACTION for each
      action an Allow statement of it lists, with the sensitivity of the action,
      and ON_RESOURCE for each action and resource of a statement. */
  lemma PolicyEdgesExactly(org: Org, u: string, policy: string, action: string, resource: string)
    ensures GraphEdge(P(u), Node(PolicyKind, policy), HasPolicy, false, None) in AllEdges(org) <==>
      && (exists p :: p in org.principals && p.uid == u && policy in p.attached)
      && (exists record :: record in org.policies && record.uid == policy)
    ensures GraphEdge(Node(PolicyKind, policy), Node(ActionKind, action), Grants, IsSensitive(action), None) in AllEdges(org) <==>
      exists st :: IsOfPolicy(org, policy, st) && ListsAction(st, action)
    ensures GraphEdge(Node(ActionKind, action), Node(ResourceKind, resource), OnResource, false, None) in AllEdges(org) <==>
      exists uid, st :: IsOfPolicy(org, uid, st) && ListsAction(st, action) && ListsResource(st, resource)
  {
    HasPolicyExactly(org, u, policy);
    GrantsExactly(org, policy, action);
    OnResourceExactly(org, action, resource);
  }

  lemma HasPolicyExactly(org: Org, u: string, policy: string)
    ensures HasPolicyEdge(u, policy) in AllEdges(org) <==>
      && (exists p :: p in org.principals && p.uid == u && policy in p.attached)
      && (exists record :: record in org.policies && record.uid == policy)
  {
    ReturnedPolicyEdgesExactly(org, HasPolicyEdge(u, policy));
    assert policy in PolicyIndex(org.policies) <==> exists record :: record in org.policies && record.uid == policy;
  }

  lemma GrantsExactly(org: Org, policy: string, action: string)
    ensures GrantEdge(policy, action) in AllEdges(org) <==> exists st :: IsOfPolicy(org, policy, st) && ListsAction(st, action)
  {
    ReturnedPolicyEdgesExactly(org, GrantEdge(policy, action));
    forall st ensures IsGrant(org, policy, st, action) <==> IsOfPolicy(org, policy, st) && ListsAction(st, action) {
      GrantExactly(org, policy, st, action);
    }
  }

  lemma OnResourceExactly(org: Org, action: string, resource: string)
    ensures ResourceEdge(action, resource) in AllEdges(org) <==>
      exists uid, st :: IsOfPolicy(org, uid, st) && ListsAction(st, action) && ListsResource(st, resource)
  {
    ReturnedPolicyEdgesExactly(org, ResourceEdge(action, resource));
    forall uid, st ensures IsGrant(org, uid, st, action) && resource in EdgeResources(st)
      <==> IsOfPolicy(org, uid, st) && ListsAction(st, action) && ListsResource(st, resource)
    {
      GrantExactly(org, uid, st, action);
      EdgeResourcesExactly(st, resource);
    }
  }

  // ----- the returned trust edges -----

  /** The trust policy of a role: its first entry that is not empty. */
  predicate HasTrustPolicy(p: PrincipalInfo, document: Document) {
    p.trustPolicy == Dict(document) || (p.trustPolicy.Falsy? && p.assumeRolePolicyDocument == Dict(document))
  }

  /** The AWS entry of the statement names the principal. */
  predicate Names(st: Statement, u: string) {
    st.principal == AwsOne(u) || (st.principal.AwsMany? && Some(u) in st.principal.arns)
  }

  /** It allows assuming the role, in whatever case the action is written. */
  predicate AllowsAssuming(st: Statement) {
    IsAllow(st) && exists a :: a in AsList(st.action) && (a == "*" || Lower(a) == "sts:assumerole")
  }

  ghost predicate LetsAssume(p: PrincipalInfo, u: string) {
    && p.kind == "role"
    && exists document, st :: HasTrustPolicy(p, document) && st in Statements(document) && AllowsAssuming(st) && Names(st, u)
  }

  lemma LowerStar(a: string)
    ensures Lower(a) == "*" <==> a == "*"
  {
    if Lower(a) == "*" {
      assert LowerChar(a[0]) == '*';
    }
  }

  lemma AssumingExactly(st: Statement)
    ensures IsAssumeRole(st) <==> AllowsAssuming(st)
  {
    forall a: string ensures Lower(a) in {"sts:assumerole", "*"} <==> a == "*" || Lower(a) == "sts:assumerole" {
      LowerStar(a);
    }
    if i :| 0 <= i < |Actions(st)| && Lower(Actions(st)[i]) in {"sts:assumerole", "*"} {
      assert Actions(st)[i] in AsList(st.action);
    }
    if a :| a in AsList(st.action) && (a == "*" || Lower(a) == "sts:assumerole") {
      var i :| 0 <= i < |Actions(st)| && Actions(st)[i] == a;
      assert Lower(Actions(st)[i]) in {"sts:assumerole", "*"};
    }
  }

  lemma TrustedByExactly(p: PrincipalInfo, u: string)
    ensures TrustedBy(p, u) <==> LetsAssume(p, u)
  {
    forall st ensures IsAssumeRole(st) && u in TrustArns(st.principal) <==> AllowsAssuming(st) && Names(st, u) {
      AssumingExactly(st);
    }
    if TrustedBy(p, u) {
      assert HasTrustPolicy(p, TrustDocument(p).value);
    }
  }

  /** The returned list holds a CAN_ASSUME edge exactly when the trust policy of
      a role allows another known principal to assume it. */
  lemma ReturnedAssumeExactly(org: Org, u: string, v: string)
    ensures GraphEdge(P(u), P(v), CanAssume, true, None) in AllEdges(org) <==>
      && u != v && (exists p :: p in org.principals && p.uid == u)
      && (exists role :: role in org.principals && role.uid == v && LetsAssume(role, u))
  {
    AssumesAreListed(org, u, v);
    forall p: PrincipalInfo ensures TrustedBy(p, u) <==> LetsAssume(p, u) {
      TrustedByExactly(p, u);
    }
  }

  // ----- the returned escalation edges -----

  /** The three primitives: a policy attached to oneself, compute launched as a
      role, credentials made for another principal. */
  ghost predicate GivesAs(org: Org, uid: string, launches: bool, credential: Option<string>, attach: Option<string>,
                          v: string, via: string) {
    || (v == uid && attach == Some(via))
    || (v != uid && HasTarget(org, v, true) && launches && via == "passrole_compute_launch")
    || (v != uid && HasTarget(org, v, false) && credential == Some(via))
  }

  predicate MayLaunch(actions: set<string>) {
    MayPassRole(actions) && MayStartCompute(actions)
  }

  /** What makes `p` escalate to a principal with uid `v`, and by which label. */
  ghost predicate Gives(org: Org, p: PrincipalInfo, v: string, via: string) {
    var actions := PrincipalGrants(org, p);
    GivesAs(org, p.uid, MayLaunch(actions), CredentialAction(actions), AttachAction(actions), v, via)
  }

  lemma LaunchEdgesExactly(org: Org, p: PrincipalInfo, actions: set<string>, v: string, via: string)
    ensures EscalateEdge(p.uid, v, via) in LaunchEdges(org, p, actions) <==>
      v != p.uid && HasTarget(org, v, true) && MayLaunch(actions) && via == "passrole_compute_launch"
  {
    LaunchExactly(actions);
    TargetEdgesExactly(org, p.uid, "passrole_compute_launch", true, EscalateEdge(p.uid, v, via));
  }

  lemma CredentialEdgesExactly(org: Org, p: PrincipalInfo, actions: set<string>, v: string, via: string)
    ensures EscalateEdge(p.uid, v, via) in CredentialEdges(org, p, actions) <==>
      v != p.uid && HasTarget(org, v, false) && CredentialAction(actions) == Some(via)
  {
    CredentialExactly(actions);
    var credential := FirstGranted(actions, CREATE_CREDENTIAL_ACTIONS);
    if credential.Some? {
      TargetEdgesExactly(org, p.uid, credential.value, false, EscalateEdge(p.uid, v, via));
    }
  }

  lemma AttachEdgesExactly(p: PrincipalInfo, actions: set<string>, v: string, via: string)
    ensures EscalateEdge(p.uid, v, via) in AttachEdges(p, actions) <==> v == p.uid && AttachAction(actions) == Some(via)
  {
    AttachExactly(actions);
  }

  lemma NothingGivesNothing(actions: set<string>)
    requires actions == {}
    ensures !MayLaunch(actions) && CredentialAction(actions) == None && AttachAction(actions) == None
  {
  }

  lemma RequestedByGrants(org: Org, p: PrincipalInfo, v: string, via: string)
    ensures EscalateEdge(p.uid, v, via) in PrincipalEscalations(org)(p) <==> Gives(org, p, v, via)
  {
    var actions := PrincipalGrants(org, p);
    LaunchEdgesExactly(org, p, actions, v, via);
    CredentialEdgesExactly(org, p, actions, v, via);
    AttachEdgesExactly(p, actions, v, via);
    if actions == {} {
      NothingGivesNothing(actions);
    }
  }

  /** An edge of the principals that escalate, whichever carries it. */
  lemma EscalatesByGrants(org: Org, u: string, v: string)
    ensures Escalates(org, u, v) <==> exists p, via :: p in org.principals && p.uid == u && Gives(org, p, v, via)
  {
    forall p ensures EscalatesTo(org, p, v) <==> exists via :: Gives(org, p, v, via) {
      GivesExactly(org, p, v);
    }
  }

  lemma GivesExactly(org: Org, p: PrincipalInfo, v: string)
    ensures EscalatesTo(org, p, v) <==> exists via :: Gives(org, p, v, via)
  {
    var actions := PrincipalGrants(org, p);
    LaunchExactly(actions);
    CredentialExactly(actions);
    AttachExactly(actions);
    SomeGives(org, p.uid, CanLaunch(actions), FirstGranted(actions, CREATE_CREDENTIAL_ACTIONS),
              FirstGranted(actions, SELF_ATTACH_ACTIONS), v);
    forall via ensures Gives(org, p, v, via) <==>
      GivesAs(org, p.uid, CanLaunch(actions), FirstGranted(actions, CREATE_CREDENTIAL_ACTIONS),
              FirstGranted(actions, SELF_ATTACH_ACTIONS), v, via)
    {
    }
  }

  lemma SomeGives(org: Org, uid: string, launches: bool, credential: Option<string>, attach: Option<string>, v: string)
    ensures (exists via :: GivesAs(org, uid, launches, credential, attach, v, via)) <==>
      || (launches && v != uid && HasTarget(org, v, true))
      || (credential.Some? && v != uid && HasTarget(org, v, false))
      || (attach.Some? && v == uid)
  {
    if attach.Some? && v == uid {
      assert GivesAs(org, uid, launches, credential, attach, v, attach.value);
    }
    if launches && v != uid && HasTarget(org, v, true) {
      assert GivesAs(org, uid, launches, credential, attach, v, "passrole_compute_launch");
    }
    if credential.Some? && v != uid && HasTarget(org, v, false) {
      assert GivesAs(org, uid, launches, credential, attach, v, credential.value);
    }
  }

  lemma OnlyRoleOrUser(org: Org, v: string)
    requires UniqueUids(org)
    ensures !(HasTarget(org, v, true) && HasTarget(org, v, false))
  {
    if HasTarget(org, v, true) && HasTarget(org, v, false) {
      var a :| a in org.principals && a.uid == v && a.kind == "role";
      var b :| b in org.principals && b.uid == v && b.kind != "role";
      SameUid(org, a, b);
    }
  }

  /** With unique uids a pair escalates by one label. */
  lemma OneLabel(org: Org, p: PrincipalInfo, q: PrincipalInfo, v: string, one: string, two: string)
    requires UniqueUids(org) && p in org.principals && q in org.principals && p.uid == q.uid
    requires Gives(org, p, v, one) && Gives(org, q, v, two)
    ensures one == two
  {
    SameUid(org, p, q);
    OnlyRoleOrUser(org, v);
  }

  lemma EscalateRequestByGrants(org: Org, e: GraphEdge)
    requires e in EscalateRequests(org)
    ensures exists p, via :: p in org.principals && Gives(org, p, e.dst.uid, via) && e == EscalateEdge(p.uid, e.dst.uid, via)
  {
    InFlatMap(PrincipalEscalations(org), org.principals, e);
    var p :| p in org.principals && e in PrincipalEscalations(org)(p);
    var v := EscalationSound(org, p, e);
    var via :| e == EscalateEdge(p.uid, v, via);
    RequestedByGrants(org, p, v, via);
  }

  /** The returned list holds a CAN_ESCALATE edge with a label exactly when the
      entries granted to the source give it: PassRole and a compute launch for a
      role, the credential action for any other principal, the self-attach
      action for the source itself. */
  lemma ReturnedEscalateExactly(org: Org, u: string, v: string, via: string)
    requires UniqueUids(org)
    ensures GraphEdge(P(u), P(v), CanEscalate, true, Some(via)) in AllEdges(org)
       <==> exists p :: p in org.principals && p.uid == u && Gives(org, p, v, via)
  {
    var e := EscalateEdge(u, v, via);
    if e in AllEdges(org) {
      ListedEscalate(org, e);
      EscalateRequestByGrants(org, e);
    }
    if p :| p in org.principals && p.uid == u && Gives(org, p, v, via) {
      RequestedByGrants(org, p, v, via);
      InFlatMap(PrincipalEscalations(org), org.principals, e);
      var stored := RequestsArrive(org, e);
      ListedEscalate(org, stored);
      EscalateRequestByGrants(org, stored);
      var q, other :| q in org.principals && Gives(org, q, v, other) && stored == EscalateEdge(q.uid, v, other);
      OneLabel(org, p, q, v, via, other);
    }
  }

  lemma LaunchesByGrants(org: Org, u: string)
    ensures Launches(org, u) <==> exists p :: p in org.principals && p.uid == u && MayLaunch(PrincipalGrants(org, p))
  {
    forall p: PrincipalInfo ensures CanLaunch(PrincipalGrants(org, p)) <==> MayLaunch(PrincipalGrants(org, p)) {
      LaunchExactly(PrincipalGrants(org, p));
    }
  }

  predicate MayAttach(actions: set<string>) {
    Holds(actions, {"*", "iam:*", "iam:AttachUserPolicy", "iam:AttachRolePolicy", "iam:PutUserPolicy", "iam:PutRolePolicy"})
  }

  lemma AttachByEntries(actions: set<string>)
    ensures AttachAction(actions).Some? <==> MayAttach(actions)
  {
  }

  lemma AdminByEntries(org: Org, p: PrincipalInfo)
    ensures "*" in PrincipalGrants(org, p) || SelfAttachOf(org, p).Some? <==> MayAttach(PrincipalGrants(org, p))
  {
    AttachExactly(PrincipalGrants(org, p));
    AttachByEntries(PrincipalGrants(org, p));
  }

  /** The administrators are the principals that hold `*`, `iam:*` or one of the
      four actions that attach a policy. */
  lemma AdminsByGrants(org: Org, u: string)
    requires UniqueUids(org)
    ensures P(u) in Admins(ModelOf(org)) <==>
      exists p :: p in org.principals && p.uid == u && MayAttach(PrincipalGrants(org, p))
  {
    AdminsExactly(org, u);
    forall p: PrincipalInfo ensures "*" in PrincipalGrants(org, p) || SelfAttachOf(org, p).Some?
      <==> MayAttach(PrincipalGrants(org, p))
    {
      AdminByEntries(org, p);
    }
  }

  /** The counted sensitive actions are the sensitive entries granted to the
      principal or to one that a walk of trusted hops leads to. */
  lemma ReachableSensitiveExactly(org: Org, uid: string, a: string)
    requires UniqueUids(org)
    ensures a in SensitiveAmong(UnionActions(ModelOf(org), uid)) <==>
      && (a == "*" || EndsWith(a, ":*") || IsNamedSensitive(a))
      && exists p, q :: p in org.principals && AssumeWalk(org, q, uid, p.uid) && a in PrincipalGrants(org, p)
  {
    ReachableActionsExactly(org, uid, a);
    SensitiveExactly(a);
  }

  // ----- the labels of a recorded path -----

  lemma NoCommas()
    ensures ',' !in "passrole_compute_launch" && ',' !in "CAN_ASSUME"
    ensures ',' !in "iam:CreateAccessKey" && ',' !in "iam:CreateLoginProfile" && ',' !in "iam:UpdateLoginProfile"
  {
  }

  /** How `p` becomes `q`, by the entries granted to `p`. */
  ghost predicate IsLabel(org: Org, p: PrincipalInfo, q: PrincipalInfo, text: string) {
    var actions := PrincipalGrants(org, p);
    if q.kind != "role" then CredentialAction(actions) == Some(text)
    else text == if MayLaunch(actions) then "passrole_compute_launch" else "CAN_ASSUME"
  }

  /** The label of a hop between two principals. */
  ghost predicate IsLabelOf(org: Org, u: string, v: string, text: string) {
    && u != v
    && exists p, q :: p in org.principals && p.uid == u && q in org.principals && q.uid == v && IsLabel(org, p, q, text)
  }

  lemma {:induction false} HopLabelsAt(g: PairMap, nodes: seq<Node>, i: nat)
    requires forall k :: 0 <= k < |nodes| - 1 ==> (nodes[k], nodes[k + 1]) in g
    requires i < |nodes| - 1
    ensures |HopLabels(g, nodes)| == |nodes| - 1
    ensures HopLabels(g, nodes)[i] == HopLabel(g[(nodes[i], nodes[i + 1])])
    decreases |nodes|
  {
    if |nodes| > 2 {
      HopLabelsAt(g, nodes[1..], if i > 0 then i - 1 else 0);
    }
  }

  /** Of three lists stored one after the other the last with the pair decides. */
  lemma StoredByLast(a: seq<GraphEdge>, b: seq<GraphEdge>, c: seq<GraphEdge>, x: (Node, Node))
    ensures x in Store(c) ==> x in Store(a + b + c) && Store(a + b + c)[x] == Store(c)[x]
    ensures x !in Store(c) && x in Store(b) ==> x in Store(a + b + c) && Store(a + b + c)[x] == Store(b)[x]
  {
    StoreConcat(a + b, c);
    StoreConcat(a, b);
  }

  lemma StoredOne(edges: seq<GraphEdge>, x: (Node, Node)) returns (e: GraphEdge)
    requires exists d :: d in edges && (d.src, d.dst) == x
    ensures x in Store(edges) && e in edges && (e.src, e.dst) == x && Attrs(e) == Store(edges)[x]
  {
    StoreExactly(edges);
    assert StoredFrom(edges, x, Store(edges)[x]);
    e :| e in edges && (e.src, e.dst) == x && Attrs(e) == Store(edges)[x];
  }

  lemma NotStored(edges: seq<GraphEdge>, x: (Node, Node))
    requires forall d :: d in edges ==> (d.src, d.dst) != x
    ensures x !in Store(edges)
  {
    StoreExactly(edges);
    forall y | y in Store(edges) ensures y != x {
      var e :| e in edges && (e.src, e.dst) == y && Attrs(e) == Store(edges)[y];
    }
  }

  lemma EscalationIsStored(org: Org, u: string, v: string) returns (e: GraphEdge)
    requires Escalates(org, u, v)
    ensures (P(u), P(v)) in ModelOf(org).g && ModelOf(org).g[(P(u), P(v))] == Attrs(e)
    ensures e in AllEdges(org) && e in EscalateRequests(org) && e.src == P(u) && e.dst == P(v)
  {
    var policy, trust, escalate := EdgeListParts(org);
    EscalatingPairsIn(org, policy, trust, escalate, (P(u), P(v)));
    StoredByLast(policy, trust, escalate, (P(u), P(v)));
    e := StoredOne(escalate, (P(u), P(v)));
  }

  lemma TrustIsStored(org: Org, u: string, v: string)
    requires Trusts(org, u, v) && !Escalates(org, u, v)
    ensures (P(u), P(v)) in ModelOf(org).g && ModelOf(org).g[(P(u), P(v))] == Attrs(AssumeEdge(u, v))
  {
    var x := (P(u), P(v));
    var policy, trust, escalate := EdgeListParts(org);
    EscalatingPairsIn(org, policy, trust, escalate, x);
    TrustedPairsIn(org, policy, trust, escalate, x);
    assert !EscalatingPair(org, x) && TrustedPair(org, x);
    NotStored(escalate, x);
    StoredByLast(policy, trust, escalate, x);
    var e := StoredOne(trust, x);
    AssumeRequestsExactly(org, e);
  }

  lemma LabelText(org: Org, p: PrincipalInfo, v: string, via: string)
    requires Gives(org, p, v, via) && v != p.uid
    ensures via != "" && ',' !in via
  {
    NoCommas();
  }

  lemma GivenLabel(org: Org, p: PrincipalInfo, q: PrincipalInfo, via: string)
    requires UniqueUids(org) && q in org.principals && p.uid != q.uid && Gives(org, p, q.uid, via)
    ensures IsLabel(org, p, q, via)
  {
    OnlyRoleOrUser(org, q.uid);
  }

  lemma ViaIsLabel(u: string, v: string, via: string)
    requires via != ""
    ensures HopLabel(Attrs(EscalateEdge(u, v, via))) == via
  {
  }

  lemma TrustLabelText(u: string, v: string)
    ensures HopLabel(Attrs(AssumeEdge(u, v))) == "CAN_ASSUME" && ',' !in "CAN_ASSUME"
  {
    NoCommas();
  }

  lemma LabelBetween(org: Org, p: PrincipalInfo, q: PrincipalInfo, text: string)
    requires p in org.principals && q in org.principals && p.uid != q.uid && IsLabel(org, p, q, text)
    ensures IsLabelOf(org, p.uid, q.uid, text)
  {
  }

  lemma GivenLabels(org: Org, p: PrincipalInfo, v: string, via: string)
    requires UniqueUids(org) && p in org.principals && p.uid != v && Gives(org, p, v, via)
    ensures via != "" && ',' !in via && IsLabelOf(org, p.uid, v, via)
  {
    LabelText(org, p, v, via);
    var q := GivenTarget(org, p, v, via);
    GivenLabel(org, p, q, via);
    LabelBetween(org, p, q, via);
  }

  lemma EscalationIsLabeled(org: Org, u: string, v: string) returns (via: string)
    requires UniqueUids(org) && u != v && Escalates(org, u, v)
    ensures (P(u), P(v)) in ModelOf(org).g && ModelOf(org).g[(P(u), P(v))] == Attrs(EscalateEdge(u, v, via))
    ensures via != "" && ',' !in via && IsLabelOf(org, u, v, via)
  {
    var e := EscalationIsStored(org, u, v);
    EscalateRequestByGrants(org, e);
    var p, name :| p in org.principals && Gives(org, p, v, name) && e == EscalateEdge(p.uid, v, name);
    via := name;
    GivenLabels(org, p, v, via);
  }

  lemma GivenTarget(org: Org, p: PrincipalInfo, v: string, via: string) returns (q: PrincipalInfo)
    requires Gives(org, p, v, via) && p.uid != v
    ensures q in org.principals && q.uid == v
  {
    q :| q in org.principals && q.uid == v;
  }

  lemma TrustLabel(org: Org, p: PrincipalInfo, q: PrincipalInfo)
    requires p in org.principals && q in org.principals && q.kind == "role" && p.uid != q.uid
    requires !Escalates(org, p.uid, q.uid)
    ensures IsLabel(org, p, q, "CAN_ASSUME")
  {
    LaunchExactly(PrincipalGrants(org, p));
    assert HasTarget(org, q.uid, true);
    assert !EscalatesTo(org, p, q.uid);
  }

  lemma TrustEnds(org: Org, u: string, v: string) returns (p: PrincipalInfo, q: PrincipalInfo)
    requires Trusts(org, u, v)
    ensures p in org.principals && p.uid == u && q in org.principals && q.uid == v && q.kind == "role"
  {
    p :| p in org.principals && p.uid == u;
    q :| q in org.principals && q.uid == v && TrustedBy(q, u);
  }

  lemma TrustIsLabeled(org: Org, u: string, v: string)
    requires Trusts(org, u, v) && !Escalates(org, u, v)
    ensures IsLabelOf(org, u, v, "CAN_ASSUME")
  {
    var p, q := TrustEnds(org, u, v);
    TrustLabel(org, p, q);
    LabelBetween(org, p, q, "CAN_ASSUME");
  }

  lemma HopIsLabeled(org: Org, u: string, v: string)
    requires UniqueUids(org) && u != v && Hop(org, u, v)
    ensures (P(u), P(v)) in ModelOf(org).g
    ensures var text := HopLabel(ModelOf(org).g[(P(u), P(v))]); ',' !in text && IsLabelOf(org, u, v, text)
  {
    if Escalates(org, u, v) {
      var via := EscalationIsLabeled(org, u, v);
      ViaIsLabel(u, v, via);
    } else {
      TrustIsStored(org, u, v);
      TrustIsLabeled(org, u, v);
      TrustLabelText(u, v);
    }
  }

  /** A walk that stays on a node can skip it. */
  lemma SkipStay(edges: set<(Node, Node)>, nodes: seq<Node>, i: nat)
    requires Walk(edges, nodes) && i < |nodes| - 1 && nodes[i] == nodes[i + 1]
    ensures WalkFromTo(edges, nodes[..i] + nodes[i + 1..], nodes[0], nodes[|nodes| - 1])
  {
    var q := nodes[..i] + nodes[i + 1..];
    forall k | 0 <= k < |q| - 1 ensures (q[k], q[k + 1]) in edges {
      if k < i {
        assert (nodes[k], nodes[k + 1]) in edges;
      } else {
        assert (nodes[k + 1], nodes[k + 2]) in edges;
      }
    }
  }

  /** A shortest walk does not stay on a node. */
  lemma ShortestMoves(edges: set<(Node, Node)>, nodes: seq<Node>, u: Node, t: Node, i: nat)
    requires WalkFromTo(edges, nodes, u, t) && i < |nodes| - 1
    requires forall q :: WalkFromTo(edges, q, u, t) ==> |nodes| <= |q|
    ensures nodes[i] != nodes[i + 1]
  {
    if nodes[i] == nodes[i + 1] {
      SkipStay(edges, nodes, i);
      assert false;
    }
  }

  lemma EscapePairIsHop(org: Org, x: (Node, Node))
    requires x in EscapePairs(ModelOf(org).g)
    ensures x == (P(x.0.uid), P(x.1.uid)) && Hop(org, x.0.uid, x.1.uid)
  {
    StoredExactly(org, x);
  }

  lemma RecordedHop(org: Org, uid: string, nodes: seq<Node>, i: nat)
    requires UniqueUids(org) && NearestAdmin(ModelOf(org), uid, nodes) && i < |nodes| - 1
    ensures (nodes[i], nodes[i + 1]) in ModelOf(org).g
    ensures var text := HopLabel(ModelOf(org).g[(nodes[i], nodes[i + 1])]);
      ',' !in text && IsLabelOf(org, nodes[i].uid, nodes[i + 1].uid, text)
  {
    var edges := EscapePairs(ModelOf(org).g);
    ShortestMoves(edges, nodes, P(uid), nodes[|nodes| - 1], i);
    EscapePairIsHop(org, (nodes[i], nodes[i + 1]));
    HopIsLabeled(org, nodes[i].uid, nodes[i + 1].uid);
  }

  ghost predicate IsLabelAt(org: Org, hops: seq<string>, labels: seq<string>, i: nat) {
    i < |labels| && i < |hops| - 1 && ',' !in labels[i] && IsLabelOf(org, hops[i], hops[i + 1], labels[i])
  }

  ghost predicate AreLabels(org: Org, hops: seq<string>, labels: seq<string>) {
    |labels| == |hops| - 1 && forall i :: 0 <= i < |labels| ==> IsLabelAt(org, hops, labels, i)
  }

  lemma LabelIsAt(org: Org, hops: seq<string>, labels: seq<string>, i: nat, text: string)
    requires i < |labels| && i < |hops| - 1 && labels[i] == text && ',' !in text && IsLabelOf(org, hops[i], hops[i + 1], text)
    ensures IsLabelAt(org, hops, labels, i)
  {
  }

  lemma LabelAt(org: Org, g: PairMap, uid: string, nodes: seq<Node>, i: nat)
    requires UniqueUids(org) && g == ModelOf(org).g && NearestAdmin(ModelOf(org), uid, nodes) && i < |nodes| - 1
    requires forall k :: 0 <= k < |nodes| - 1 ==> (nodes[k], nodes[k + 1]) in g
    ensures |HopLabels(g, nodes)| == |nodes| - 1 && IsLabelAt(org, UidsOf(nodes), HopLabels(g, nodes), i)
  {
    HopLabelsAt(g, nodes, i);
    RecordedHop(org, uid, nodes, i);
    LabelIsAt(org, UidsOf(nodes), HopLabels(g, nodes), i, HopLabel(g[(nodes[i], nodes[i + 1])]));
  }

  lemma HopsAreLabeled(org: Org, g: PairMap, uid: string, nodes: seq<Node>)
    requires UniqueUids(org) && g == ModelOf(org).g && NearestAdmin(ModelOf(org), uid, nodes) && |nodes| > 1
    requires forall i :: 0 <= i < |nodes| - 1 ==> (nodes[i], nodes[i + 1]) in g
    ensures AreLabels(org, UidsOf(nodes), HopLabels(g, nodes))
  {
    forall i | 0 <= i < |nodes| - 1
      ensures |HopLabels(g, nodes)| == |nodes| - 1 && IsLabelAt(org, UidsOf(nodes), HopLabels(g, nodes), i)
    {
      LabelAt(org, g, uid, nodes, i);
    }
    HopLabelsAt(g, nodes, 0);
  }

  lemma SplitLabels(org: Org, hops: seq<string>, labels: seq<string>)
    requires |hops| > 1 && AreLabels(org, hops, labels)
    ensures Split(Join(labels, ','), ',') == labels
  {
    forall t | t in labels ensures ',' !in t {
      var i :| 0 <= i < |labels| && labels[i] == t;
      assert IsLabelAt(org, hops, labels, i);
    }
    SplitJoin(labels, ',');
  }

  /** A path recorded to another principal has one label for each hop, and each
      says how the hop is made. */
  lemma RecordedLabels(org: Org, uid: string, path: EscalationPath)
    requires UniqueUids(org) && IsPathFor(ModelOf(org), uid, path) && path.target != uid
    ensures |Split(path.via, ',')| == |path.hops| - 1
    ensures forall i :: 0 <= i < |Split(path.via, ',')| ==>
      IsLabelOf(org, path.hops[i], path.hops[i + 1], Split(path.via, ',')[i])
  {
    var nodes :| RecordsNearest(ModelOf(org), uid, path, nodes);
    assert |nodes| > 1;
    HopsAreLabeled(org, ModelOf(org).g, uid, nodes);
    var labels := HopLabels(ModelOf(org).g, nodes);
    SplitLabels(org, path.hops, labels);
    forall i | 0 <= i < |labels| ensures IsLabelOf(org, path.hops[i], path.hops[i + 1], labels[i]) {
      assert IsLabelAt(org, path.hops, labels, i);
    }
  }

  // ----- a path that stays on its principal -----

  lemma {:induction false} SelfAttachAt(org: Org, principals: seq<PrincipalInfo>, uid: string)
    requires uid in SelfAttach(org, principals)
    ensures exists p :: p in principals && p.uid == uid && SelfAttachOf(org, p) == Some(SelfAttach(org, principals)[uid])
  {
    var init, last := principals[..|principals| - 1], principals[|principals| - 1];
    if last.uid == uid && SelfAttachOf(org, last).Some? {
      assert last in principals;
    } else {
      SelfAttachAt(org, init, uid);
      var p :| p in init && p.uid == uid && SelfAttachOf(org, p) == Some(SelfAttach(org, init)[uid]);
      assert p in principals;
    }
  }

  /** A path that stays on its principal names the action it attaches by. */
  lemma RecordedSelfLabel(org: Org, uid: string, path: EscalationPath)
    requires UniqueUids(org) && IsPathFor(ModelOf(org), uid, path) && path.target == uid
    ensures path.hops == [uid]
    ensures exists p :: p in org.principals && p.uid == uid && AttachAction(PrincipalGrants(org, p)) == Some(path.via)
  {
    StaysOnItself(ModelOf(org), uid, path);
    SelfAttachAt(org, org.principals, uid);
    var p :| p in org.principals && p.uid == uid && SelfAttachOf(org, p) == Some(path.via);
    AttachOf(org, p);
  }

  lemma StaysOnItself(m: Model, uid: string, path: EscalationPath)
    requires IsPathFor(m, uid, path) && path.target == uid
    ensures path.hops == [uid] && uid in m.selfAttach && path.via == m.selfAttach[uid]
  {
  }

  lemma AttachOf(org: Org, p: PrincipalInfo)
    requires SelfAttachOf(org, p).Some?
    ensures AttachAction(PrincipalGrants(org, p)) == SelfAttachOf(org, p)
  {
    AttachExactly(PrincipalGrants(org, p));
  }
}
