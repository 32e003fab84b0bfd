/** The parts of `app/domain/records.py` the analysis reads. */
module Records {
  import opened Ordering
  import opened Policy

  datatype PolicyRecord = PolicyRecord(uid: string, document: Document)

  /** `raw.get(key)` for a trust-policy key: absent and falsy values are `Falsy`. */
  datatype RawTrust = Falsy | OtherValue | Dict(document: Document)

  datatype PrincipalInfo = PrincipalInfo(
    uid: string,
    kind: string,
    attached: seq<string>,
    trustPolicy: RawTrust,
    assumeRolePolicyDocument: RawTrust)

  datatype Org = Org(principals: seq<PrincipalInfo>, policies: seq<PolicyRecord>)

  /** A principal row: its identity never changes, the analysis fills the rest. */
  class PrincipalRecord {
    const info: PrincipalInfo
    var blastRadiusScore: int
    var reachableActions: int
    var reachableSensitive: int

    constructor (info: PrincipalInfo)
      ensures this.info == info
      ensures blastRadiusScore == reachableActions == reachableSensitive == 0
    {
      this.info := info;
      blastRadiusScore, reachableActions, reachableSensitive := 0, 0, 0;
    }
  }

  /** The concatenation of `f` over `xs`, built left to right. */
  function FlatMap<A, B>(f: A -> seq<B>, xs: seq<A>): seq<B> {
    if xs == [] then [] else FlatMap(f, xs[..|xs| - 1]) + f(xs[|xs| - 1])
  }

  lemma FlatMapStep<A, B>(f: A -> seq<B>, xs: seq<A>, i: nat)
    requires i < |xs|
    ensures FlatMap(f, xs[..i + 1]) == FlatMap(f, xs[..i]) + f(xs[i])
  {
    assert xs[..i + 1][..i] == xs[..i];
  }

  lemma {:induction false} InFlatMap<A, B>(f: A -> seq<B>, xs: seq<A>, y: B)
    ensures y in FlatMap(f, xs) <==> exists x :: x in xs && y in f(x)
  {
    if xs != [] {
      var init := xs[..|xs| - 1];
      InFlatMap(f, init, y);
      assert forall x :: x in xs <==> x in init || x == xs[|xs| - 1];
    }
  }

  /** `policy_by_uid`: a later policy with the same uid replaces an earlier one. */
  function PolicyIndex(policies: seq<PolicyRecord>): (r: map<string, PolicyRecord>)
    ensures forall uid :: uid in r ==> r[uid] in policies && r[uid].uid == uid
    ensures forall p :: p in policies ==> p.uid in r
  {
    if policies == [] then map[]
    else
      var last := policies[|policies| - 1];
      PolicyIndex(policies[..|policies| - 1])[last.uid := last]
  }

  function Attached(index: map<string, PolicyRecord>, uids: seq<string>): (r: seq<PolicyRecord>)
    ensures forall p :: p in r <==> exists uid :: uid in uids && uid in index && index[uid] == p
  {
    if uids == [] then []
    else
      var init := uids[..|uids| - 1];
      var last := uids[|uids| - 1];
      assert forall uid :: uid in uids <==> uid in init || uid == last;
      Attached(index, init) + if last in index then [index[last]] else []
  }

  /** `policies_for`: attached policies that exist, in attachment order. */
  function PoliciesFor(org: Org, p: PrincipalInfo): seq<PolicyRecord> {
    Attached(PolicyIndex(org.policies), p.attached)
  }

  function DocumentStatements(policy: PolicyRecord): seq<Statement> {
    Statements(policy.document)
  }

  /** All statements of several policies, in order. */
  function AllStatements(policies: seq<PolicyRecord>): seq<Statement> {
    FlatMap(DocumentStatements, policies)
  }

  lemma InAllStatements(policies: seq<PolicyRecord>, st: Statement)
    ensures st in AllStatements(policies)
       <==> exists p :: p in policies && st in Statements(p.document)
  {
    InFlatMap(DocumentStatements, policies, st);
    if p :| p in policies && st in Statements(p.document) {
      assert st in DocumentStatements(p);
    }
  }

  lemma GrantsOfConcat(a: seq<Statement>, b: seq<Statement>)
    ensures GrantsOf(a + b) == GrantsOf(a) + GrantsOf(b)
  {
  }

  /** The union of the actions a principal's attached policies grant. */
  function PrincipalGrants(org: Org, p: PrincipalInfo): set<string> {
    GrantsOf(AllStatements(PoliciesFor(org, p)))
  }

  method PrincipalGrantedActions(org: Org, p: PrincipalInfo) returns (actions: set<string>)
    ensures actions == PrincipalGrants(org, p)
  {
    actions := {};
    var policies := PoliciesFor(org, p);
    for i := 0 to |policies|
      invariant actions == GrantsOf(AllStatements(policies[..i]))
    {
      var granted := GrantedActions(policies[i].document);
      FlatMapStep(DocumentStatements, policies, i);
      GrantsOfConcat(AllStatements(policies[..i]), Statements(policies[i].document));
      actions := actions + granted;
    }
    assert policies[..|policies|] == policies;
  }
}
