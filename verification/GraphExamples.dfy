/** A dataset on which one more grant lowers a blast-radius score. */
module GraphExamples {
  import opened Ordering
  import opened Text
  import opened Policy
  import opened Records
  import opened GraphEdges
  import opened Digraph
  import opened Rounding
  import opened PermissionGraph
  import opened GraphTheorems

  // ----- two principals, one of them a role that trusts the other -----

  ghost predicate NoPrimitive(actions: set<string>) {
    && "*" !in actions
    && FirstGranted(actions, SELF_ATTACH_ACTIONS).None?
  }

  ghost predicate Trusting(org: Org, user: PrincipalInfo, role: PrincipalInfo) {
    && org.principals == [user, role] && user.uid != role.uid
    && user.kind != "role" && role.kind == "role"
    && forall u :: TrustedBy(role, u) <==> u == user.uid
  }

  ghost predicate Setting(org: Org, user: PrincipalInfo, role: PrincipalInfo, actions: set<string>, spare: string) {
    && Trusting(org, user, role)
    && PrincipalGrants(org, user) == actions && PrincipalGrants(org, role) == {spare}
    && NoPrimitive(actions) && NoPrimitive({spare}) && !CanLaunch({spare})
  }

  lemma SettingTrust(org: Org, user: PrincipalInfo, role: PrincipalInfo)
    requires Trusting(org, user, role)
    ensures UniqueUids(org)
    ensures forall p :: p in org.principals <==> p == user || p == role
    ensures forall u, v :: Trusts(org, u, v) <==> u == user.uid && v == role.uid
  {
  }

  lemma NoAdminWithoutPrimitives(org: Org, u: string)
    requires UniqueUids(org)
    requires forall p :: p in org.principals ==> NoPrimitive(PrincipalGrants(org, p))
    ensures P(u) !in Admins(ModelOf(org))
  {
    AdminsExactly(org, u);
  }

  lemma NoAdminNoReach(org: Org, u: string)
    requires UniqueUids(org)
    requires forall p :: p in org.principals ==> NoPrimitive(PrincipalGrants(org, p))
    ensures !CanReachAdmin(ModelOf(org), u)
  {
    AdminsExactly(org, u);
    forall t ensures t !in Admins(ModelOf(org)) {
      NoAdminWithoutPrimitives(org, t.uid);
    }
  }

  lemma SettingHasNoAdmin(org: Org, user: PrincipalInfo, role: PrincipalInfo, actions: set<string>, spare: string)
    requires Setting(org, user, role, actions, spare)
    ensures !CanReachAdmin(ModelOf(org), user.uid)
  {
    SettingTrust(org, user, role);
    assert forall p :: p in org.principals ==> NoPrimitive(PrincipalGrants(org, p));
    NoAdminNoReach(org, user.uid);
  }

  lemma GrantedByTwo(org: Org, user: PrincipalInfo, role: PrincipalInfo)
    ensures GrantedBy(org, [user, role]) ==
            map[user.uid := PrincipalGrants(org, user)][role.uid := PrincipalGrants(org, role)]
  {
    assert [user, role][..1] == [user];
    assert [user][..0] == [];
    assert GrantedBy(org, [user]) == map[user.uid := PrincipalGrants(org, user)];
  }

  lemma UnionOfTwo(m: Model, uid: string, other: string, actions: set<string>, spare: set<string>)
    requires GrantedAt(m, uid) == actions && GrantedAt(m, other) == spare
    ensures Assumable(m, uid) == {other} ==> UnionActions(m, uid) == actions + spare
    ensures Assumable(m, uid) == {} ==> UnionActions(m, uid) == actions
  {
  }

  lemma SettingUnion(org: Org, user: PrincipalInfo, role: PrincipalInfo, actions: set<string>, spare: string)
    requires Setting(org, user, role, actions, spare)
    ensures Assumable(ModelOf(org), user.uid) == {role.uid} ==>
              UnionActions(ModelOf(org), user.uid) == actions + {spare}
    ensures Assumable(ModelOf(org), user.uid) == {} ==>
              UnionActions(ModelOf(org), user.uid) == actions
  {
    GrantedByTwo(org, user, role);
    UnionOfTwo(ModelOf(org), user.uid, role.uid, actions, {spare});
  }

  lemma ClosureOfOne(pairs: set<(Node, Node)>, u: string, v: string)
    requires u != v && pairs == {(P(u), P(v))}
    ensures Closure(pairs, u) == {v}
  {
    ReachesSelf(pairs, P(u));
    ReachesStep(pairs, P(u), P(u), P(v));
    assert Heads(pairs) == {P(v)} by {
      assert (P(u), P(v)) in pairs;
    }
    assert P(v).uid in Closure(pairs, u);
  }

  lemma SettingPairs(org: Org, user: PrincipalInfo, role: PrincipalInfo)
    requires Trusting(org, user, role)
    ensures TrustPairs(org) == {(P(user.uid), P(role.uid))}
  {
    SettingTrust(org, user, role);
    forall x ensures x in TrustPairs(org) <==> x == (P(user.uid), P(role.uid)) {
      TrustPairsExactly(org, x);
    }
  }

  lemma SettingAssumes(org: Org, user: PrincipalInfo, role: PrincipalInfo)
    requires Trusting(org, user, role)
    requires !CanLaunch(PrincipalGrants(org, user)) && !CanLaunch(PrincipalGrants(org, role))
    ensures Assumable(ModelOf(org), user.uid) == {role.uid}
  {
    SettingTrust(org, user, role);
    assert !TrustsALauncher(org);
    NoLauncherKeepsPairs(org);
    SettingPairs(org, user, role);
    ClosureOfOne(TrustPairs(org), user.uid, role.uid);
  }

  lemma SettingLosesTheRole(org: Org, user: PrincipalInfo, role: PrincipalInfo, actions: set<string>, spare: string)
    requires Setting(org, user, role, actions, spare) && CanLaunch(actions)
    ensures Assumable(ModelOf(org), user.uid) == {}
  {
    SettingTrust(org, user, role);
    assert user in org.principals;
    LauncherAssumesNothing(org, user.uid);
  }

  // ----- the concrete dataset -----

  function Allowing(actions: seq<string>, principal: TrustField): Statement {
    Statement(None, Many(actions), Missing, Missing, Missing, false, principal)
  }

  function User(): PrincipalInfo {
    PrincipalInfo("u", "user", ["p"], Falsy, Falsy)
  }

  function Role(): PrincipalInfo {
    PrincipalInfo("r", "role", ["q"], Dict(Single(Allowing(["*"], AwsOne("u")))), Falsy)
  }

  function PolicyOf(uid: string, actions: seq<string>): PolicyRecord {
    PolicyRecord(uid, Single(Allowing(actions, NotADict)))
  }

  /** A user holding `actions`, trusted by a role holding `spare`. */
  function TrustedUser(actions: seq<string>, spare: string): Org {
    Org([User(), Role()], [PolicyOf("p", actions), PolicyOf("q", [spare])])
  }

  lemma AllowingGrants(actions: seq<string>, principal: TrustField)
    ensures IsAllow(Allowing(actions, principal))
    ensures StatementGrants(Allowing(actions, principal)) == set a | a in actions :: a
  {
  }

  lemma IndexOfTwo(a: PolicyRecord, b: PolicyRecord)
    ensures PolicyIndex([a, b]) == map[a.uid := a][b.uid := b]
  {
  }

  lemma OnlyAttached(index: map<string, PolicyRecord>, uid: string)
    requires uid in index
    ensures Attached(index, [uid]) == [index[uid]]
  {
  }

  lemma OnlyStatement(policy: PolicyRecord, st: Statement)
    requires policy.document == Single(st)
    ensures AllStatements([policy]) == [st]
  {
    assert [policy][..0] == [];
    assert FlatMap(DocumentStatements, [policy]) == [] + DocumentStatements(policy);
  }

  lemma OneAttached(org: Org, p: PrincipalInfo, uid: string, actions: seq<string>)
    requires p.attached == [uid] && uid in PolicyIndex(org.policies)
    requires PolicyIndex(org.policies)[uid] == PolicyOf(uid, actions)
    ensures PrincipalGrants(org, p) == set a | a in actions :: a
  {
    var st := Allowing(actions, NotADict);
    AllowingGrants(actions, NotADict);
    OnlyAttached(PolicyIndex(org.policies), uid);
    OnlyStatement(PolicyOf(uid, actions), st);
    assert GrantsOf([st]) == StatementGrants(st);
    assert PoliciesFor(org, p) == [PolicyOf(uid, actions)];
    assert PrincipalGrants(org, p) == GrantsOf([st]);
  }

  lemma RoleTrusts()
    ensures forall u :: TrustedBy(Role(), u) <==> u == "u"
  {
    var st := Allowing(["*"], AwsOne("u"));
    AllowingGrants(["*"], AwsOne("u"));
    assert Lower("*") == "*";
    assert Actions(st)[0] == "*" && IsAssumeRole(st);
    assert Statements(TrustDocument(Role()).value) == [st];
    assert st in [st];
    assert TrustArns(st.principal) == ["u"];
  }

  lemma TrustedUserIsSetting(actions: seq<string>, granted: set<string>, spare: string)
    requires forall a :: a in granted <==> a in actions
    requires NoPrimitive(granted) && NoPrimitive({spare}) && !CanLaunch({spare})
    ensures Setting(TrustedUser(actions, spare), User(), Role(), granted, spare)
  {
    var org := TrustedUser(actions, spare);
    RoleTrusts();
    assert "u"[0] != "r"[0] && "user"[0] != "role"[0];
    assert Trusting(org, User(), Role());
    IndexOfTwo(PolicyOf("p", actions), PolicyOf("q", [spare]));
    assert "p"[0] != "q"[0];
    OneAttached(org, User(), "p", actions);
    OneAttached(org, Role(), "q", [spare]);
    assert PrincipalGrants(org, User()) == granted;
    forall a ensures a in PrincipalGrants(org, Role()) <==> a in {spare} {
      assert a in [spare] <==> a == spare;
    }
  }

  // ----- which primitives three plain actions make up -----

  /** Without wildcards a grant set covers its own members only. */
  lemma PlainGrants(actions: set<string>, target: string)
    requires forall a :: a in actions ==> a != "" && a[|a| - 1] != '*'
    ensures GrantsAction(actions, target) <==> target in actions
  {
  }

  lemma NoneOf(actions: set<string>, wanted: seq<string>)
    requires forall a :: a in actions ==> a != "" && a[|a| - 1] != '*'
    requires forall t :: t in wanted ==> t !in actions
    ensures FirstGranted(actions, wanted).None?
  {
  }

  lemma ShortNamesHoldNoPrimitive(actions: set<string>)
    requires forall a :: a in actions ==> 1 < |a| < 17 && a[|a| - 1] != '*'
    ensures NoPrimitive(actions)
  {
  }

  lemma LaunchNeedsBoth(actions: set<string>, pass: string, launch: string)
    requires pass == "iam:PassRole" && launch == "ec2:RunInstances"
    requires forall a :: a in actions ==> 1 < |a| < 17 && a[|a| - 1] != '*'
    ensures pass in actions && launch in actions ==> CanLaunch(actions)
    ensures launch !in actions ==> !CanLaunch(actions)
  {
    PlainGrants(actions, pass);
    PlainGrants(actions, launch);
    assert launch in COMPUTE_LAUNCH_ACTIONS;
    if launch !in actions {
      assert |"lambda:CreateFunction"| == 21;
      NoneOf(actions, COMPUTE_LAUNCH_ACTIONS);
    }
  }

  lemma TwoSensitive(m: Model, uid: string, a: string, b: string)
    requires UnionActions(m, uid) == {a, b} && a != b
    requires IsSensitive(a) && IsSensitive(b)
    ensures |UnionActions(m, uid)| == 2 && |SensitiveAmong(UnionActions(m, uid))| == 2
  {
    assert SensitiveAmong({a, b}) == {a, b};
  }

  lemma SmallScores()
    ensures BlastScore(2, 2, false, 1) == 5 && BlastScore(2, 2, false, 0) == 4
  {
  }

  lemma ScoreOfTwo(m: Model, uid: string, a: string, b: string)
    requires UnionActions(m, uid) == {a, b} && a != b
    requires IsSensitive(a) && IsSensitive(b) && !CanReachAdmin(m, uid)
    ensures |Assumable(m, uid)| == 1 ==> ScoreOf(m, uid) == 5
    ensures |Assumable(m, uid)| == 0 ==> ScoreOf(m, uid) == 4
  {
    TwoSensitive(m, uid, a, b);
    SmallScores();
  }

  /** `org` and `org2` differ in one added grant, and the score falls. */
  ghost predicate ScoreFalls(less: Org, more: Org, uid: string) {
    && UniqueUids(more) && GrantsMore(less, more)
    && ScoreOf(ModelOf(less), uid) > ScoreOf(ModelOf(more), uid)
  }

  lemma RoleScore(m: Model, uid: string, role: string, pass: string, decrypt: string)
    requires pass != decrypt && IsSensitive(pass) && IsSensitive(decrypt) && !CanReachAdmin(m, uid)
    requires Assumable(m, uid) == {role} && UnionActions(m, uid) == {pass} + {decrypt}
    ensures ScoreOf(m, uid) == 5
  {
    assert {pass} + {decrypt} == {pass, decrypt};
    ScoreOfTwo(m, uid, pass, decrypt);
  }

  lemma ScoreWithRole(org: Org, user: PrincipalInfo, role: PrincipalInfo, pass: string, decrypt: string)
    requires pass != decrypt && IsSensitive(pass) && IsSensitive(decrypt)
    requires Setting(org, user, role, {pass}, decrypt) && !CanLaunch({pass})
    ensures ScoreOf(ModelOf(org), user.uid) == 5
  {
    SettingHasNoAdmin(org, user, role, {pass}, decrypt);
    SettingAssumes(org, user, role);
    SettingUnion(org, user, role, {pass}, decrypt);
    RoleScore(ModelOf(org), user.uid, role.uid, pass, decrypt);
  }

  lemma ScoreWithoutRole(org: Org, user: PrincipalInfo, role: PrincipalInfo, pass: string, launch: string, decrypt: string)
    requires pass != launch && IsSensitive(pass) && IsSensitive(launch)
    requires Setting(org, user, role, {pass, launch}, decrypt) && CanLaunch({pass, launch})
    ensures ScoreOf(ModelOf(org), user.uid) == 4
  {
    SettingHasNoAdmin(org, user, role, {pass, launch}, decrypt);
    SettingLosesTheRole(org, user, role, {pass, launch}, decrypt);
    SettingUnion(org, user, role, {pass, launch}, decrypt);
    ScoreOfTwo(ModelOf(org), user.uid, pass, launch);
  }

  lemma SettingGrantsMore(less: Org, more: Org, user: PrincipalInfo, role: PrincipalInfo,
                          small: set<string>, large: set<string>, spare: string)
    requires Setting(less, user, role, small, spare) && Setting(more, user, role, large, spare)
    requires small <= large
    ensures UniqueUids(more) && GrantsMore(less, more)
  {
    SettingTrust(less, user, role);
    SettingTrust(more, user, role);
  }

  lemma LosingTheRole(less: Org, more: Org, user: PrincipalInfo, role: PrincipalInfo,
                      pass: string, launch: string, decrypt: string)
    requires pass != launch && pass != decrypt
    requires IsSensitive(pass) && IsSensitive(launch) && IsSensitive(decrypt)
    requires Setting(less, user, role, {pass}, decrypt) && !CanLaunch({pass})
    requires Setting(more, user, role, {pass, launch}, decrypt) && CanLaunch({pass, launch})
    ensures ScoreFalls(less, more, user.uid)
  {
    assert ScoreOf(ModelOf(less), user.uid) == 5 by {
      ScoreWithRole(less, user, role, pass, decrypt);
    }
    assert ScoreOf(ModelOf(more), user.uid) == 4 by {
      ScoreWithoutRole(more, user, role, pass, launch, decrypt);
    }
    SettingGrantsMore(less, more, user, role, {pass}, {pass, launch}, decrypt);
  }

  lemma ExampleSensitive(pass: string, launch: string, decrypt: string)
    requires pass == "iam:PassRole" && launch == "ec2:RunInstances" && decrypt == "kms:Decrypt"
    ensures IsSensitive(pass) && IsSensitive(launch) && IsSensitive(decrypt)
    ensures |pass| == 12 && |launch| == 16 && |decrypt| == 11
    ensures pass[11] == 'e' && launch[15] == 's' && decrypt[10] == 't'
  {
  }

  lemma ExamplePrimitives(pass: string, launch: string, decrypt: string)
    requires |pass| == 12 && |launch| == 16 && |decrypt| == 11
    requires pass[11] == 'e' && launch[15] == 's' && decrypt[10] == 't'
    ensures NoPrimitive({pass}) && NoPrimitive({pass, launch}) && NoPrimitive({decrypt})
  {
    ShortNamesHoldNoPrimitive({pass});
    ShortNamesHoldNoPrimitive({pass, launch});
    ShortNamesHoldNoPrimitive({decrypt});
  }

  lemma ExampleLaunches(pass: string, launch: string, decrypt: string)
    requires pass == "iam:PassRole" && launch == "ec2:RunInstances"
    requires |pass| == 12 && |launch| == 16 && |decrypt| == 11
    requires pass[11] == 'e' && launch[15] == 's' && decrypt[10] == 't'
    ensures !CanLaunch({pass}) && CanLaunch({pass, launch}) && !CanLaunch({decrypt})
  {
    LaunchNeedsBoth({pass}, pass, launch);
    LaunchNeedsBoth({pass, launch}, pass, launch);
    LaunchNeedsBoth({decrypt}, pass, launch);
  }

  /** Adding ec2:RunInstances to a PassRole holder that a role trusts turns its
      CAN_ASSUME pair into a CAN_ESCALATE one and drops the role from its blast
      radius: the score falls from 5 to 4. */
  lemma AddedGrantCanLowerTheScore(pass: string, launch: string, decrypt: string)
    requires pass == "iam:PassRole" && launch == "ec2:RunInstances" && decrypt == "kms:Decrypt"
    ensures ScoreFalls(TrustedUser([pass], decrypt), TrustedUser([pass, launch], decrypt), "u")
  {
    ExampleSensitive(pass, launch, decrypt);
    ExamplePrimitives(pass, launch, decrypt);
    ExampleLaunches(pass, launch, decrypt);
    ExampleFalls(pass, launch, decrypt);
  }

  lemma ExampleFalls(pass: string, launch: string, decrypt: string)
    requires |pass| == 12 && |launch| == 16 && |decrypt| == 11
    requires IsSensitive(pass) && IsSensitive(launch) && IsSensitive(decrypt)
    requires NoPrimitive({pass}) && NoPrimitive({pass, launch}) && NoPrimitive({decrypt})
    requires !CanLaunch({pass}) && CanLaunch({pass, launch}) && !CanLaunch({decrypt})
    ensures ScoreFalls(TrustedUser([pass], decrypt), TrustedUser([pass, launch], decrypt), "u")
  {
    TrustedUserIsSetting([pass], {pass}, decrypt);
    TrustedUserIsSetting([pass, launch], {pass, launch}, decrypt);
    LosingTheRole(TrustedUser([pass], decrypt), TrustedUser([pass, launch], decrypt), User(), Role(),
                  pass, launch, decrypt);
  }
}
