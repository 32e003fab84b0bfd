/** What a suggested policy allows, against what the policies it was made from
    allowed. */
module LeastPrivilegeTheorems {
  import opened Ordering
  import opened Text
  import opened Policy
  import opened Records
  import opened LeastPrivilege

  ghost predicate ScopeAllows(scope: set<string>, resource: string) {
    resource in scope || "*" in scope
  }

  /** Some Allow statement allows `action`, under wildcard coverage, on
      `resource`; a missing Resource reads as `*`. */
  ghost predicate Allows(sts: seq<Statement>, action: string, resource: string) {
    exists st, g :: st in sts && IsAllow(st) && g in GrantedIn(st) && Covers(g, action)
                    && ScopeAllows(ScopeOf(st), resource)
  }

  lemma {:induction false} DocumentRoundTrip(sts: seq<Statement>)
    ensures Statements(AsDocument(sts)) == sts
  {
    ItemsRoundTrip(sts);
  }

  lemma {:induction false} DictsConcat(a: seq<Option<Statement>>, b: seq<Option<Statement>>)
    ensures Dicts(a + b) == Dicts(a) + Dicts(b)
  {
    if a == [] {
      assert a + b == b;
    } else {
      assert (a + b)[1..] == a[1..] + b;
      DictsConcat(a[1..], b);
    }
  }

  lemma {:induction false} ItemsRoundTrip(sts: seq<Statement>)
    ensures Dicts(Items(sts)) == sts
  {
    if sts != [] {
      var init := sts[..|sts| - 1];
      var last := sts[|sts| - 1];
      ItemsRoundTrip(init);
      DictsConcat(Items(init), [Some(last)]);
      assert Dicts([Some(last)]) == [last];
      assert sts == init + [last];
    }
  }

  // ----- one suggested statement -----

  lemma {:induction false} SharingMembers(actions: seq<string>, keyOf: string -> seq<string>, key: seq<string>)
    ensures forall a :: a in Sharing(actions, keyOf, key) <==> a in actions && keyOf(a) == key
  {
    if actions != [] {
      SharingMembers(actions[..|actions| - 1], keyOf, key);
      assert forall a :: a in actions <==> a in actions[..|actions| - 1] || a == actions[|actions| - 1];
    }
  }

  ghost predicate NoTwice(xs: seq<string>) {
    forall i, j :: 0 <= i < j < |xs| ==> xs[i] != xs[j]
  }

  lemma NoTwiceAppend(xs: seq<string>, x: string)
    requires NoTwice(xs) && x !in xs
    ensures NoTwice(xs + [x])
  {
  }

  lemma NoTwiceInit(xs: seq<string>)
    requires NoTwice(xs) && xs != []
    ensures NoTwice(xs[..|xs| - 1]) && xs[|xs| - 1] !in xs[..|xs| - 1]
  {
  }

  lemma {:induction false} SharingDistinct(actions: seq<string>, keyOf: string -> seq<string>, key: seq<string>)
    requires NoTwice(actions)
    ensures NoTwice(Sharing(actions, keyOf, key))
  {
    if actions != [] {
      var init := actions[..|actions| - 1];
      var last := actions[|actions| - 1];
      NoTwiceInit(actions);
      SharingDistinct(init, keyOf, key);
      SharingMembers(init, keyOf, key);
      if keyOf(last) == key {
        NoTwiceAppend(Sharing(init, keyOf, key), last);
      }
    }
  }

  lemma SuggestedStatementReads(key: seq<string>, actions: seq<string>)
    requires key != [] && actions != []
    ensures var st := SuggestedStatement(key, actions);
      IsAllow(st) && !Unsupported(st) && GrantedIn(st) == actions && ScopeOf(st) == Elements(key)
      && StatementGrants(st) == Elements(actions)
  {
    var low := Lower("Allow");
    assert low[0] == 'a' && low[1] == 'l' && low[2] == 'l' && low[3] == 'o' && low[4] == 'w';
    assert low == "allow";
    var st := SuggestedStatement(key, actions);
    assert Resources(st) == key;
    var first := key[0];
    assert first in key;
    assert first in Elements(key);
    assert (set r | r in Resources(st) :: r) == Elements(key);
    assert NotActions(st) == [] && StatementGrants(st) == Elements(actions);
  }

  lemma ScopeKeyElements(scopes: map<string, set<string>>, action: string)
    requires action in scopes ==> scopes[action] != {}
    ensures ScopeKey(scopes, action) != []
    ensures Elements(ScopeKey(scopes, action)) == SuggestedScope(scopes, action)
  {
    var scope := SuggestedScope(scopes, action);
    SortStringsMembers(scope);
    assert "*" in {"*"};
    assert scope != {};
    var r :| r in scope;
    assert r in SortStrings(scope);
  }

  ghost predicate NonemptyScopes(scopes: map<string, set<string>>) {
    forall a :: a in scopes ==> scopes[a] != {}
  }

  lemma ScopesOfNonempty(policies: seq<PolicyRecord>)
    ensures NonemptyScopes(ScopesOf(policies))
  {
    var sts := AllStatements(policies);
    forall a | a in ScopesOf(policies) ensures ScopesOf(policies)[a] != {} {
      ScopeNonempty(sts, a);
    }
  }

  ghost function SuggestedKeys(used: set<string>, scopes: map<string, set<string>>): seq<seq<string>> {
    SortTuples(KeysIn(used, KeyOf(scopes)))
  }

  lemma SuggestedKeysMembers(used: set<string>, scopes: map<string, set<string>>)
    ensures forall key :: key in SuggestedKeys(used, scopes) <==> exists a :: a in used && ScopeKey(scopes, a) == key
    ensures |SuggestedStatements(used, scopes)| == |SuggestedKeys(used, scopes)|
  {
    SortTuplesMembers(KeysIn(used, KeyOf(scopes)));
    StatementsForAt(SortStrings(used), KeyOf(scopes), SuggestedKeys(used, scopes));
    forall key ensures key in KeysIn(used, KeyOf(scopes)) <==> exists a :: a in used && ScopeKey(scopes, a) == key {
      if a :| a in used && ScopeKey(scopes, a) == key {
        assert KeyOf(scopes)(a) == key;
      }
    }
  }

  /** The statement at a position of the suggested list: its resources are the
      position's key and its actions the used ones with that key. */
  lemma SuggestedStatementAt(used: set<string>, scopes: map<string, set<string>>, i: nat)
    requires NonemptyScopes(scopes) && i < |SuggestedStatements(used, scopes)|
    ensures i < |SuggestedKeys(used, scopes)|
    ensures var st := SuggestedStatements(used, scopes)[i]; var key := SuggestedKeys(used, scopes)[i];
      && IsAllow(st) && !Unsupported(st)
      && GrantedIn(st) == Sharing(SortStrings(used), KeyOf(scopes), key)
      && StatementGrants(st) == Elements(GrantedIn(st))
      && ScopeOf(st) == Elements(key)
      && forall a :: a in GrantedIn(st) <==> a in used && ScopeKey(scopes, a) == key
  {
    var order, keys := SortStrings(used), SuggestedKeys(used, scopes);
    SuggestedKeysMembers(used, scopes);
    StatementsForAt(order, KeyOf(scopes), keys);
    assert keys[i] in keys;
    SuggestedStatementOf(used, scopes, keys[i]);
  }

  lemma SuggestedStatementOf(used: set<string>, scopes: map<string, set<string>>, key: seq<string>)
    requires NonemptyScopes(scopes) && exists a :: a in used && ScopeKey(scopes, a) == key
    ensures var st := StatementFor(SortStrings(used), KeyOf(scopes), key);
      && IsAllow(st) && !Unsupported(st)
      && GrantedIn(st) == Sharing(SortStrings(used), KeyOf(scopes), key)
      && StatementGrants(st) == Elements(GrantedIn(st))
      && ScopeOf(st) == Elements(key)
      && forall a :: a in GrantedIn(st) <==> a in used && ScopeKey(scopes, a) == key
  {
    var a :| a in used && ScopeKey(scopes, a) == key;
    ScopeKeyElements(scopes, a);
    SortStringsMembers(used);
    var actions := Sharing(SortStrings(used), KeyOf(scopes), key);
    SharingMembers(SortStrings(used), KeyOf(scopes), key);
    assert a in actions;
    SuggestedStatementReads(key, actions);
  }

  lemma SuggestedPositionOf(used: set<string>, scopes: map<string, set<string>>, a: string) returns (i: nat)
    requires NonemptyScopes(scopes) && a in used
    ensures i < |SuggestedStatements(used, scopes)|
    ensures a in GrantedIn(SuggestedStatements(used, scopes)[i])
    ensures ScopeOf(SuggestedStatements(used, scopes)[i]) == SuggestedScope(scopes, a)
  {
    var keys := SuggestedKeys(used, scopes);
    SuggestedKeysMembers(used, scopes);
    assert ScopeKey(scopes, a) in keys;
    i :| 0 <= i < |keys| && keys[i] == ScopeKey(scopes, a);
    SuggestedStatementAt(used, scopes, i);
    ScopeKeyElements(scopes, a);
  }

  lemma SuggestedScopeAt(used: set<string>, scopes: map<string, set<string>>, st: Statement, a: string)
    requires NonemptyScopes(scopes) && st in SuggestedStatements(used, scopes) && a in GrantedIn(st)
    ensures IsAllow(st) && !Unsupported(st) && a in used && ScopeOf(st) == SuggestedScope(scopes, a)
  {
    var i :| 0 <= i < |SuggestedStatements(used, scopes)| && SuggestedStatements(used, scopes)[i] == st;
    SuggestedStatementAt(used, scopes, i);
    ScopeKeyElements(scopes, a);
  }

  // ----- unused entries -----

  /** A granted sensitive entry other than `*` is reported as unused exactly when
      no used action is the entry or belongs to the service it stands for. */
  lemma UnusedExactly(granted: set<string>, used: set<string>, g: string)
    ensures g in SensitiveAmong(granted) - {"*"} && !IsExercised(g, used) <==>
      && g in granted && g != "*" && IsSensitive(g)
      && forall u :: u in used ==> u != g && g != Service(u) + ":*"
  {
    if g != "*" {
      forall u ensures Covers(g, u) <==> u == g || g == Service(u) + ":*" {
      }
    }
  }

  // ----- never broader -----

  /** With every statement supported, a granted action has a scope entry that
      covers it. */
  lemma KeptIsCovered(policies: seq<PolicyRecord>, u: string)
    requires SupportedAll(AllStatements(policies))
    requires GrantsAction(GrantsOf(AllStatements(policies)), u)
    ensures CoveringScope(ScopesOf(policies), u) != {}
  {
    var sts := AllStatements(policies);
    GrantsActionIsSomeCover(GrantsOf(sts), u);
    var g :| g in GrantsOf(sts) && Covers(g, u);
    var st :| st in sts && g in StatementGrants(st);
    assert !Unsupported(st);
    assert g in GrantedIn(st);
    assert g in ScopesOf(policies);
    ScopeNonempty(sts, g);
    var r :| r in ScopesOf(policies)[g];
    assert r in CoveringScope(ScopesOf(policies), u);
  }

  /** A suggested resource of `u` comes from an original statement with an entry
      that covers `u`. */
  lemma SuggestedResourceHasSource(policies: seq<PolicyRecord>, u: string, r: string)
    returns (st: Statement, g: string)
    requires SupportedAll(AllStatements(policies))
    requires GrantsAction(GrantsOf(AllStatements(policies)), u)
    requires r in SuggestedScope(ScopesOf(policies), u)
    ensures st in AllStatements(policies) && IsAllow(st) && g in GrantedIn(st) && Covers(g, u) && r in ScopeOf(st)
  {
    var sts := AllStatements(policies);
    var scopes := ScopesOf(policies);
    KeptIsCovered(policies, u);
    if u in scopes {
      g := u;
    } else {
      g :| g in scopes && Covers(g, u) && r in scopes[g];
    }
    st :| st in sts && IsAllow(st) && g in GrantedIn(st) && r in ScopeOf(st);
  }

  /** Whatever pair the suggested policy allows, the original policies allowed. */
  lemma SuggestedNeverBroadens(policies: seq<PolicyRecord>, used: set<string>, action: string, resource: string)
    requires SupportedAll(AllStatements(policies)) && "*" !in used
    requires var kept := Kept(GrantsOf(AllStatements(policies)), used);
      Allows(Statements(SuggestedDocument(kept, ScopesOf(policies))), action, resource)
    ensures Allows(AllStatements(policies), action, resource)
  {
    var scopes := ScopesOf(policies);
    var kept := Kept(GrantsOf(AllStatements(policies)), used);
    var suggested := SuggestedStatements(kept, scopes);
    DocumentRoundTrip(suggested);
    ScopesOfNonempty(policies);
    var st, u :| st in suggested && IsAllow(st) && u in GrantedIn(st) && Covers(u, action)
                 && ScopeAllows(ScopeOf(st), resource);
    SuggestedScopeAt(kept, scopes, st, u);
    var r := if resource in ScopeOf(st) then resource else "*";
    var source, g := SuggestedResourceHasSource(policies, u, r);
    CoverTransitive(g, u, action);
    assert ScopeAllows(ScopeOf(source), resource);
  }

  /** Actions read off a log are qualified, so none is the bare wildcard. */
  lemma ExercisedAreQualified(events: seq<LogEvent>, uid: string)
    ensures forall a :: a in Exercised(events, uid) ==> ':' in a
    ensures "*" !in Exercised(events, uid)
  {
  }

  /** The same for a principal's activity read off any event log. */
  lemma SuggestedNeverBroadensLogged(policies: seq<PolicyRecord>, events: seq<LogEvent>, uid: string,
                                     action: string, resource: string)
    requires SupportedAll(AllStatements(policies))
    requires var kept := Kept(GrantsOf(AllStatements(policies)), Exercised(events, uid));
      Allows(Statements(SuggestedDocument(kept, ScopesOf(policies))), action, resource)
    ensures Allows(AllStatements(policies), action, resource)
  {
    ExercisedAreQualified(events, uid);
    SuggestedNeverBroadens(policies, Exercised(events, uid), action, resource);
  }

  // ----- exactly the used and granted actions -----

  /** The suggested statements grant exactly `used`, in supported forms only. */
  lemma SuggestedGrantsExactly(used: set<string>, scopes: map<string, set<string>>)
    requires NonemptyScopes(scopes)
    ensures GrantsOf(SuggestedStatements(used, scopes)) == used
    ensures SupportedAll(SuggestedStatements(used, scopes))
  {
    var sts := SuggestedStatements(used, scopes);
    forall st | st in sts ensures !Unsupported(st) && StatementGrants(st) <= used {
      var i :| 0 <= i < |sts| && sts[i] == st;
      SuggestedStatementAt(used, scopes, i);
    }
    forall a | a in used ensures a in GrantsOf(sts) {
      var i := SuggestedPositionOf(used, scopes, a);
      SuggestedStatementAt(used, scopes, i);
      assert sts[i] in sts && a in StatementGrants(sts[i]);
    }
  }

  /** No suggested statement lists an action twice. */
  lemma SuggestedActionsOnce(used: set<string>, scopes: map<string, set<string>>, i: nat)
    requires NonemptyScopes(scopes) && i < |SuggestedStatements(used, scopes)|
    ensures var actions := GrantedIn(SuggestedStatements(used, scopes)[i]);
      forall m, n :: 0 <= m < n < |actions| ==> actions[m] != actions[n]
  {
    SuggestedStatementAt(used, scopes, i);
    SortStringsDistinct(used);
    SharingDistinct(SortStrings(used), KeyOf(scopes), SuggestedKeys(used, scopes)[i]);
  }

  /** Two different suggested statements differ in their resource sets and share
      no action. */
  lemma SuggestedStatementsDiffer(used: set<string>, scopes: map<string, set<string>>, i: nat, j: nat)
    requires NonemptyScopes(scopes) && i < j < |SuggestedStatements(used, scopes)|
    ensures var sts := SuggestedStatements(used, scopes);
      && ScopeOf(sts[i]) != ScopeOf(sts[j])
      && forall a :: !(a in GrantedIn(sts[i]) && a in GrantedIn(sts[j]))
  {
    var keys := SuggestedKeys(used, scopes);
    SuggestedKeysMembers(used, scopes);
    SortTuplesDistinct(KeysIn(used, KeyOf(scopes)));
    SuggestedStatementAt(used, scopes, i);
    SuggestedStatementAt(used, scopes, j);
    KeysDetermineScopes(used, scopes, keys[i], keys[j]);
  }

  /** Keys are sorted, so equal resource sets have equal keys. */
  lemma KeysDetermineScopes(used: set<string>, scopes: map<string, set<string>>, one: seq<string>, two: seq<string>)
    requires NonemptyScopes(scopes) && one != two
    requires one in SuggestedKeys(used, scopes) && two in SuggestedKeys(used, scopes)
    ensures Elements(one) != Elements(two)
  {
    SuggestedKeysMembers(used, scopes);
    var a :| a in used && ScopeKey(scopes, a) == one;
    var b :| b in used && ScopeKey(scopes, b) == two;
    ScopeKeyElements(scopes, a);
    ScopeKeyElements(scopes, b);
  }

  // ----- a fixpoint of itself -----

  lemma KeptAgain(granted: set<string>, used: set<string>)
    requires "*" !in used
    ensures Kept(Kept(granted, used), used) == Kept(granted, used)
  {
  }

  lemma {:induction false} SharingAgrees(actions: seq<string>, one: string -> seq<string>, two: string -> seq<string>, key: seq<string>)
    requires forall a :: a in actions ==> one(a) == two(a)
    ensures Sharing(actions, one, key) == Sharing(actions, two, key)
  {
    if actions != [] {
      assert actions[|actions| - 1] in actions;
      SharingAgrees(actions[..|actions| - 1], one, two, key);
    }
  }

  lemma {:induction false} StatementsAgree(order: seq<string>, one: string -> seq<string>, two: string -> seq<string>, keys: seq<seq<string>>)
    requires forall a :: a in order ==> one(a) == two(a)
    ensures StatementsFor(order, one, keys) == StatementsFor(order, two, keys)
  {
    if keys != [] {
      StatementsAgree(order, one, two, keys[..|keys| - 1]);
      SharingAgrees(order, one, two, keys[|keys| - 1]);
    }
  }

  lemma GroupedAgrees(used: set<string>, one: string -> seq<string>, two: string -> seq<string>)
    requires forall a :: a in used ==> one(a) == two(a)
    ensures Grouped(used, one) == Grouped(used, two)
  {
    assert KeysIn(used, one) == KeysIn(used, two);
    SortStringsMembers(used);
    StatementsAgree(SortStrings(used), one, two, SortTuples(KeysIn(used, one)));
  }

  lemma SuggestedAgrees(used: set<string>, one: map<string, set<string>>, two: map<string, set<string>>)
    requires forall a :: a in used ==> SuggestedScope(one, a) == SuggestedScope(two, a)
    ensures SuggestedStatements(used, one) == SuggestedStatements(used, two)
  {
    forall a | a in used ensures KeyOf(one)(a) == KeyOf(two)(a) {
      assert SuggestedScope(one, a) == SuggestedScope(two, a);
    }
    GroupedAgrees(used, KeyOf(one), KeyOf(two));
  }

  /** The scope of an action read back from the suggested statements is the one
      it was given. */
  lemma ScopeReadsBack(used: set<string>, scopes: map<string, set<string>>, a: string)
    requires NonemptyScopes(scopes) && a in used
    ensures a in GrantedEntries(SuggestedStatements(used, scopes))
    ensures ScopeIn(SuggestedStatements(used, scopes), a) == SuggestedScope(scopes, a)
  {
    var sts := SuggestedStatements(used, scopes);
    var i := SuggestedPositionOf(used, scopes, a);
    SuggestedStatementAt(used, scopes, i);
    assert sts[i] in sts;
    forall st | st in sts && a in GrantedIn(st) ensures ScopeOf(st) == SuggestedScope(scopes, a) {
      SuggestedScopeAt(used, scopes, st, a);
    }
  }

  lemma OnePolicy(uid: string, document: Document)
    ensures AllStatements([PolicyRecord(uid, document)]) == Statements(document)
  {
    var policy := PolicyRecord(uid, document);
    assert [policy][..0] == [];
    assert FlatMap(DocumentStatements, [policy]) == [] + DocumentStatements(policy);
  }

  /** Recommending again, from the suggested policy alone and the same activity,
      is not refused, keeps the same actions and suggests the same document. */
  lemma SuggestionIsAFixpoint(policies: seq<PolicyRecord>, used: set<string>, events: nat, windowDays: nat, uid: string)
    requires "*" !in used && Refusal(policies, events, windowDays) == None
    ensures var kept := Kept(GrantsOf(AllStatements(policies)), used);
      var document := SuggestedDocument(kept, ScopesOf(policies));
      var again := [PolicyRecord(uid, document)];
      && Refusal(again, events, windowDays) == None
      && Kept(GrantsOf(AllStatements(again)), used) == kept
      && SuggestedDocument(kept, ScopesOf(again)) == document
  {
    var scopes := ScopesOf(policies);
    var kept := Kept(GrantsOf(AllStatements(policies)), used);
    var sts := SuggestedStatements(kept, scopes);
    var again := [PolicyRecord(uid, AsDocument(sts))];
    ScopesOfNonempty(policies);
    DocumentRoundTrip(sts);
    OnePolicy(uid, AsDocument(sts));
    SuggestedGrantsExactly(kept, scopes);
    KeptAgain(GrantsOf(AllStatements(policies)), used);
    forall a | a in kept ensures SuggestedScope(ScopesOf(again), a) == SuggestedScope(scopes, a) {
      ScopeReadsBack(kept, scopes, a);
    }
    SuggestedAgrees(kept, ScopesOf(again), scopes);
  }

  // ----- which resources survive -----

  lemma AllowsByScope(policies: seq<PolicyRecord>, u: string, r: string)
    ensures Allows(AllStatements(policies), u, r) <==> ScopeAllows(CoveringScope(ScopesOf(policies), u), r)
  {
    var sts := AllStatements(policies);
    var scopes := ScopesOf(policies);
    if Allows(sts, u, r) {
      var st, g :| st in sts && IsAllow(st) && g in GrantedIn(st) && Covers(g, u) && ScopeAllows(ScopeOf(st), r);
      var r' := if r in ScopeOf(st) then r else "*";
      assert g in scopes && r' in scopes[g];
      assert r' in CoveringScope(scopes, u);
    }
    if ScopeAllows(CoveringScope(scopes, u), r) {
      var r' := if r in CoveringScope(scopes, u) then r else "*";
      var g :| g in scopes && Covers(g, u) && r' in scopes[g];
      var st :| st in sts && IsAllow(st) && g in GrantedIn(st) && r' in ScopeOf(st);
      assert ScopeAllows(ScopeOf(st), r);
    }
  }

  /** The resources the suggestion leaves `u`: those of every kept action that
      covers it. */
  function LeftScope(kept: set<string>, scopes: map<string, set<string>>, u: string): set<string> {
    set k, r | k in kept && Covers(k, u) && r in SuggestedScope(scopes, k) :: r
  }

  lemma SuggestedAllowsByScope(kept: set<string>, scopes: map<string, set<string>>, u: string, r: string)
    requires NonemptyScopes(scopes)
    ensures Allows(SuggestedStatements(kept, scopes), u, r) <==> ScopeAllows(LeftScope(kept, scopes, u), r)
  {
    var sts := SuggestedStatements(kept, scopes);
    if Allows(sts, u, r) {
      var st, g :| st in sts && IsAllow(st) && g in GrantedIn(st) && Covers(g, u) && ScopeAllows(ScopeOf(st), r);
      SuggestedScopeAt(kept, scopes, st, g);
      var r' := if r in ScopeOf(st) then r else "*";
      assert r' in LeftScope(kept, scopes, u);
    }
    if ScopeAllows(LeftScope(kept, scopes, u), r) {
      var r' := if r in LeftScope(kept, scopes, u) then r else "*";
      var k :| k in kept && Covers(k, u) && r' in SuggestedScope(scopes, k);
      var i := SuggestedPositionOf(kept, scopes, k);
      SuggestedStatementAt(kept, scopes, i);
      assert sts[i] in sts && ScopeAllows(ScopeOf(sts[i]), r);
    }
  }

  lemma ScopeAllowsAsMuch(wide: set<string>, narrow: set<string>)
    ensures (forall r :: ScopeAllows(wide, r) ==> ScopeAllows(narrow, r)) <==> ("*" in narrow || wide <= narrow)
  {
    if "*" !in narrow && !(wide <= narrow) {
      var r :| r in wide && r !in narrow;
      assert ScopeAllows(wide, r) && !ScopeAllows(narrow, r);
    }
  }

  lemma CoveringScopeWithin(scopes: map<string, set<string>>, u: string, bound: set<string>)
    ensures CoveringScope(scopes, u) <= bound <==> forall g :: g in scopes && Covers(g, u) ==> scopes[g] <= bound
  {
  }

  /** `u` stays allowed on every resource it was allowed on. */
  ghost predicate KeepsEveryResource(before: seq<Statement>, after: seq<Statement>, u: string) {
    forall r :: Allows(before, u, r) ==> Allows(after, u, r)
  }

  lemma KeepsByScope(before: seq<Statement>, after: seq<Statement>, u: string, wide: set<string>, narrow: set<string>)
    requires forall r :: Allows(before, u, r) <==> ScopeAllows(wide, r)
    requires forall r :: Allows(after, u, r) <==> ScopeAllows(narrow, r)
    ensures KeepsEveryResource(before, after, u) <==> ("*" in narrow || wide <= narrow)
  {
    ScopeAllowsAsMuch(wide, narrow);
    if KeepsEveryResource(before, after, u) {
      forall r | ScopeAllows(wide, r) ensures ScopeAllows(narrow, r) {
        assert Allows(before, u, r);
      }
    }
  }

  /** An action stays allowed on all its resources exactly when the kept actions
      that cover it are suggested without bound, or on every resource of every
      original entry that covers it. */
  lemma KeepsEveryResourceExactlyWhen(policies: seq<PolicyRecord>, used: set<string>, u: string)
    ensures var scopes := ScopesOf(policies);
      var kept := Kept(GrantsOf(AllStatements(policies)), used);
      var left := LeftScope(kept, scopes, u);
      KeepsEveryResource(AllStatements(policies), SuggestedStatements(kept, scopes), u)
      <==> ("*" in left || forall g :: g in scopes && Covers(g, u) ==> scopes[g] <= left)
  {
    var before := AllStatements(policies);
    var scopes := ScopesOf(policies);
    var kept := Kept(GrantsOf(before), used);
    var after := SuggestedStatements(kept, scopes);
    var wide, left := CoveringScope(scopes, u), LeftScope(kept, scopes, u);
    ScopesOfNonempty(policies);
    forall r ensures Allows(before, u, r) <==> ScopeAllows(wide, r) {
      AllowsByScope(policies, u, r);
    }
    forall r ensures Allows(after, u, r) <==> ScopeAllows(left, r) {
      SuggestedAllowsByScope(kept, scopes, u, r);
    }
    KeepsByScope(before, after, u, wide, left);
    CoveringScopeWithin(scopes, u, left);
  }

  lemma LeftScopeAlone(kept: set<string>, scopes: map<string, set<string>>, u: string)
    requires u in kept && forall k :: k in kept && Covers(k, u) ==> k == u
    ensures LeftScope(kept, scopes, u) == SuggestedScope(scopes, u)
  {
    assert Covers(u, u);
  }

  /** For a kept action that no other used action covers: exactly when it has no
      entry of its own, or that entry is unbounded, or the wildcards covering it
      add no resource to it. */
  lemma OwnEntryKeepsEveryResourceExactlyWhen(policies: seq<PolicyRecord>, used: set<string>, u: string)
    requires SupportedAll(AllStatements(policies))
    requires u in Kept(GrantsOf(AllStatements(policies)), used)
    requires forall k :: k in used && Covers(k, u) ==> k == u
    ensures var scopes := ScopesOf(policies);
      var kept := Kept(GrantsOf(AllStatements(policies)), used);
      KeepsEveryResource(AllStatements(policies), SuggestedStatements(kept, scopes), u)
      <==> (u !in scopes || "*" in scopes[u] || forall g :: g in scopes && Covers(g, u) ==> scopes[g] <= scopes[u])
  {
    var scopes := ScopesOf(policies);
    var kept := Kept(GrantsOf(AllStatements(policies)), used);
    KeepsEveryResourceExactlyWhen(policies, used, u);
    LeftScopeAlone(kept, scopes, u);
    KeptIsCovered(policies, u);
    CoveringScopeWithin(scopes, u, SuggestedScope(scopes, u));
  }

  /** `u` has a scope of its own, and the wildcard `g` a resource beyond it. */
  ghost predicate WideBesideNarrow(scopes: map<string, set<string>>, u: string, g: string) {
    && u in scopes && "*" !in scopes[u]
    && g in scopes && Covers(g, u) && !(scopes[g] <= scopes[u])
  }

  lemma WiderWildcardIsLost(policies: seq<PolicyRecord>, used: set<string>, u: string, g: string)
    requires SupportedAll(AllStatements(policies))
    requires u in Kept(GrantsOf(AllStatements(policies)), used)
    requires forall k :: k in used && Covers(k, u) ==> k == u
    requires WideBesideNarrow(ScopesOf(policies), u, g)
    ensures !KeepsEveryResource(AllStatements(policies),
              SuggestedStatements(Kept(GrantsOf(AllStatements(policies)), used), ScopesOf(policies)), u)
  {
    OwnEntryKeepsEveryResourceExactlyWhen(policies, used, u);
  }

  function Granting(action: string, resource: string): Statement {
    SuggestedStatement([resource], [action])
  }

  lemma GrantingReads(action: string, resource: string)
    ensures var st := Granting(action, resource);
      IsAllow(st) && !Unsupported(st) && GrantedIn(st) == [action] && ScopeOf(st) == {resource}
      && StatementGrants(st) == {action}
  {
    SuggestedStatementReads([resource], [action]);
    assert Elements([resource]) == {resource} && Elements([action]) == {action};
  }

  /** Two plain Allow statements: `u` on `a` and `g` on `b`. */
  ghost predicate TwoGrants(sts: seq<Statement>, u: string, g: string, a: string, b: string) {
    && |sts| == 2 && u != g
    && (forall st :: st in sts ==> IsAllow(st) && !Unsupported(st))
    && GrantedIn(sts[0]) == [u] && ScopeOf(sts[0]) == {a} && StatementGrants(sts[0]) == {u}
    && GrantedIn(sts[1]) == [g] && ScopeOf(sts[1]) == {b} && StatementGrants(sts[1]) == {g}
  }

  lemma TwoEntries(x: Statement, y: Statement, u: string, g: string, a: string, b: string)
    requires TwoGrants([x, y], u, g, a, b)
    ensures GrantedEntries([x, y]) == {u, g} && GrantsOf([x, y]) == {u, g}
  {
    assert forall st :: st in [x, y] <==> st == x || st == y;
    assert forall e :: e in GrantedEntries([x, y]) <==> e in {u, g};
    assert forall e :: e in GrantsOf([x, y]) <==> e in {u, g};
  }

  lemma TwoScopes(x: Statement, y: Statement, u: string, g: string, a: string, b: string)
    requires TwoGrants([x, y], u, g, a, b)
    ensures ScopeIn([x, y], u) == {a} && ScopeIn([x, y], g) == {b}
  {
    assert forall st :: st in [x, y] <==> st == x || st == y;
    assert forall r :: r in ScopeIn([x, y], u) <==> r == a;
    assert forall r :: r in ScopeIn([x, y], g) <==> r == b;
  }

  lemma TwoScopesOf(policies: seq<PolicyRecord>, u: string, g: string, a: string, b: string)
    requires TwoGrants(AllStatements(policies), u, g, a, b)
    ensures var scopes := ScopesOf(policies);
      u in scopes && scopes[u] == {a} && g in scopes && scopes[g] == {b}
    ensures SupportedAll(AllStatements(policies))
    ensures u in Kept(GrantsOf(AllStatements(policies)), {u})
  {
    var sts := AllStatements(policies);
    assert sts == [sts[0], sts[1]];
    TwoEntries(sts[0], sts[1], u, g, a, b);
    TwoScopes(sts[0], sts[1], u, g, a, b);
  }

  lemma IsWide(scopes: map<string, set<string>>, u: string, g: string, a: string, b: string)
    requires u in scopes && scopes[u] == {a} && g in scopes && scopes[g] == {b}
    requires Covers(g, u) && a != b && a != "*"
    ensures WideBesideNarrow(scopes, u, g)
  {
  }

  lemma OwnEntryIsLost(policies: seq<PolicyRecord>, u: string, g: string)
    requires SupportedAll(AllStatements(policies)) && u in Kept(GrantsOf(AllStatements(policies)), {u})
    requires WideBesideNarrow(ScopesOf(policies), u, g)
    ensures !KeepsEveryResource(AllStatements(policies),
              SuggestedStatements(Kept(GrantsOf(AllStatements(policies)), {u}), ScopesOf(policies)), u)
  {
    WiderWildcardIsLost(policies, {u}, u, g);
  }

  /** An action granted on `a` by its own entry and on `b` by a wildcard is
      suggested on `a` alone. */
  lemma NarrowEntryLosesResources(policies: seq<PolicyRecord>, u: string, g: string, a: string, b: string)
    requires TwoGrants(AllStatements(policies), u, g, a, b)
    requires Covers(g, u) && a != b && a != "*"
    ensures var kept := Kept(GrantsOf(AllStatements(policies)), {u});
      && u in kept
      && !KeepsEveryResource(AllStatements(policies), SuggestedStatements(kept, ScopesOf(policies)), u)
  {
    TwoScopesOf(policies, u, g, a, b);
    IsWide(ScopesOf(policies), u, g, a, b);
    OwnEntryIsLost(policies, u, g);
  }

  lemma ExampleGrants(sts: seq<Statement>, u: string, g: string)
    requires u == "s:g" && g == "s:*"
    requires sts == [Granting(u, "a"), Granting(g, "b")]
    ensures TwoGrants(sts, u, g, "a", "b") && Covers(g, u) && "a" != "b" && "a" != "*"
  {
    assert u[2] != g[2] && "a"[0] != "b"[0] && "a"[0] != "*"[0];
    GrantingReads(u, "a");
    GrantingReads(g, "b");
    ExampleCovers(u, g);
  }

  lemma ExampleCovers(u: string, g: string)
    requires u == "s:g" && g == "s:*"
    ensures Covers(g, u)
  {
    assert Service(u) == "s" by {
      BeforeConcat("s", ':', "g");
      assert u == "s" + [':'] + "g";
    }
    assert "s" + ":*" == g;
  }

  /** The concrete case: a policy with `s:g` on `a` and `s:*` on `b`. Of a
      principal that used `s:g` the suggestion keeps it on `a` alone. */
  lemma NarrowEntryExample(policies: seq<PolicyRecord>, u: string, g: string)
    requires u == "s:g" && g == "s:*"
    requires policies == [PolicyRecord("p", AsDocument([Granting(u, "a"), Granting(g, "b")]))]
    ensures var kept := Kept(GrantsOf(AllStatements(policies)), {u});
      && u in kept
      && !KeepsEveryResource(AllStatements(policies), SuggestedStatements(kept, ScopesOf(policies)), u)
  {
    var sts := [Granting(u, "a"), Granting(g, "b")];
    DocumentRoundTrip(sts);
    OnePolicy("p", AsDocument(sts));
    ExampleGrants(sts, u, g);
    NarrowEntryLosesResources(policies, u, g, "a", "b");
  }
}
