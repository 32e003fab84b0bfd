/** What a list of statements permits when every form of statement is given its
    meaning, against the reading the tool uses. */
module PolicyMeaning {
  import opened Ordering
  import opened Text
  import opened Policy
  import opened Records
  import opened LeastPrivilege
  import opened LeastPrivilegeTheorems

  // ----- requests -----

  predicate IsDeny(st: Statement) {
    st.effect.Some? && Lower(st.effect.value) == "deny"
  }

  ghost predicate CoversSome(entries: seq<string>, action: string) {
    exists g :: g in entries && Covers(g, action)
  }

  predicate ListsResource(entries: seq<string>, resource: string) {
    resource in entries || "*" in entries
  }

  /** NotAction excludes the actions it covers. */
  ghost predicate MatchesAction(st: Statement, action: string) {
    var named, excluded := AsList(st.action), AsList(st.notAction);
    && (named != [] || excluded != [])
    && (named != [] ==> CoversSome(named, action))
    && !CoversSome(excluded, action)
  }

  /** NotResource excludes the resources it lists; a statement without Resource
      reads as one on every resource. */
  predicate MatchesResource(st: Statement, resource: string) {
    var named, excluded := AsList(st.resource), AsList(st.notResource);
    && (named != [] ==> ListsResource(named, resource))
    && !ListsResource(excluded, resource)
  }

  /** `holds` says of each position whether the condition there holds. */
  ghost predicate Applies(sts: seq<Statement>, holds: nat -> bool, i: nat, action: string, resource: string)
    requires i < |sts|
  {
    (sts[i].hasCondition ==> holds(i)) && MatchesAction(sts[i], action) && MatchesResource(sts[i], resource)
  }

  /** Some Allow statement applies and no Deny statement does. */
  ghost predicate Permits(sts: seq<Statement>, holds: nat -> bool, action: string, resource: string) {
    && (exists i :: 0 <= i < |sts| && IsAllow(sts[i]) && Applies(sts, holds, i, action, resource))
    && !(exists i :: 0 <= i < |sts| && IsDeny(sts[i]) && Applies(sts, holds, i, action, resource))
  }

  // ----- the tool's reading -----

  lemma AllowIsNoDeny(st: Statement)
    requires IsAllow(st)
    ensures !IsDeny(st)
  {
    assert "allow"[0] == 'a' && "deny"[0] == 'd';
  }

  lemma AppliesIsAllowed(sts: seq<Statement>, holds: nat -> bool, i: nat, action: string, resource: string)
    requires i < |sts| && IsAllow(sts[i]) && Applies(sts, holds, i, action, resource)
    ensures Allows(sts, action, resource)
  {
    var st := sts[i];
    assert st in sts;
    if Actions(st) != [] {
      var g :| g in Actions(st) && Covers(g, action);
      assert g in GrantedIn(st);
    } else {
      assert "*" in GrantedIn(st) && Covers("*", action);
    }
    assert ScopeAllows(ScopeOf(st), resource);
  }

  /** The reading never misses: whatever is permitted, under any valuation of the
      conditions, is allowed and granted. */
  lemma PermittedIsAllowed(sts: seq<Statement>, holds: nat -> bool, action: string, resource: string)
    requires Permits(sts, holds, action, resource)
    ensures Allows(sts, action, resource) && GrantsAction(GrantsOf(sts), action)
  {
    var i :| 0 <= i < |sts| && IsAllow(sts[i]) && Applies(sts, holds, i, action, resource);
    AppliesIsAllowed(sts, holds, i, action, resource);
    AppliesIsGranted(sts, sts[i], action);
  }

  lemma AppliesIsGranted(sts: seq<Statement>, st: Statement, action: string)
    requires st in sts && IsAllow(st) && MatchesAction(st, action)
    ensures GrantsAction(GrantsOf(sts), action)
  {
    GrantsActionIsSomeCover(GrantsOf(sts), action);
    if NotActions(st) != [] {
      assert "*" in StatementGrants(st) && Covers("*", action);
    } else {
      var g :| g in Actions(st) && Covers(g, action);
      assert g in StatementGrants(st);
    }
  }

  /** On the supported forms the reading is exact, whatever the conditions. */
  lemma SupportedReadExactly(sts: seq<Statement>, holds: nat -> bool, action: string, resource: string)
    requires SupportedAll(sts)
    ensures Permits(sts, holds, action, resource) <==> Allows(sts, action, resource)
  {
    if Permits(sts, holds, action, resource) {
      PermittedIsAllowed(sts, holds, action, resource);
    }
    if st, g :| st in sts && IsAllow(st) && g in GrantedIn(st) && Covers(g, action) && ScopeAllows(ScopeOf(st), resource) {
      var i :| 0 <= i < |sts| && sts[i] == st;
      AllowedApplies(sts, holds, i, g, action, resource);
      forall k | 0 <= k < |sts| ensures !IsDeny(sts[k]) {
        assert sts[k] in sts;
        AllowIsNoDeny(sts[k]);
      }
    }
  }

  lemma AllowedApplies(sts: seq<Statement>, holds: nat -> bool, i: nat, g: string, action: string, resource: string)
    requires i < |sts| && !Unsupported(sts[i]) && g in GrantedIn(sts[i]) && Covers(g, action)
    requires ScopeAllows(ScopeOf(sts[i]), resource)
    ensures Applies(sts, holds, i, action, resource)
  {
    var st := sts[i];
    assert AsList(st.notAction) == [] && AsList(st.notResource) == [];
    assert g in AsList(st.action) && CoversSome(AsList(st.action), action);
    assert forall k :: !CoversSome([], k);
    var named := AsList(st.resource);
    if named != [] {
      var first := named[0];
      var listed := set r | r in Resources(st) :: r;
      assert Resources(st) == named && first in Resources(st);
      assert first in listed && ScopeOf(st) == listed;
    }
  }

  /** Whatever a returned suggestion permits, under any valuation of its
      conditions, the policies permit under every valuation of theirs. */
  lemma SuggestionPermitsNoMore(policies: seq<PolicyRecord>, used: set<string>, events: nat, windowDays: nat,
                                holds: nat -> bool, original: nat -> bool, action: string, resource: string)
    requires Refusal(policies, events, windowDays) == None && "*" !in used
    requires var kept := Kept(GrantsOf(AllStatements(policies)), used);
      Permits(Statements(SuggestedDocument(kept, ScopesOf(policies))), holds, action, resource)
    ensures Permits(AllStatements(policies), original, action, resource)
  {
    var kept := Kept(GrantsOf(AllStatements(policies)), used);
    PermittedIsAllowed(Statements(SuggestedDocument(kept, ScopesOf(policies))), holds, action, resource);
    SuggestedNeverBroadens(policies, used, action, resource);
    SupportedReadExactly(AllStatements(policies), original, action, resource);
  }

  // ----- what is refused -----

  /** The five letters of `allow`, in any case. */
  predicate SpellsAllow(s: string) {
    && |s| == 5 && (s[0] == 'a' || s[0] == 'A') && (s[1] == 'l' || s[1] == 'L') && (s[2] == 'l' || s[2] == 'L')
    && (s[3] == 'o' || s[3] == 'O') && (s[4] == 'w' || s[4] == 'W')
  }

  lemma SpellsExactly(s: string)
    ensures Lower(s) == "allow" <==> SpellsAllow(s)
  {
    var low, word := Lower(s), "allow";
    assert word[0] == 'a' && word[1] == 'l' && word[2] == 'l' && word[3] == 'o' && word[4] == 'w';
    if |s| == 5 {
      assert low == word <==>
        low[0] == word[0] && low[1] == word[1] && low[2] == word[2] && low[3] == word[3] && low[4] == word[4];
    }
  }

  /** A statement without an effect allows. */
  lemma AllowExactly(st: Statement)
    ensures IsAllow(st) <==> st.effect.None? || SpellsAllow(st.effect.value)
  {
    SpellsExactly("Allow");
    if st.effect.Some? {
      SpellsExactly(st.effect.value);
    }
  }

  /** No suggestion is made on less than two weeks of logs, on fewer than three
      events, or when a statement does not allow, has a condition, or excludes
      actions or resources. */
  lemma RefusedExactly(policies: seq<PolicyRecord>, events: nat, windowDays: nat)
    ensures Refusal(policies, events, windowDays) == Some(ShortWindow) <==> windowDays < 14
    ensures Refusal(policies, events, windowDays) == Some(FewEvents) <==> windowDays >= 14 && events < 3
    ensures Refusal(policies, events, windowDays) == Some(UnsupportedForms) <==>
      && windowDays >= 14 && events >= 3
      && exists st :: st in AllStatements(policies)
           && (!IsAllow(st) || st.hasCondition || AsList(st.notAction) != [] || st.notResource != Missing)
  {
    if st :| st in AllStatements(policies) && (!IsAllow(st) || st.hasCondition || AsList(st.notAction) != [] || st.notResource != Missing) {
      assert Unsupported(st);
    }
  }
}
