/** `app/analysis/least_privilege.py`, and the activity index of
    `app/analysis/engine.py` it is fed from. */
module LeastPrivilege {
  import opened Ordering
  import opened Text
  import opened Policy
  import opened Records

  const MIN_WINDOW_DAYS := 14
  const MIN_PRINCIPAL_EVENTS := 3

  // ----- from log events to used actions -----

  const NON_ACTION_EVENTS: set<string> := {"ConsoleLogin", "CheckMfa", "ExitRole", "RenewRole"}
  const NON_ACTION_SERVICES: set<string> := {"signin", "console"}

  datatype LogEvent = LogEvent(
    seconds: Option<int>,
    principal: Option<string>,
    source: Option<string>,
    name: Option<string>,
    success: bool)

  /** `to_iam_action`: whatever it returns is qualified by a colon. */
  function ToIamAction(source: Option<string>, name: Option<string>): (r: Option<string>)
    ensures r.Some? ==> ':' in r.value
  {
    if name.None? || name.value == "" || name.value in NON_ACTION_EVENTS then None
    else if ':' in name.value then name
    else if source.None? || source.value == "" then None
    else
      var service := Lower(Strip(Before(source.value, '.')));
      if service == "" || service in NON_ACTION_SERVICES then None
      else
        var action := service + [':'] + name.value;
        assert action[|service|] == ':';
        Some(action)
  }

  /** The service an event source names: its first label, cleaned. */
  function SourceService(source: Option<string>): string {
    if source.None? then "" else Lower(Strip(Before(source.value, '.')))
  }

  lemma EmptyHasNoService()
    ensures SourceService(Some("")) == ""
  {
    assert Before("", '.') == "" && Strip("") == "" && |Lower("")| == 0;
  }

  /** The sign-in events. */
  predicate IsSignIn(name: string) {
    name == "ConsoleLogin" || name == "CheckMfa" || name == "ExitRole" || name == "RenewRole"
  }

  lemma NonActionsExactly(name: string)
    ensures name in NON_ACTION_EVENTS <==> IsSignIn(name)
    ensures name in NON_ACTION_SERVICES <==> name == "signin" || name == "console"
  {
  }

  lemma MappedByNames(source: Option<string>, name: Option<string>)
    ensures ToIamAction(source, name).Some? <==>
      && name.Some? && name.value != "" && name.value !in NON_ACTION_EVENTS
      && (':' in name.value || (SourceService(source) != "" && SourceService(source) !in NON_ACTION_SERVICES))
  {
    EmptyHasNoService();
  }

  /** An event is mapped exactly when it is named, no sign-in event, and either
      qualified already or from a source that names an action service. A name
      that is not qualified gets that service, and so falls under its wildcard. */
  lemma MappedExactly(source: Option<string>, name: Option<string>)
    ensures var r, service := ToIamAction(source, name), SourceService(source);
      && (r.Some? <==>
            && name.Some? && name.value != "" && !IsSignIn(name.value)
            && (':' in name.value || (service != "" && service != "signin" && service != "console")))
      && (r.Some? && ':' in name.value ==> r == name)
      && (r.Some? && ':' !in name.value ==> r.value == service + ":" + name.value)
      && (r.Some? && ':' !in name.value && ':' !in service ==>
            Service(r.value) == service && After(r.value, ':') == name.value && Covers(service + ":*", r.value))
  {
    EmptyHasNoService();
    MappedByNames(source, name);
    var r, service := ToIamAction(source, name), SourceService(source);
    NonActionsExactly(service);
    if name.Some? {
      NonActionsExactly(name.value);
    }
    if r.Some? && ':' !in name.value && ':' !in service {
      assert r.value == service + [':'] + name.value;
      BeforeConcat(service, ':', name.value);
    }
  }

  datatype ActivityIndex = ActivityIndex(
    used: map<string, set<string>>,
    counts: map<string, nat>,
    windowDays: nat)

  function UsedBy(index: ActivityIndex, uid: string): set<string> {
    if uid in index.used then index.used[uid] else {}
  }

  function EventsFor(index: ActivityIndex, uid: string): nat {
    if uid in index.counts then index.counts[uid] else 0
  }

  predicate IsBy(e: LogEvent, uid: string) {
    e.principal == Some(uid) && uid != ""
  }

  /** The actions `uid` is confirmed to have exercised. */
  function Exercised(events: seq<LogEvent>, uid: string): set<string> {
    set e | e in events && IsBy(e, uid) && e.success && ToIamAction(e.source, e.name).Some?
      :: ToIamAction(e.source, e.name).value
  }

  function Observed(events: seq<LogEvent>, uid: string): nat {
    if events == [] then 0
    else Observed(events[..|events| - 1], uid) + if IsBy(events[|events| - 1], uid) then 1 else 0
  }

  function TimesOf(events: seq<LogEvent>): seq<int> {
    if events == [] then []
    else
      var last := events[|events| - 1];
      TimesOf(events[..|events| - 1]) + if last.seconds.Some? then [last.seconds.value] else []
  }

  /** Whole days between the earliest and the latest event, at least one as soon
      as two events are timed. */
  ghost predicate IsWindow(times: seq<int>, days: nat) {
    if |times| < 2 then days == 0
    else exists lo, hi ::
      && lo in times && hi in times && (forall t :: t in times ==> lo <= t <= hi)
      && days == if (hi - lo) / 86400 < 1 then 1 else (hi - lo) / 86400
  }

  lemma ExercisedStep(events: seq<LogEvent>, i: nat, uid: string)
    requires i < |events|
    ensures Exercised(events[..i + 1], uid) == Exercised(events[..i], uid) + ExercisedBy(events[i], uid)
  {
  }

  lemma PrefixStep(events: seq<LogEvent>, i: nat)
    requires i < |events|
    ensures forall uid :: Observed(events[..i + 1], uid) ==
              Observed(events[..i], uid) + if IsBy(events[i], uid) then 1 else 0
    ensures TimesOf(events[..i + 1]) ==
            TimesOf(events[..i]) + if events[i].seconds.Some? then [events[i].seconds.value] else []
  {
    assert events[..i + 1][..i] == events[..i];
  }

  /** `build_activity_index`, one pass over the events. */
  method BuildActivityIndex(events: seq<LogEvent>) returns (index: ActivityIndex)
    ensures forall uid :: UsedBy(index, uid) == Exercised(events, uid)
    ensures forall uid :: EventsFor(index, uid) == Observed(events, uid)
    ensures IsWindow(TimesOf(events), index.windowDays)
  {
    index := ActivityIndex(map[], map[], 0);
    var times: seq<int> := [];
    for i := 0 to |events|
      invariant forall uid :: UsedBy(index, uid) == Exercised(events[..i], uid)
      invariant forall uid :: EventsFor(index, uid) == Observed(events[..i], uid)
      invariant times == TimesOf(events[..i])
    {
      var e := events[i];
      PrefixStep(events, i);
      if e.seconds.Some? {
        times := times + [e.seconds.value];
      }
      ghost var before := index;
      index := WithEvent(index, e);
      forall uid ensures UsedBy(index, uid) == Exercised(events[..i + 1], uid) {
        ExercisedStep(events, i, uid);
      }
    }
    assert events[..|events|] == events;
    var window := Window(times);
    index := index.(windowDays := window);
  }

  function ExercisedBy(e: LogEvent, uid: string): set<string> {
    var action := ToIamAction(e.source, e.name);
    if IsBy(e, uid) && e.success && action.Some? then {action.value} else {}
  }

  /** What the loop body records for one event. */
  function WithEvent(index: ActivityIndex, e: LogEvent): (r: ActivityIndex)
    ensures forall uid :: EventsFor(r, uid) == EventsFor(index, uid) + if IsBy(e, uid) then 1 else 0
    ensures forall uid :: UsedBy(r, uid) == UsedBy(index, uid) + ExercisedBy(e, uid)
  {
    if e.principal.None? || e.principal.value == "" then index
    else
      var uid := e.principal.value;
      var seen := index.(counts := index.counts[uid := EventsFor(index, uid) + 1]);
      var action := ToIamAction(e.source, e.name);
      if e.success && action.Some? then
        seen.(used := seen.used[uid := UsedBy(index, uid) + {action.value}])
      else seen
  }

  method Window(times: seq<int>) returns (days: nat)
    ensures IsWindow(times, days)
  {
    if |times| < 2 {
      return 0;
    }
    var lo, hi := times[0], times[0];
    for i := 1 to |times|
      invariant lo in times && hi in times && forall j :: 0 <= j < i ==> lo <= times[j] <= hi
    {
      if times[i] < lo { lo := times[i]; }
      if times[i] > hi { hi := times[i]; }
    }
    days := if (hi - lo) / 86400 < 1 then 1 else (hi - lo) / 86400;
    assert forall t :: t in times ==> lo <= t <= hi;
  }

  // ----- what the statements grant, and on what -----

  function GrantedIn(st: Statement): seq<string> {
    if Actions(st) != [] then Actions(st) else if NotActions(st) != [] then ["*"] else []
  }

  function ScopeOf(st: Statement): (r: set<string>)
    ensures r != {}
  {
    var listed := set r | r in Resources(st) :: r;
    if listed != {} then listed else {"*"}
  }

  /** The resources a granted action entry is granted on, over all statements. */
  function ScopeIn(sts: seq<Statement>, action: string): set<string> {
    set st, r | st in sts && IsAllow(st) && action in GrantedIn(st) && r in ScopeOf(st) :: r
  }

  function GrantedEntries(sts: seq<Statement>): set<string> {
    set st, a | st in sts && IsAllow(st) && a in GrantedIn(st) :: a
  }

  ghost predicate IsScopeMap(sts: seq<Statement>, scopes: map<string, set<string>>) {
    && scopes.Keys == GrantedEntries(sts)
    && forall a :: a in scopes ==> scopes[a] == ScopeIn(sts, a)
  }

  /** The scope map of a principal's policies. */
  ghost function ScopesOf(policies: seq<PolicyRecord>): map<string, set<string>> {
    var sts := AllStatements(policies);
    map a | a in GrantedEntries(sts) :: ScopeIn(sts, a)
  }

  lemma ScopeNonempty(sts: seq<Statement>, action: string)
    requires action in GrantedEntries(sts)
    ensures ScopeIn(sts, action) != {}
  {
    var st :| st in sts && IsAllow(st) && action in GrantedIn(st);
    var r :| r in ScopeOf(st);
    assert r in ScopeIn(sts, action);
  }

  function ScopeAt(scopes: map<string, set<string>>, action: string): set<string> {
    if action in scopes then scopes[action] else {}
  }

  method AddScope(scopes: map<string, set<string>>, actions: seq<string>, resources: set<string>)
    returns (out: map<string, set<string>>)
    ensures forall a :: a in out <==> a in scopes || a in actions
    ensures forall a :: ScopeAt(out, a) == ScopeAt(scopes, a) + if a in actions then resources else {}
  {
    out := scopes;
    for i := 0 to |actions|
      invariant forall a :: a in out <==> a in scopes || a in actions[..i]
      invariant forall a :: ScopeAt(out, a) == ScopeAt(scopes, a) + if a in actions[..i] then resources else {}
    {
      assert actions[..i + 1] == actions[..i] + [actions[i]];
      out := out[actions[i] := ScopeAt(out, actions[i]) + resources];
    }
    assert actions[..|actions|] == actions;
  }

  lemma EntriesStep(sts: seq<Statement>, st: Statement, a: string)
    ensures a in GrantedEntries(sts + [st]) <==>
            a in GrantedEntries(sts) || (IsAllow(st) && a in GrantedIn(st))
  {
  }

  lemma ScopeStep(sts: seq<Statement>, st: Statement, a: string)
    ensures ScopeIn(sts + [st], a) ==
            ScopeIn(sts, a) + if IsAllow(st) && a in GrantedIn(st) then ScopeOf(st) else {}
  {
  }

  lemma ScopeMapAt(sts: seq<Statement>, scopes: map<string, set<string>>, a: string)
    requires IsScopeMap(sts, scopes)
    ensures ScopeAt(scopes, a) == ScopeIn(sts, a)
  {
  }

  method AddStatement(scopes: map<string, set<string>>, ghost sts: seq<Statement>, st: Statement)
    returns (out: map<string, set<string>>)
    requires IsScopeMap(sts, scopes)
    ensures IsScopeMap(sts + [st], out)
  {
    out := scopes;
    if IsAllow(st) {
      out := AddScope(scopes, GrantedIn(st), ScopeOf(st));
    }
    forall a ensures a in out <==> a in GrantedEntries(sts + [st]) {
      EntriesStep(sts, st, a);
    }
    forall a | a in out ensures out[a] == ScopeIn(sts + [st], a) {
      ScopeStep(sts, st, a);
      ScopeMapAt(sts, scopes, a);
      assert out[a] == ScopeAt(out, a);
    }
  }

  method AddStatements(scopes: map<string, set<string>>, ghost done: seq<Statement>, sts: seq<Statement>)
    returns (out: map<string, set<string>>)
    requires IsScopeMap(done, scopes)
    ensures IsScopeMap(done + sts, out)
  {
    out := scopes;
    ghost var now := done;
    for j := 0 to |sts|
      invariant now == done + sts[..j]
      invariant IsScopeMap(now, out)
    {
      out := AddStatement(out, now, sts[j]);
      now := now + [sts[j]];
    }
    assert sts[..|sts|] == sts;
  }

  /** `_action_resources`. */
  method ActionResources(policies: seq<PolicyRecord>) returns (scopes: map<string, set<string>>)
    ensures IsScopeMap(AllStatements(policies), scopes)
  {
    scopes := map[];
    ghost var done: seq<Statement> := [];
    for i := 0 to |policies|
      invariant done == AllStatements(policies[..i])
      invariant IsScopeMap(done, scopes)
    {
      FlatMapStep(DocumentStatements, policies, i);
      scopes := AddStatements(scopes, done, Statements(policies[i].document));
      done := done + DocumentStatements(policies[i]);
    }
    assert policies[..|policies|] == policies;
  }

  predicate Unsupported(st: Statement) {
    !IsAllow(st) || st.hasCondition || NotActions(st) != [] || st.notResource != Missing
  }

  ghost predicate SupportedAll(sts: seq<Statement>) {
    forall st :: st in sts ==> !Unsupported(st)
  }

  method AnyUnsupported(sts: seq<Statement>) returns (r: bool)
    ensures r <==> !SupportedAll(sts)
  {
    for j := 0 to |sts|
      invariant forall k :: 0 <= k < j ==> !Unsupported(sts[k])
    {
      if Unsupported(sts[j]) {
        return true;
      }
    }
    r := false;
  }

  /** `_has_unsupported_forms`. */
  method HasUnsupportedForms(policies: seq<PolicyRecord>) returns (r: bool)
    ensures r <==> !SupportedAll(AllStatements(policies))
  {
    for i := 0 to |policies|
      invariant SupportedAll(AllStatements(policies[..i]))
    {
      FlatMapStep(DocumentStatements, policies, i);
      var found := AnyUnsupported(Statements(policies[i].document));
      if found {
        var st :| st in Statements(policies[i].document) && Unsupported(st);
        InAllStatements(policies, st);
        return true;
      }
    }
    assert policies[..|policies|] == policies;
    r := false;
  }

  /** The resources of every granted entry that covers `action`. */
  function CoveringScope(scopes: map<string, set<string>>, action: string): set<string> {
    set g, r | g in scopes && Covers(g, action) && r in scopes[g] :: r
  }

  /** `_resources_for` as a set: an exact entry, else the covering wildcards. */
  function SuggestedScope(scopes: map<string, set<string>>, action: string): set<string> {
    if action in scopes then scopes[action]
    else if CoveringScope(scopes, action) != {} then CoveringScope(scopes, action)
    else {"*"}
  }

  method ResourcesFor(action: string, scopes: map<string, set<string>>) returns (r: seq<string>)
    ensures r == SortStrings(SuggestedScope(scopes, action))
  {
    if action in scopes {
      return SortStrings(scopes[action]);
    }
    var covering := {};
    var rest := scopes.Keys;
    while rest != {}
      invariant rest <= scopes.Keys
      invariant covering == set g, r | g in scopes.Keys - rest && Covers(g, action) && r in scopes[g] :: r
    {
      var g :| g in rest;
      if Covers(g, action) {
        covering := covering + scopes[g];
      }
      rest := rest - {g};
    }
    assert covering == CoveringScope(scopes, action);
    r := SortStrings(if covering != {} then covering else {"*"});
    assert {"*"} != {};
  }

  // ----- the suggested document -----

  function ScopeKey(scopes: map<string, set<string>>, action: string): seq<string> {
    SortStrings(SuggestedScope(scopes, action))
  }

  function KeyOf(scopes: map<string, set<string>>): string -> seq<string> {
    action => ScopeKey(scopes, action)
  }

  /** The members of `actions`, in order, whose key is `key`. */
  function Sharing(actions: seq<string>, keyOf: string -> seq<string>, key: seq<string>): seq<string> {
    if actions == [] then []
    else
      var init := Sharing(actions[..|actions| - 1], keyOf, key);
      var last := actions[|actions| - 1];
      if keyOf(last) == key then init + [last] else init
  }

  function SuggestedStatement(key: seq<string>, actions: seq<string>): Statement {
    Statement(Some("Allow"), Many(actions), Missing,
              if |key| == 1 then One(key[0]) else Many(key), Missing, false, NotADict)
  }

  function StatementFor(order: seq<string>, keyOf: string -> seq<string>, key: seq<string>): Statement {
    SuggestedStatement(key, Sharing(order, keyOf, key))
  }

  function StatementsFor(order: seq<string>, keyOf: string -> seq<string>, keys: seq<seq<string>>): seq<Statement> {
    if keys == [] then []
    else StatementsFor(order, keyOf, keys[..|keys| - 1]) + [StatementFor(order, keyOf, keys[|keys| - 1])]
  }

  lemma {:induction false} StatementsForAt(order: seq<string>, keyOf: string -> seq<string>, keys: seq<seq<string>>)
    ensures |StatementsFor(order, keyOf, keys)| == |keys|
    ensures forall i :: 0 <= i < |keys| ==>
              StatementsFor(order, keyOf, keys)[i] == StatementFor(order, keyOf, keys[i])
  {
    if keys != [] {
      StatementsForAt(order, keyOf, keys[..|keys| - 1]);
    }
  }

  function Elements(xs: seq<string>): set<string> {
    set x | x in xs
  }

  function KeysIn(used: set<string>, keyOf: string -> seq<string>): set<seq<string>> {
    set a | a in used :: keyOf(a)
  }

  /** One statement a distinct key, in the order of the keys. */
  function Grouped(used: set<string>, keyOf: string -> seq<string>): seq<Statement> {
    StatementsFor(SortStrings(used), keyOf, SortTuples(KeysIn(used, keyOf)))
  }

  /** The statements of `_build_policy`: one a distinct resource set. */
  function SuggestedStatements(used: set<string>, scopes: map<string, set<string>>): seq<Statement> {
    Grouped(used, KeyOf(scopes))
  }

  function Items(sts: seq<Statement>): seq<Option<Statement>> {
    if sts == [] then [] else Items(sts[..|sts| - 1]) + [Some(sts[|sts| - 1])]
  }

  function AsDocument(sts: seq<Statement>): Document {
    Listed(Items(sts))
  }

  function SuggestedDocument(used: set<string>, scopes: map<string, set<string>>): Document {
    AsDocument(SuggestedStatements(used, scopes))
  }

  lemma KeysStep(actions: seq<string>, i: nat, keyOf: string -> seq<string>)
    requires i < |actions|
    ensures KeysIn(Elements(actions[..i + 1]), keyOf) == KeysIn(Elements(actions[..i]), keyOf) + {keyOf(actions[i])}
  {
  }

  lemma SharingAppend(actions: seq<string>, a: string, keyOf: string -> seq<string>, key: seq<string>)
    ensures Sharing(actions + [a], keyOf, key) == if keyOf(a) == key then Sharing(actions, keyOf, key) + [a] else Sharing(actions, keyOf, key)
  {
  }

  lemma GroupStep(done: seq<string>, a: string, keyOf: string -> seq<string>, groups: map<seq<string>, seq<string>>)
    requires groups.Keys == KeysIn(Elements(done), keyOf)
    requires forall key :: key in groups ==> groups[key] == Sharing(done, keyOf, key)
    ensures var key := keyOf(a);
      var grown := groups[key := (if key in groups then groups[key] else []) + [a]];
      && grown.Keys == KeysIn(Elements(done + [a]), keyOf)
      && forall k :: k in grown ==> grown[k] == Sharing(done + [a], keyOf, k)
  {
    var key := keyOf(a);
    var all := done + [a];
    assert all[..|done| + 1] == all && all[..|done|] == done;
    KeysStep(all, |done|, keyOf);
    if key !in groups {
      SharingNone(done, keyOf, key);
    }
    var grown := groups[key := (if key in groups then groups[key] else []) + [a]];
    forall k | k in grown ensures grown[k] == Sharing(all, keyOf, k) {
      SharingAppend(done, a, keyOf, k);
    }
  }

  /** The grouping loop of `_build_policy`. */
  method GroupByScope(order: seq<string>, scopes: map<string, set<string>>) returns (groups: map<seq<string>, seq<string>>)
    ensures groups.Keys == KeysIn(Elements(order), KeyOf(scopes))
    ensures forall key :: key in groups ==> groups[key] == Sharing(order, KeyOf(scopes), key)
  {
    groups := map[];
    ghost var keyOf := KeyOf(scopes);
    for i := 0 to |order|
      invariant groups.Keys == KeysIn(Elements(order[..i]), keyOf)
      invariant forall key :: key in groups ==> groups[key] == Sharing(order[..i], keyOf, key)
    {
      var key := ResourcesFor(order[i], scopes);
      GroupStep(order[..i], order[i], keyOf, groups);
      assert order[..i] + [order[i]] == order[..i + 1];
      groups := groups[key := (if key in groups then groups[key] else []) + [order[i]]];
    }
    assert order[..|order|] == order;
  }

  method EmitStatements(ghost order: seq<string>, ghost keyOf: string -> seq<string>,
                        keys: seq<seq<string>>, groups: map<seq<string>, seq<string>>)
    returns (sts: seq<Statement>)
    requires forall key :: key in keys ==> key in groups && groups[key] == Sharing(order, keyOf, key)
    ensures sts == StatementsFor(order, keyOf, keys)
  {
    sts := [];
    for i := 0 to |keys|
      invariant sts == StatementsFor(order, keyOf, keys[..i])
    {
      assert keys[i] in keys;
      assert keys[..i + 1][..i] == keys[..i];
      sts := sts + [SuggestedStatement(keys[i], groups[keys[i]])];
    }
    assert keys[..|keys|] == keys;
  }

  /** `_build_policy`. */
  method BuildPolicy(used: set<string>, policies: seq<PolicyRecord>) returns (document: Document)
    ensures document == SuggestedDocument(used, ScopesOf(policies))
  {
    var scopes := ActionResources(policies);
    assert scopes == ScopesOf(policies);
    var order := SortStrings(used);
    var groups := GroupByScope(order, scopes);
    SortStringsMembers(used);
    assert Elements(order) == used;
    var keys := SortTuples(groups.Keys);
    SortTuplesMembers(groups.Keys);
    var sts := EmitStatements(order, KeyOf(scopes), keys, groups);
    document := AsDocument(sts);
  }

  lemma {:induction false} SharingNone(actions: seq<string>, keyOf: string -> seq<string>, key: seq<string>)
    requires key !in KeysIn(Elements(actions), keyOf)
    ensures Sharing(actions, keyOf, key) == []
  {
    if actions != [] {
      var n := |actions| - 1;
      KeysStep(actions, n, keyOf);
      assert actions[..n + 1] == actions;
      SharingNone(actions[..n], keyOf, key);
    }
  }

  // ----- `recommend` -----

  datatype Reason = ShortWindow | FewEvents | UnsupportedForms

  datatype Recommendation = Recommendation(
    grantedSensitive: seq<string>,
    unusedSensitive: seq<string>,
    usedActions: seq<string>,
    insufficient: Option<Reason>,
    suggested: Option<Document>)

  /** Whether a granted entry was exercised by any used action under it. */
  predicate IsExercised(granted: string, used: set<string>) {
    exists u :: u in used && Covers(granted, u)
  }

  /** The used actions the current grants cover. */
  function Kept(granted: set<string>, used: set<string>): set<string> {
    set u | u in used && GrantsAction(granted, u)
  }

  ghost function Refusal(policies: seq<PolicyRecord>, events: nat, windowDays: nat): Option<Reason> {
    if windowDays < MIN_WINDOW_DAYS then Some(ShortWindow)
    else if events < MIN_PRINCIPAL_EVENTS then Some(FewEvents)
    else if !SupportedAll(AllStatements(policies)) then Some(UnsupportedForms)
    else None
  }

  method Recommend(granted: set<string>, policies: seq<PolicyRecord>, used: set<string>, events: nat, windowDays: nat)
    returns (r: Recommendation)
    ensures r.grantedSensitive == SortStrings(SensitiveAmong(granted) - {"*"})
    ensures r.unusedSensitive ==
            SortStrings(set g | g in SensitiveAmong(granted) - {"*"} && !IsExercised(g, used))
    ensures r.usedActions == SortStrings(Kept(granted, used))
    ensures r.insufficient == Refusal(policies, events, windowDays)
    ensures r.suggested ==
            if r.insufficient.Some? then None
            else Some(SuggestedDocument(Kept(granted, used), ScopesOf(policies)))
  {
    var grantedSensitive := SensitiveAmong(granted) - {"*"};
    var unused := set g | g in grantedSensitive && !IsExercised(g, used);
    var kept := Kept(granted, used);
    var insufficient := None;
    if windowDays < MIN_WINDOW_DAYS {
      insufficient := Some(ShortWindow);
    } else if events < MIN_PRINCIPAL_EVENTS {
      insufficient := Some(FewEvents);
    } else {
      var unsupported := HasUnsupportedForms(policies);
      if unsupported {
        insufficient := Some(UnsupportedForms);
      }
    }
    var suggested := None;
    if insufficient.None? {
      var document := BuildPolicy(kept, policies);
      suggested := Some(document);
    }
    r := Recommendation(SortStrings(grantedSensitive), SortStrings(unused), SortStrings(kept), insufficient, suggested);
  }
}
