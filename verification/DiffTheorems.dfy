/** Conservation laws of the run diff, and its agreement with the counts a scan
    stores. */
module DiffTheorems {
  import opened Ordering
  import opened Findings
  import opened Workflow
  import opened WorkflowTheorems
  import opened RunDiff

  // ----- conservation -----

  function SumRisk(cards: seq<Card>): int {
    if cards == [] then 0 else cards[0].risk + SumRisk(cards[1..])
  }

  function SumDelta(cards: seq<Card>): int {
    if cards == [] then 0
    else (if cards[0].delta.Some? then cards[0].delta.value.RiskDelta() else 0) + SumDelta(cards[1..])
  }

  lemma {:induction false} CardsSum(cards: seq<Card>, keys: set<string>, rows: map<string, FindingRow>)
    requires keys <= rows.Keys && Lists(cards, keys) && AreFrom(cards, rows)
    ensures SumRisk(cards) == SumOver(rows, keys, RiskOf)
  {
    if cards != [] {
      var fp := cards[0].fingerprint;
      CardsSum(cards[1..], keys - {fp}, rows);
      SumPick(rows, keys, RiskOf, fp);
    }
  }

  lemma {:induction false} DeltasSum(cards: seq<Card>, keys: set<string>, older: map<string, FindingRow>, newer: map<string, FindingRow>)
    requires keys <= older.Keys && keys <= newer.Keys && Lists(cards, keys) && AreChanged(cards, older, newer)
    ensures SumDelta(cards) == SumOver(newer, keys, RiskOf) - SumOver(older, keys, RiskOf)
  {
    if cards != [] {
      var fp := cards[0].fingerprint;
      DeltasSum(cards[1..], keys - {fp}, older, newer);
      SumPick(newer, keys, RiskOf, fp);
      SumPick(older, keys, RiskOf, fp);
    }
  }

  lemma {:induction false} SameRisk(keys: set<string>, older: map<string, FindingRow>, newer: map<string, FindingRow>)
    requires keys <= older.Keys && keys <= newer.Keys
    requires forall fp :: fp in keys ==> older[fp].facts.risk == newer[fp].facts.risk
    ensures SumOver(older, keys, RiskOf) == SumOver(newer, keys, RiskOf)
  {
    if keys != {} {
      var fp :| fp in keys;
      SameRisk(keys - {fp}, older, newer);
      SumPick(newer, keys, RiskOf, fp);
      SumPick(older, keys, RiskOf, fp);
    }
  }

  lemma Overlap(a: set<string>, b: set<string>)
    ensures (a - b) + a * b == a && (a - b) !! a * b
  {
  }

  /** A side of the diff is its own cards, the changed and the unchanged. */
  lemma SideCounts(side: set<string>, other: set<string>, common: set<string>, changed: set<string>)
    requires common == side * other && changed <= common
    ensures |side| == |side - other| + |changed| + |common - changed|
  {
  }

  lemma SideSums(side: map<string, FindingRow>, other: set<string>, common: set<string>, changed: set<string>)
    requires common == side.Keys * other && changed <= common
    ensures SumOver(side, side.Keys, RiskOf)
         == SumOver(side, side.Keys - other, RiskOf) + SumOver(side, changed, RiskOf) + SumOver(side, common - changed, RiskOf)
  {
    Overlap(side.Keys, other);
    SumSplit(side, side.Keys - other, common, RiskOf);
    assert changed + (common - changed) == common;
    SumSplit(side, changed, common - changed, RiskOf);
  }

  lemma SumsExist(side: map<string, FindingRow>, other: set<string>, common: set<string>, changed: set<string>)
      returns (total: int, own: int, moved: int, rest: int)
    requires common == side.Keys * other && changed <= common
    ensures total == SumOver(side, side.Keys, RiskOf) && own == SumOver(side, side.Keys - other, RiskOf)
    ensures moved == SumOver(side, changed, RiskOf) && rest == SumOver(side, common - changed, RiskOf)
    ensures total == own + moved + rest
  {
    SideSums(side, other, common, changed);
    total, own := SumOver(side, side.Keys, RiskOf), SumOver(side, side.Keys - other, RiskOf);
    moved, rest := SumOver(side, changed, RiskOf), SumOver(side, common - changed, RiskOf);
  }

  /** Every fingerprint of either run is on the board or counted as unchanged. */
  lemma BoardConservesFindings(older: map<string, FindingRow>, newer: map<string, FindingRow>, board: Board)
    requires IsBoard(older, newer, board)
    ensures |board.added| + |board.changed| + board.unchangedCount == |newer|
    ensures |board.resolved| + |board.changed| + board.unchangedCount == |older|
  {
    var common, all := older.Keys * newer.Keys, ChangedKeys(older, newer);
    BoardCounts(older, newer, board);
    SideCounts(newer.Keys, older.Keys, common, all);
    SideCounts(older.Keys, newer.Keys, common, all);
  }

  lemma BoardCounts(older: map<string, FindingRow>, newer: map<string, FindingRow>, board: Board)
    requires IsBoard(older, newer, board)
    ensures |board.added| == |newer.Keys - older.Keys|
    ensures |board.resolved| == |older.Keys - newer.Keys|
    ensures |board.changed| == |ChangedKeys(older, newer)|
    ensures board.unchangedCount == |older.Keys * newer.Keys - ChangedKeys(older, newer)|
  {
    ListsCount(board.added, newer.Keys - older.Keys);
    ListsCount(board.resolved, older.Keys - newer.Keys);
    ListsCount(board.changed, ChangedKeys(older, newer));
  }

  /** The net risk is what the cards account for. */
  lemma BoardConservesRisk(older: map<string, FindingRow>, newer: map<string, FindingRow>, board: Board)
    requires IsBoard(older, newer, board)
    ensures board.NetRisk() == SumRisk(board.added) - SumRisk(board.resolved) + SumDelta(board.changed)
  {
    var common, all := older.Keys * newer.Keys, ChangedKeys(older, newer);
    var totalNew, ownNew, movedNew, restNew := SumsExist(newer, older.Keys, common, all);
    var totalOld, ownOld, movedOld, restOld := SumsExist(older, newer.Keys, common, all);
    CardsSum(board.added, newer.Keys - older.Keys, newer);
    CardsSum(board.resolved, older.Keys - newer.Keys, older);
    DeltasSum(board.changed, all, older, newer);
    UnchangedRisk(older, newer);
  }

  lemma UnchangedRisk(older: map<string, FindingRow>, newer: map<string, FindingRow>)
    ensures var same := older.Keys * newer.Keys - ChangedKeys(older, newer);
      SumOver(older, same, RiskOf) == SumOver(newer, same, RiskOf)
  {
    var same := older.Keys * newer.Keys - ChangedKeys(older, newer);
    forall fp | fp in same ensures older[fp].facts.risk == newer[fp].facts.risk {
      assert !Differ(older, newer, fp);
    }
    SameRisk(same, older, newer);
  }

  // ----- when a finding changed -----

  /** The two rows of a fingerprint differ in severity, risk or status, or `get`
      differs for some evidence key. */
  ghost predicate RowsDiffer(older: FindingRow, newer: FindingRow) {
    || older.facts.severity != newer.facts.severity || older.facts.risk != newer.facts.risk
    || older.status != newer.status
    || exists key :: Get(older.facts.evidence, key) != Get(newer.facts.evidence, key)
  }

  lemma EvidenceChangedExactly(before: Evidence, after: Evidence)
    ensures EvidenceChanges(before, after) != [] <==> exists key :: Get(before, key) != Get(after, key)
  {
    if EvidenceChanges(before, after) != [] {
      var c := EvidenceChanges(before, after)[0];
      assert c in EvidenceChanges(before, after);
      EvidenceReportedExactly(before, after, c.key);
    }
    if key :| Get(before, key) != Get(after, key) {
      EvidenceReportedExactly(before, after, key);
    }
  }

  lemma DifferExactly(older: map<string, FindingRow>, newer: map<string, FindingRow>, fp: string)
    requires fp in older && fp in newer
    ensures fp in ChangedKeys(older, newer) <==> RowsDiffer(older[fp], newer[fp])
  {
    EvidenceChangedExactly(older[fp].facts.evidence, newer[fp].facts.evidence);
  }

  /** The changes report each key whose value differs, with both values. */
  ghost predicate ReportsEvidence(changes: seq<EvidenceChange>, before: Evidence, after: Evidence) {
    && (forall c :: c in changes ==> c.before == Get(before, c.key) && c.after == Get(after, c.key))
    && (forall key :: (exists c :: c in changes && c.key == key) <==> Get(before, key) != Get(after, key))
  }

  lemma EvidenceIsReported(before: Evidence, after: Evidence)
    ensures ReportsEvidence(EvidenceChanges(before, after), before, after)
  {
    forall key ensures (exists c :: c in EvidenceChanges(before, after) && c.key == key) <==> Get(before, key) != Get(after, key) {
      EvidenceReportedExactly(before, after, key);
    }
  }

  /** A changed card says what it was and what it is, the rest of it from the
      newer row. */
  ghost predicate TellsChange(card: Card, older: FindingRow, newer: FindingRow) {
    && IsAbout(card, newer)
    && card.delta.Some?
    && card.delta.value.severityBefore == older.facts.severity && card.delta.value.severityAfter == newer.facts.severity
    && card.delta.value.riskBefore == older.facts.risk && card.delta.value.riskAfter == newer.facts.risk
    && card.delta.value.statusBefore == older.status && card.delta.value.statusAfter == newer.status
    && ReportsEvidence(card.delta.value.evidence, older.facts.evidence, newer.facts.evidence)
  }

  predicate IsAbout(card: Card, row: FindingRow) {
    && card.group == row.group && card.check == row.facts.check && card.title == row.facts.title
    && card.severity == row.facts.severity && card.category == row.facts.category
    && card.principal == row.facts.principal && card.risk == row.facts.risk
  }

  lemma {:induction false} ListedExactly(cards: seq<Card>, keys: set<string>, fp: string)
    requires Lists(cards, keys)
    ensures fp in keys <==> exists i :: 0 <= i < |cards| && cards[i].fingerprint == fp
  {
    if cards != [] {
      ListedExactly(cards[1..], keys - {cards[0].fingerprint}, fp);
      if i :| 0 <= i < |cards[1..]| && cards[1..][i].fingerprint == fp {
        assert cards[i + 1].fingerprint == fp;
      }
      if i :| 0 < i < |cards| && cards[i].fingerprint == fp {
        assert cards[1..][i - 1].fingerprint == fp;
      }
    }
  }

  /** A fingerprint of both runs has a changed card exactly when its two rows
      differ, and the card tells the change. */
  lemma ChangedExactly(older: map<string, FindingRow>, newer: map<string, FindingRow>, board: Board, fp: string)
    requires IsBoard(older, newer, board)
    ensures (exists i :: 0 <= i < |board.changed| && board.changed[i].fingerprint == fp)
       <==> fp in older && fp in newer && RowsDiffer(older[fp], newer[fp])
    ensures forall i :: 0 <= i < |board.changed| && board.changed[i].fingerprint == fp ==>
      fp in older && fp in newer && TellsChange(board.changed[i], older[fp], newer[fp])
  {
    ListedExactly(board.changed, ChangedKeys(older, newer), fp);
    if fp in older && fp in newer {
      DifferExactly(older, newer, fp);
      EvidenceIsReported(older[fp].facts.evidence, newer[fp].facts.evidence);
    }
  }

  /** A fingerprint of one run alone has a card on that run's side, about its
      row and without a delta. */
  lemma OneSidedExactly(older: map<string, FindingRow>, newer: map<string, FindingRow>, board: Board, fp: string)
    requires IsBoard(older, newer, board)
    ensures (exists i :: 0 <= i < |board.added| && board.added[i].fingerprint == fp) <==> fp in newer && fp !in older
    ensures (exists i :: 0 <= i < |board.resolved| && board.resolved[i].fingerprint == fp) <==> fp in older && fp !in newer
    ensures forall i :: 0 <= i < |board.added| && board.added[i].fingerprint == fp ==>
      fp in newer && IsAbout(board.added[i], newer[fp]) && board.added[i].delta.None?
    ensures forall i :: 0 <= i < |board.resolved| && board.resolved[i].fingerprint == fp ==>
      fp in older && IsAbout(board.resolved[i], older[fp]) && board.resolved[i].delta.None?
  {
    ListedExactly(board.added, newer.Keys - older.Keys, fp);
    ListedExactly(board.resolved, older.Keys - newer.Keys, fp);
  }

  ghost predicate AreRiskiestFirst(cards: seq<Card>) {
    forall i, j :: 0 <= i < j < |cards| ==>
      cards[i].risk >= cards[j].risk && (cards[i].risk == cards[j].risk ==> StrLeq(cards[i].title, cards[j].title))
  }

  /** Each side lists its riskiest cards first, and cards of one risk by title. */
  lemma SidesAreSorted(older: map<string, FindingRow>, newer: map<string, FindingRow>, board: Board)
    requires IsBoard(older, newer, board)
    ensures AreRiskiestFirst(board.added) && AreRiskiestFirst(board.changed) && AreRiskiestFirst(board.resolved)
  {
  }

  /** Nothing on the board exactly when the two runs have the same fingerprints
      with rows that do not differ. */
  lemma EmptyBoardExactly(older: map<string, FindingRow>, newer: map<string, FindingRow>, board: Board)
    requires IsBoard(older, newer, board)
    ensures board.added == [] && board.resolved == [] && board.changed == [] <==>
      older.Keys == newer.Keys && forall fp :: fp in older && fp in newer ==> !RowsDiffer(older[fp], newer[fp])
  {
    BoardCounts(older, newer, board);
    SameKeys(older.Keys, newer.Keys);
    NoneChanged(older, newer);
  }

  lemma SameKeys(a: set<string>, b: set<string>)
    ensures |a - b| == 0 && |b - a| == 0 <==> a == b
  {
  }

  lemma NoneChanged(older: map<string, FindingRow>, newer: map<string, FindingRow>)
    ensures |ChangedKeys(older, newer)| == 0 <==>
      forall fp :: fp in older && fp in newer ==> !RowsDiffer(older[fp], newer[fp])
  {
    forall fp | fp in older && fp in newer ensures fp in ChangedKeys(older, newer) <==> RowsDiffer(older[fp], newer[fp]) {
      DifferExactly(older, newer, fp);
    }
    if |ChangedKeys(older, newer)| != 0 {
      var fp :| fp in ChangedKeys(older, newer);
    }
  }

  // ----- the board is determined by the two runs -----

  function Drop(cards: seq<Card>, i: nat): seq<Card>
    requires i < |cards|
  {
    cards[..i] + cards[i + 1..]
  }

  lemma {:induction false} FindListed(cards: seq<Card>, keys: set<string>, fp: string) returns (i: nat)
    requires Lists(cards, keys) && fp in keys
    ensures i < |cards| && cards[i].fingerprint == fp && Lists(Drop(cards, i), keys - {fp})
  {
    var head := cards[0].fingerprint;
    if head == fp {
      i := 0;
      assert Drop(cards, 0) == cards[1..];
    } else {
      var j := FindListed(cards[1..], keys - {head}, fp);
      i := j + 1;
      assert Drop(cards, i) == [cards[0]] + Drop(cards[1..], j);
      assert Drop(cards, i)[1..] == Drop(cards[1..], j);
      assert keys - {head} - {fp} == keys - {fp} - {head};
    }
  }

  /** The fingerprint decides the card. */
  ghost predicate AgreeByFingerprint(a: seq<Card>, b: seq<Card>) {
    forall i, j :: 0 <= i < |a| && 0 <= j < |b| && a[i].fingerprint == b[j].fingerprint ==> a[i] == b[j]
  }

  lemma {:induction false} ListsAgree(a: seq<Card>, b: seq<Card>, keys: set<string>)
    requires Lists(a, keys) && Lists(b, keys) && AgreeByFingerprint(a, b)
    ensures multiset(a) == multiset(b)
  {
    if a == [] {
      assert b == [];
    } else {
      var j := FindListed(b, keys, a[0].fingerprint);
      var rest := Drop(b, j);
      forall x, y | 0 <= x < |a[1..]| && 0 <= y < |rest| && a[1..][x].fingerprint == rest[y].fingerprint
        ensures a[1..][x] == rest[y]
      {
        var k := if y < j then y else y + 1;
        assert rest[y] == b[k] && a[1..][x] == a[x + 1];
      }
      ListsAgree(a[1..], rest, keys - {a[0].fingerprint});
      assert a == [a[0]] + a[1..];
      assert b == b[..j] + [b[j]] + b[j + 1..];
    }
  }

  /** Two boards of the same two runs, whichever way round they were asked for,
      have the same cards, counts and risks; only ties may be ordered apart. */
  lemma BoardsAgree(older: map<string, FindingRow>, newer: map<string, FindingRow>, x: Board, y: Board)
    requires IsBoard(older, newer, x) && IsBoard(older, newer, y)
    ensures multiset(x.added) == multiset(y.added) && multiset(x.resolved) == multiset(y.resolved)
    ensures multiset(x.changed) == multiset(y.changed)
    ensures x.unchangedCount == y.unchangedCount && x.NetRisk() == y.NetRisk()
  {
    ListsAgree(x.added, y.added, newer.Keys - older.Keys);
    ListsAgree(x.resolved, y.resolved, older.Keys - newer.Keys);
    ListsAgree(x.changed, y.changed, ChangedKeys(older, newer));
  }

  // ----- rows the fingerprint-keyed map drops -----

  function KeyOf(groups: map<int, Group>, row: FindingRow): Option<string> {
    if row.group in groups then Some(groups[row.group].fingerprint) else None
  }

  predicate IsRowOf(groups: map<int, Group>, findings: seq<FindingRow>, run: int, i: int) {
    0 <= i < |findings| && findings[i].run == run && findings[i].group in groups
  }

  /** A later row of the run has the same fingerprint. */
  ghost predicate IsShadowed(groups: map<int, Group>, findings: seq<FindingRow>, run: int, i: int) {
    && IsRowOf(groups, findings, run, i)
    && exists j :: i < j && IsRowOf(groups, findings, run, j) && KeyOf(groups, findings[j]) == KeyOf(groups, findings[i])
  }

  /** The sum of a weight over every row of a run. */
  function SumRows(groups: map<int, Group>, findings: seq<FindingRow>, run: int, weight: FindingRow -> nat): nat {
    if findings == [] then 0
    else
      var n := |findings| - 1;
      SumRows(groups, findings[..n], run, weight) + if IsRowOf(groups, findings, run, n) then weight(findings[n]) else 0
  }

  lemma {:induction false} LastRowWins(groups: map<int, Group>, findings: seq<FindingRow>, run: int, fp: string)
    ensures fp in ByFingerprint(groups, findings, run) ==>
      exists i :: IsRowOf(groups, findings, run, i) && findings[i] == ByFingerprint(groups, findings, run)[fp]
        && KeyOf(groups, findings[i]) == Some(fp) && !IsShadowed(groups, findings, run, i)
    ensures fp !in ByFingerprint(groups, findings, run) ==>
      forall i :: IsRowOf(groups, findings, run, i) ==> KeyOf(groups, findings[i]) != Some(fp)
  {
    if findings != [] {
      var n := |findings| - 1;
      var init := findings[..n];
      LastRowWins(groups, init, run, fp);
      assert forall i :: IsRowOf(groups, findings, run, i) && i < n ==> IsRowOf(groups, init, run, i);
      if IsRowOf(groups, findings, run, n) && KeyOf(groups, findings[n]) == Some(fp) {
        assert !IsShadowed(groups, findings, run, n);
      } else if fp in ByFingerprint(groups, init, run) {
        var i :| IsRowOf(groups, init, run, i) && init[i] == ByFingerprint(groups, init, run)[fp]
                 && KeyOf(groups, init[i]) == Some(fp) && !IsShadowed(groups, init, run, i);
        assert IsRowOf(groups, findings, run, i) && findings[i] == init[i];
      }
    }
  }

  lemma {:induction false} SumAgrees(a: map<string, FindingRow>, b: map<string, FindingRow>, keys: set<string>, weight: FindingRow -> nat)
    requires keys <= a.Keys && keys <= b.Keys && forall k :: k in keys ==> a[k] == b[k]
    ensures SumOver(a, keys, weight) == SumOver(b, keys, weight)
  {
    if keys != {} {
      var k :| k in keys;
      SumPick(a, keys, weight, k);
      SumPick(b, keys, weight, k);
      SumAgrees(a, b, keys - {k}, weight);
    }
  }

  lemma ReplacedSum(rows: map<string, FindingRow>, fp: string, row: FindingRow, weight: FindingRow -> nat)
    ensures var after := rows[fp := row];
      SumOver(after, after.Keys, weight) + (if fp in rows then weight(rows[fp]) else 0)
      == SumOver(rows, rows.Keys, weight) + weight(row)
  {
    var after := rows[fp := row];
    SumPick(after, after.Keys, weight, fp);
    assert after.Keys - {fp} == rows.Keys - {fp};
    SumAgrees(rows, after, rows.Keys - {fp}, weight);
    if fp in rows {
      SumPick(rows, rows.Keys, weight, fp);
    } else {
      assert rows.Keys - {fp} == rows.Keys;
    }
  }

  /** What the board sums over differs from the rows by the shadowed ones. */
  lemma {:induction false} MapSumsExactlyWhen(groups: map<int, Group>, findings: seq<FindingRow>, run: int, weight: FindingRow -> nat)
    ensures var rows := ByFingerprint(groups, findings, run);
      && SumOver(rows, rows.Keys, weight) <= SumRows(groups, findings, run, weight)
      && (SumOver(rows, rows.Keys, weight) == SumRows(groups, findings, run, weight) <==>
            forall i :: IsShadowed(groups, findings, run, i) ==> weight(findings[i]) == 0)
  {
    if findings != [] {
      var n := |findings| - 1;
      var init := findings[..n];
      MapSumsExactlyWhen(groups, init, run, weight);
      assert forall i :: IsRowOf(groups, init, run, i) <==> IsRowOf(groups, findings, run, i) && i < n;
      forall i | IsShadowed(groups, init, run, i) ensures IsShadowed(groups, findings, run, i) {
        var j :| i < j && IsRowOf(groups, init, run, j) && KeyOf(groups, init[j]) == KeyOf(groups, init[i]);
        assert IsRowOf(groups, findings, run, j) && KeyOf(groups, findings[j]) == KeyOf(groups, findings[i]);
      }
      if IsRowOf(groups, findings, run, n) {
        AddRowSums(groups, findings, run, weight);
      } else {
        forall i | IsShadowed(groups, findings, run, i) ensures IsShadowed(groups, init, run, i) {
          var j :| i < j && IsRowOf(groups, findings, run, j) && KeyOf(groups, findings[j]) == KeyOf(groups, findings[i]);
          assert IsRowOf(groups, init, run, j) && KeyOf(groups, init[j]) == KeyOf(groups, init[i]);
        }
      }
    }
  }

  lemma AddRowSums(groups: map<int, Group>, findings: seq<FindingRow>, run: int, weight: FindingRow -> nat)
    requires findings != [] && IsRowOf(groups, findings, run, |findings| - 1)
    requires var init := findings[..|findings| - 1]; var rows := ByFingerprint(groups, init, run);
      && SumOver(rows, rows.Keys, weight) <= SumRows(groups, init, run, weight)
      && (SumOver(rows, rows.Keys, weight) == SumRows(groups, init, run, weight) <==>
            forall i :: IsShadowed(groups, init, run, i) ==> weight(init[i]) == 0)
    requires var init := findings[..|findings| - 1];
      forall i :: IsShadowed(groups, init, run, i) ==> IsShadowed(groups, findings, run, i)
    ensures var rows := ByFingerprint(groups, findings, run);
      && SumOver(rows, rows.Keys, weight) <= SumRows(groups, findings, run, weight)
      && (SumOver(rows, rows.Keys, weight) == SumRows(groups, findings, run, weight) <==>
            forall i :: IsShadowed(groups, findings, run, i) ==> weight(findings[i]) == 0)
  {
    var n := |findings| - 1;
    var init := findings[..n];
    var fp := groups[findings[n].group].fingerprint;
    var before, after := ByFingerprint(groups, init, run), ByFingerprint(groups, findings, run);
    assert after == before[fp := findings[n]];
    ReplacedSum(before, fp, findings[n], weight);
    LastRowWins(groups, init, run, fp);
    if fp in before {
      var k :| IsRowOf(groups, init, run, k) && init[k] == before[fp] && KeyOf(groups, init[k]) == Some(fp)
               && !IsShadowed(groups, init, run, k);
      assert IsRowOf(groups, findings, run, k) && KeyOf(groups, findings[n]) == KeyOf(groups, findings[k]);
      assert IsShadowed(groups, findings, run, k);
      forall i | IsShadowed(groups, findings, run, i) ensures i == k || IsShadowed(groups, init, run, i) {
        ShadowedBefore(groups, findings, run, i, k);
      }
    } else {
      forall i | IsShadowed(groups, findings, run, i) ensures IsShadowed(groups, init, run, i) {
        var j :| i < j && IsRowOf(groups, findings, run, j) && KeyOf(groups, findings[j]) == KeyOf(groups, findings[i]);
        assert IsRowOf(groups, init, run, i) && init[i] == findings[i];
        assert j < n;
        assert IsRowOf(groups, init, run, j) && init[j] == findings[j];
      }
    }
  }

  /** A row the new last row shadows was shadowed already, or was the last of
      its fingerprint. */
  lemma ShadowedBefore(groups: map<int, Group>, findings: seq<FindingRow>, run: int, i: int, k: int)
    requires findings != [] && IsShadowed(groups, findings, run, i)
    requires IsRowOf(groups, findings, run, |findings| - 1) && IsRowOf(groups, findings, run, k) && k < |findings| - 1
    requires KeyOf(groups, findings[k]) == KeyOf(groups, findings[|findings| - 1])
    requires !IsShadowed(groups, findings[..|findings| - 1], run, k)
    ensures i == k || IsShadowed(groups, findings[..|findings| - 1], run, i)
  {
  }

  // ----- the net risk of a board against all findings -----

  /** The weight lost to the map: of each row, at the moment a later row of its
      fingerprint overwrites it. */
  function Dropped(groups: map<int, Group>, findings: seq<FindingRow>, run: int, weight: FindingRow -> nat): nat {
    if findings == [] then 0
    else
      var n := |findings| - 1;
      var rows := ByFingerprint(groups, findings[..n], run);
      Dropped(groups, findings[..n], run, weight)
      + if IsRowOf(groups, findings, run, n) && groups[findings[n].group].fingerprint in rows
        then weight(rows[groups[findings[n].group].fingerprint]) else 0
  }

  /** Every row is in the map or was dropped from it. */
  lemma {:induction false} RowsAreKeptOrDropped(groups: map<int, Group>, findings: seq<FindingRow>, run: int, weight: FindingRow -> nat)
    ensures var rows := ByFingerprint(groups, findings, run);
      SumRows(groups, findings, run, weight) == SumOver(rows, rows.Keys, weight) + Dropped(groups, findings, run, weight)
  {
    if findings != [] {
      var n := |findings| - 1;
      RowsAreKeptOrDropped(groups, findings[..n], run, weight);
      if IsRowOf(groups, findings, run, n) {
        ReplacedSum(ByFingerprint(groups, findings[..n], run), groups[findings[n].group].fingerprint, findings[n], weight);
      }
    }
  }

  /** The risk of all findings of a run. */
  function RunRisk(db: Db, run: int): nat {
    SumRows(db.groups, db.findings, run, RiskOf)
  }

  function DroppedRisk(db: Db, run: int): nat {
    Dropped(db.groups, db.findings, run, RiskOf)
  }

  /** The net risk of a board is the movement over every finding of both runs,
      as the documentation says, exactly when the two runs drop the same risk. */
  lemma NetRiskSpansEveryFindingExactlyWhen(db: Db, a: int, b: int, board: Board)
    requires IsBoard(RowsOf(db, a), RowsOf(db, b), board)
    ensures board.NetRisk() == RunRisk(db, b) - RunRisk(db, a) <==> DroppedRisk(db, a) == DroppedRisk(db, b)
  {
    RowsAreKeptOrDropped(db.groups, db.findings, a, RiskOf);
    RowsAreKeptOrDropped(db.groups, db.findings, b, RiskOf);
  }

  function One(row: FindingRow): nat {
    1
  }

  lemma {:induction false} SumOnes(rows: map<string, FindingRow>, keys: set<string>)
    requires keys <= rows.Keys
    ensures SumOver(rows, keys, One) == |keys|
  {
    if keys != {} {
      var k :| k in keys;
      SumPick(rows, keys, One, k);
      SumOnes(rows, keys - {k});
    }
  }

  /** A run drops risk exactly when some finding with a risk shares its
      fingerprint with a later one, and drops a finding exactly when any two
      share one. */
  lemma NoRowDroppedExactlyWhen(db: Db, run: int)
    ensures SumOver(RowsOf(db, run), RowsOf(db, run).Keys, RiskOf) == RunRisk(db, run) <==> DroppedRisk(db, run) == 0
    ensures DroppedRisk(db, run) == 0 <==>
      forall i :: IsShadowed(db.groups, db.findings, run, i) ==> db.findings[i].facts.risk == 0
    ensures |RowsOf(db, run)| == SumRows(db.groups, db.findings, run, One) <==>
      forall i :: !IsShadowed(db.groups, db.findings, run, i)
  {
    MapSumsExactlyWhen(db.groups, db.findings, run, RiskOf);
    RowsAreKeptOrDropped(db.groups, db.findings, run, RiskOf);
    MapSumsExactlyWhen(db.groups, db.findings, run, One);
    SumOnes(RowsOf(db, run), RowsOf(db, run).Keys);
  }
}
