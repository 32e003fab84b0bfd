/** `app/services/diff_service.py`: what changed between two runs. */
module RunDiff {
  import opened Ordering
  import opened Posture
  import opened Findings
  import opened Workflow

  datatype EvidenceChange = EvidenceChange(key: string, before: Json, after: Json)

  datatype Delta = Delta(
    severityBefore: Severity, severityAfter: Severity,
    riskBefore: nat, riskAfter: nat,
    statusBefore: Status, statusAfter: Status,
    evidence: seq<EvidenceChange>)
  {
    predicate HasChanges() {
      severityBefore != severityAfter || riskBefore != riskAfter || statusBefore != statusAfter || evidence != []
    }

    function RiskDelta(): int {
      riskAfter - riskBefore
    }
  }

  datatype Card = Card(fingerprint: string, group: int, check: string, title: string, severity: Severity,
                       category: string, principal: Option<string>, risk: nat, delta: Option<Delta>)

  datatype Board = Board(runA: int, runB: int, added: seq<Card>, changed: seq<Card>, resolved: seq<Card>,
                         unchangedCount: nat, riskBefore: int, riskAfter: int)
  {
    function NetRisk(): int {
      riskAfter - riskBefore
    }
  }

  datatype DiffResult = Missing(run: int) | DifferentAccounts | SameRun | Compared(board: Board)

  // ----- evidence -----

  function DifferingKeys(before: Evidence, after: Evidence): set<string> {
    set k | k in before.Keys + after.Keys && Get(before, k) != Get(after, k)
  }

  function ChangesFor(keys: seq<string>, before: Evidence, after: Evidence): seq<EvidenceChange> {
    seq(|keys|, i requires 0 <= i < |keys| => EvidenceChange(keys[i], Get(before, keys[i]), Get(after, keys[i])))
  }

  /** `_evidence_changes`. */
  function EvidenceChanges(before: Evidence, after: Evidence): seq<EvidenceChange> {
    ChangesFor(SortStrings(DifferingKeys(before, after)), before, after)
  }

  /** A key is reported once exactly when `get` differs; a key that appears or
      vanishes is reported exactly when its value is not null, although the
      documentation promises it for every key. */
  lemma EvidenceReportedExactly(before: Evidence, after: Evidence, key: string)
    ensures (exists c :: c in EvidenceChanges(before, after) && c.key == key) <==> Get(before, key) != Get(after, key)
    ensures key in after && key !in before ==>
      ((exists c :: c in EvidenceChanges(before, after) && c.key == key) <==> after[key] != JsonNull)
    ensures forall i, j :: 0 <= i < j < |EvidenceChanges(before, after)| ==>
      EvidenceChanges(before, after)[i].key != EvidenceChanges(before, after)[j].key
  {
    var keys := SortStrings(DifferingKeys(before, after));
    SortStringsMembers(DifferingKeys(before, after));
    SortStringsDistinct(DifferingKeys(before, after));
    var changes := EvidenceChanges(before, after);
    if Get(before, key) != Get(after, key) {
      assert key in keys;
      var i :| 0 <= i < |keys| && keys[i] == key;
      assert changes[i] in changes && changes[i].key == key;
    }
    forall c | c in changes ensures c.key in DifferingKeys(before, after) {
      var i :| 0 <= i < |changes| && changes[i] == c;
      assert keys[i] in keys;
    }
  }

  /** Swapping the sides swaps each change. */
  lemma EvidenceSwaps(before: Evidence, after: Evidence)
    ensures |EvidenceChanges(after, before)| == |EvidenceChanges(before, after)|
    ensures forall i :: 0 <= i < |EvidenceChanges(before, after)| ==>
      EvidenceChanges(after, before)[i]
      == EvidenceChange(EvidenceChanges(before, after)[i].key, EvidenceChanges(before, after)[i].after, EvidenceChanges(before, after)[i].before)
  {
    assert DifferingKeys(before, after) == DifferingKeys(after, before);
  }

  // ----- the rows of a run by fingerprint -----

  /** `_findings_by_fingerprint`: the last row of a fingerprint wins. */
  function ByFingerprint(groups: map<int, Group>, findings: seq<FindingRow>, run: int): map<string, FindingRow> {
    if findings == [] then map[]
    else
      var n := |findings| - 1;
      var rows := ByFingerprint(groups, findings[..n], run);
      if findings[n].run == run && findings[n].group in groups then
        rows[groups[findings[n].group].fingerprint := findings[n]]
      else rows
  }

  function RowsOf(db: Db, run: int): map<string, FindingRow> {
    ByFingerprint(db.groups, db.findings, run)
  }

  // ----- cards -----

  function DeltaOf(older: FindingRow, newer: FindingRow): Delta {
    Delta(older.facts.severity, newer.facts.severity, older.facts.risk, newer.facts.risk,
          older.status, newer.status, EvidenceChanges(older.facts.evidence, newer.facts.evidence))
  }

  function CardOf(row: FindingRow, fp: string, delta: Option<Delta>): Card {
    Card(fp, row.group, row.facts.check, row.facts.title, row.facts.severity,
         row.facts.category, row.facts.principal, row.facts.risk, delta)
  }

  /** `cards` has one card for each of `keys`. */
  ghost predicate Lists(cards: seq<Card>, keys: set<string>) {
    if cards == [] then keys == {}
    else cards[0].fingerprint in keys && Lists(cards[1..], keys - {cards[0].fingerprint})
  }

  ghost predicate AreFrom(cards: seq<Card>, rows: map<string, FindingRow>) {
    forall i :: 0 <= i < |cards| ==>
      cards[i].fingerprint in rows && cards[i] == CardOf(rows[cards[i].fingerprint], cards[i].fingerprint, None)
  }

  ghost predicate AreChanged(cards: seq<Card>, older: map<string, FindingRow>, newer: map<string, FindingRow>) {
    forall i :: 0 <= i < |cards| ==>
      && cards[i].fingerprint in older && cards[i].fingerprint in newer
      && cards[i] == CardOf(newer[cards[i].fingerprint], cards[i].fingerprint,
                            Some(DeltaOf(older[cards[i].fingerprint], newer[cards[i].fingerprint])))
  }

  predicate RiskierFirst(a: Card, b: Card) {
    a.risk > b.risk || (a.risk == b.risk && StrLeq(a.title, b.title))
  }

  predicate IsByRisk(cards: seq<Card>) {
    forall i, j :: 0 <= i < j < |cards| ==> RiskierFirst(cards[i], cards[j])
  }

  function Insert(card: Card, cards: seq<Card>): seq<Card> {
    if cards == [] || RiskierFirst(card, cards[0]) then [card] + cards
    else [cards[0]] + Insert(card, cards[1..])
  }

  /** `_by_risk`: a stable sort. */
  function ByRisk(cards: seq<Card>): seq<Card> {
    if cards == [] then [] else Insert(cards[0], ByRisk(cards[1..]))
  }

  lemma PrependListed(card: Card, cards: seq<Card>, keys: set<string>)
    requires Lists(cards, keys) && card.fingerprint !in keys
    ensures Lists([card] + cards, keys + {card.fingerprint})
  {
  }

  lemma {:induction false} InsertLists(card: Card, cards: seq<Card>, keys: set<string>)
    requires Lists(cards, keys) && card.fingerprint !in keys
    ensures Lists(Insert(card, cards), keys + {card.fingerprint})
  {
    if cards == [] || RiskierFirst(card, cards[0]) {
      PrependListed(card, cards, keys);
    } else {
      var head := cards[0];
      var rest := keys - {head.fingerprint};
      InsertLists(card, cards[1..], rest);
      PrependListed(head, Insert(card, cards[1..]), rest + {card.fingerprint});
      assert rest + {card.fingerprint} + {head.fingerprint} == keys + {card.fingerprint};
    }
  }

  lemma {:induction false} InsertPermutes(card: Card, cards: seq<Card>)
    ensures multiset(Insert(card, cards)) == multiset(cards) + multiset{card}
  {
    if cards != [] && !RiskierFirst(card, cards[0]) {
      InsertPermutes(card, cards[1..]);
      assert cards == [cards[0]] + cards[1..];
    }
  }

  /** Every card comes after `first`. */
  predicate AllAfter(first: Card, cards: seq<Card>) {
    forall i :: 0 <= i < |cards| ==> RiskierFirst(first, cards[i])
  }

  lemma {:induction false} InsertAfter(first: Card, card: Card, cards: seq<Card>)
    requires AllAfter(first, cards) && RiskierFirst(first, card)
    ensures AllAfter(first, Insert(card, cards))
  {
    if cards != [] && !RiskierFirst(card, cards[0]) {
      InsertAfter(first, card, cards[1..]);
    }
  }

  lemma {:induction false} InsertSorts(card: Card, cards: seq<Card>)
    requires IsByRisk(cards)
    ensures IsByRisk(Insert(card, cards))
  {
    StrLeqIsTotalOrder();
    var r := Insert(card, cards);
    if cards == [] || RiskierFirst(card, cards[0]) {
      forall i, j | 0 <= i < j < |r| ensures RiskierFirst(r[i], r[j]) {
        assert r[j] == cards[j - 1];
        if i == 0 && j > 1 {
          assert RiskierFirst(cards[0], cards[j - 1]);
        }
      }
    } else {
      InsertSorts(card, cards[1..]);
      InsertAfter(cards[0], card, cards[1..]);
      forall i, j | 0 <= i < j < |r| ensures RiskierFirst(r[i], r[j]) {
        assert r[j] == Insert(card, cards[1..])[j - 1];
      }
    }
  }

  lemma {:induction false} ByRiskSorts(cards: seq<Card>, keys: set<string>)
    requires Lists(cards, keys)
    ensures IsByRisk(ByRisk(cards)) && Lists(ByRisk(cards), keys) && multiset(ByRisk(cards)) == multiset(cards)
  {
    if cards != [] {
      var fp := cards[0].fingerprint;
      ByRiskSorts(cards[1..], keys - {fp});
      InsertLists(cards[0], ByRisk(cards[1..]), keys - {fp});
      InsertPermutes(cards[0], ByRisk(cards[1..]));
      InsertSorts(cards[0], ByRisk(cards[1..]));
      assert keys - {fp} + {fp} == keys;
      assert cards == [cards[0]] + cards[1..];
    }
  }

  lemma ElementsKeep(cards: seq<Card>, sorted: seq<Card>, i: nat) returns (j: nat)
    requires multiset(cards) == multiset(sorted) && i < |sorted|
    ensures j < |cards| && cards[j] == sorted[i]
  {
    assert sorted[i] in multiset(sorted) && sorted[i] in multiset(cards);
    j :| 0 <= j < |cards| && cards[j] == sorted[i];
  }

  lemma SortedAreFrom(cards: seq<Card>, sorted: seq<Card>, rows: map<string, FindingRow>)
    requires AreFrom(cards, rows) && multiset(cards) == multiset(sorted)
    ensures AreFrom(sorted, rows)
  {
    forall i | 0 <= i < |sorted|
      ensures sorted[i].fingerprint in rows && sorted[i] == CardOf(rows[sorted[i].fingerprint], sorted[i].fingerprint, None)
    {
      var j := ElementsKeep(cards, sorted, i);
      assert cards[j] == sorted[i];
    }
  }

  lemma SortedAreChanged(cards: seq<Card>, sorted: seq<Card>, older: map<string, FindingRow>, newer: map<string, FindingRow>)
    requires AreChanged(cards, older, newer) && multiset(cards) == multiset(sorted)
    ensures AreChanged(sorted, older, newer)
  {
    forall i | 0 <= i < |sorted|
      ensures sorted[i].fingerprint in older && sorted[i].fingerprint in newer
      ensures sorted[i] == CardOf(newer[sorted[i].fingerprint], sorted[i].fingerprint,
                                  Some(DeltaOf(older[sorted[i].fingerprint], newer[sorted[i].fingerprint])))
    {
      var j := ElementsKeep(cards, sorted, i);
      assert cards[j] == sorted[i];
    }
  }

  // ----- sums over the rows of a run -----

  function RiskOf(row: FindingRow): nat {
    row.facts.risk
  }

  /** The sum of a weight over some of the rows. */
  ghost function SumOver(rows: map<string, FindingRow>, keys: set<string>, weight: FindingRow -> nat): nat
    requires keys <= rows.Keys
  {
    if keys == {} then 0
    else
      var k :| k in keys;
      weight(rows[k]) + SumOver(rows, keys - {k}, weight)
  }

  lemma {:induction false} SumPick(rows: map<string, FindingRow>, keys: set<string>, weight: FindingRow -> nat, k: string)
    requires keys <= rows.Keys && k in keys
    ensures SumOver(rows, keys, weight) == weight(rows[k]) + SumOver(rows, keys - {k}, weight)
    decreases keys
  {
    var first :| first in keys && SumOver(rows, keys, weight) == weight(rows[first]) + SumOver(rows, keys - {first}, weight);
    if first != k {
      SumPick(rows, keys - {first}, weight, k);
      SumPick(rows, keys - {k}, weight, first);
      assert keys - {first} - {k} == keys - {k} - {first};
    }
  }

  lemma {:induction false} SumSplit(rows: map<string, FindingRow>, a: set<string>, b: set<string>, weight: FindingRow -> nat)
    requires a <= rows.Keys && b <= rows.Keys && a !! b
    ensures SumOver(rows, a + b, weight) == SumOver(rows, a, weight) + SumOver(rows, b, weight)
  {
    if a == {} {
      assert a + b == b;
    } else {
      var k :| k in a;
      SumPick(rows, a, weight, k);
      SumPick(rows, a + b, weight, k);
      assert a + b - {k} == (a - {k}) + b;
      SumSplit(rows, a - {k}, b, weight);
    }
  }

  // ----- the diff -----

  predicate Differ(older: map<string, FindingRow>, newer: map<string, FindingRow>, fp: string)
    requires fp in older && fp in newer
  {
    DeltaOf(older[fp], newer[fp]).HasChanges()
  }

  /** Keys present in both whose rows differ. */
  function ChangedKeys(older: map<string, FindingRow>, newer: map<string, FindingRow>): set<string> {
    set fp | fp in older && fp in newer && Differ(older, newer, fp)
  }

  /** The board that compares `older` with `newer`. The order of cards of equal
      risk and title is not determined. */
  ghost predicate IsBoard(older: map<string, FindingRow>, newer: map<string, FindingRow>, board: Board) {
    && Lists(board.added, newer.Keys - older.Keys) && AreFrom(board.added, newer) && IsByRisk(board.added)
    && Lists(board.resolved, older.Keys - newer.Keys) && AreFrom(board.resolved, older) && IsByRisk(board.resolved)
    && Lists(board.changed, ChangedKeys(older, newer)) && AreChanged(board.changed, older, newer) && IsByRisk(board.changed)
    && board.unchangedCount == |older.Keys * newer.Keys - ChangedKeys(older, newer)|
    && board.riskBefore == SumOver(older, older.Keys, RiskOf)
    && board.riskAfter == SumOver(newer, newer.Keys, RiskOf)
  }

  lemma SortedBoard(older: map<string, FindingRow>, newer: map<string, FindingRow>,
      added: seq<Card>, changed: seq<Card>, resolved: seq<Card>)
    requires Lists(added, newer.Keys - older.Keys) && AreFrom(added, newer)
    requires Lists(changed, ChangedKeys(older, newer)) && AreChanged(changed, older, newer)
    requires Lists(resolved, older.Keys - newer.Keys) && AreFrom(resolved, older)
    ensures var a := ByRisk(added); Lists(a, newer.Keys - older.Keys) && AreFrom(a, newer) && IsByRisk(a)
    ensures var c := ByRisk(changed); Lists(c, ChangedKeys(older, newer)) && AreChanged(c, older, newer) && IsByRisk(c)
    ensures var r := ByRisk(resolved); Lists(r, older.Keys - newer.Keys) && AreFrom(r, older) && IsByRisk(r)
  {
    ByRiskSorts(added, newer.Keys - older.Keys);
    SortedAreFrom(added, ByRisk(added), newer);
    ByRiskSorts(changed, ChangedKeys(older, newer));
    SortedAreChanged(changed, ByRisk(changed), older, newer);
    ByRiskSorts(resolved, older.Keys - newer.Keys);
    SortedAreFrom(resolved, ByRisk(resolved), older);
  }

  method CardsFrom(rows: map<string, FindingRow>, keys: set<string>) returns (cards: seq<Card>)
    requires keys <= rows.Keys
    ensures Lists(cards, keys) && AreFrom(cards, rows)
  {
    var left := keys;
    cards := [];
    while left != {}
      invariant left <= keys && Lists(cards, keys - left) && AreFrom(cards, rows)
      decreases left
    {
      var fp :| fp in left;
      assert ([CardOf(rows[fp], fp, None)] + cards)[1..] == cards;
      assert keys - (left - {fp}) - {fp} == keys - left;
      cards := [CardOf(rows[fp], fp, None)] + cards;
      left := left - {fp};
    }
    assert keys - left == keys;
  }

  lemma {:induction false} ListsCount(cards: seq<Card>, keys: set<string>)
    requires Lists(cards, keys)
    ensures |cards| == |keys|
  {
    if cards != [] {
      ListsCount(cards[1..], keys - {cards[0].fingerprint});
    }
  }

  lemma CountRest(all: set<string>, some: set<string>)
    requires some <= all
    ensures |all - some| == |all| - |some|
  {
  }

  lemma PrependChanged(card: Card, cards: seq<Card>, older: map<string, FindingRow>, newer: map<string, FindingRow>)
    requires AreChanged(cards, older, newer) && AreChanged([card], older, newer)
    ensures AreChanged([card] + cards, older, newer)
  {
  }

  /** `order` lists `keys` once each: the order Python iterates a set in. */
  ghost predicate Enumerates(order: seq<string>, keys: set<string>) {
    if order == [] then keys == {}
    else order[|order| - 1] in keys && Enumerates(order[..|order| - 1], keys - {order[|order| - 1]})
  }

  method Enumerate(keys: set<string>) returns (order: seq<string>)
    ensures Enumerates(order, keys)
    decreases keys
  {
    if keys == {} {
      return [];
    }
    var k :| k in keys;
    var rest := Enumerate(keys - {k});
    order := rest + [k];
    assert order[..|order| - 1] == rest;
  }

  datatype Comparison = Comparison(changed: seq<Card>, same: nat)

  function CompareOne(c: Comparison, older: map<string, FindingRow>, newer: map<string, FindingRow>, fp: string): Comparison
    requires fp in older && fp in newer
  {
    if Differ(older, newer, fp) then
      Comparison([CardOf(newer[fp], fp, Some(DeltaOf(older[fp], newer[fp])))] + c.changed, c.same)
    else Comparison(c.changed, c.same + 1)
  }

  function CompareAll(older: map<string, FindingRow>, newer: map<string, FindingRow>, order: seq<string>): Comparison
    requires forall fp :: fp in order ==> fp in older && fp in newer
  {
    if order == [] then Comparison([], 0)
    else
      var n := |order| - 1;
      assert order[n] in order && forall fp :: fp in order[..n] ==> fp in order;
      CompareOne(CompareAll(older, newer, order[..n]), older, newer, order[n])
  }

  ghost predicate IsComparison(c: Comparison, older: map<string, FindingRow>, newer: map<string, FindingRow>, keys: set<string>) {
    && Lists(c.changed, keys * ChangedKeys(older, newer)) && AreChanged(c.changed, older, newer)
    && c.same + |c.changed| == |keys|
  }

  lemma CompareOneExactly(c: Comparison, older: map<string, FindingRow>, newer: map<string, FindingRow>,
      fp: string, keys: set<string>)
    requires IsComparison(c, older, newer, keys) && fp in older && fp in newer && fp !in keys
    ensures IsComparison(CompareOne(c, older, newer, fp), older, newer, keys + {fp})
  {
    var all := ChangedKeys(older, newer);
    OneMore(keys, all, fp);
    if Differ(older, newer, fp) {
      var card := CardOf(newer[fp], fp, Some(DeltaOf(older[fp], newer[fp])));
      PrependChanged(card, c.changed, older, newer);
      PrependListed(card, c.changed, keys * all);
    }
  }

  lemma OneMore(keys: set<string>, all: set<string>, fp: string)
    requires fp !in keys
    ensures (keys + {fp}) * all == if fp in all then keys * all + {fp} else keys * all
    ensures |keys + {fp}| == |keys| + 1
  {
  }

  lemma {:induction false} CompareAllExactly(older: map<string, FindingRow>, newer: map<string, FindingRow>,
      order: seq<string>, keys: set<string>)
    requires Enumerates(order, keys)
    requires forall fp :: fp in order ==> fp in older && fp in newer
    ensures IsComparison(CompareAll(older, newer, order), older, newer, keys)
  {
    if order == [] {
      assert {} * ChangedKeys(older, newer) == {};
    } else {
      var n := |order| - 1;
      var fp := order[n];
      assert fp in order && forall x :: x in order[..n] ==> x in order;
      CompareAllExactly(older, newer, order[..n], keys - {fp});
      CompareOneExactly(CompareAll(older, newer, order[..n]), older, newer, fp, keys - {fp});
      assert keys - {fp} + {fp} == keys;
    }
  }

  lemma {:induction false} EnumeratedIn(order: seq<string>, keys: set<string>)
    requires Enumerates(order, keys)
    ensures forall fp :: fp in order ==> fp in keys
  {
    if order != [] {
      var n := |order| - 1;
      EnumeratedIn(order[..n], keys - {order[n]});
      assert forall fp :: fp in order ==> fp in order[..n] || fp == order[n];
    }
  }

  /** The loop over the common fingerprints. */
  method CompareCommon(older: map<string, FindingRow>, newer: map<string, FindingRow>)
      returns (changed: seq<Card>, same: nat)
    ensures Lists(changed, ChangedKeys(older, newer)) && AreChanged(changed, older, newer)
    ensures same == |older.Keys * newer.Keys - ChangedKeys(older, newer)|
  {
    var order := Enumerate(older.Keys * newer.Keys);
    EnumeratedIn(order, older.Keys * newer.Keys);
    changed, same := [], 0;
    for i := 0 to |order|
      invariant forall fp :: fp in order[..i] ==> fp in older && fp in newer
      invariant Comparison(changed, same) == CompareAll(older, newer, order[..i])
    {
      assert order[..i + 1][..i] == order[..i];
      var fp := order[i];
      assert fp in order;
      var delta := DeltaOf(older[fp], newer[fp]);
      if delta.HasChanges() {
        changed := [CardOf(newer[fp], fp, Some(delta))] + changed;
      } else {
        same := same + 1;
      }
    }
    assert order[..|order|] == order;
    ComparedCommon(older, newer, order);
  }

  lemma ComparedCommon(older: map<string, FindingRow>, newer: map<string, FindingRow>, order: seq<string>)
    requires Enumerates(order, older.Keys * newer.Keys)
    requires forall fp :: fp in order ==> fp in older && fp in newer
    ensures var c := CompareAll(older, newer, order);
      && Lists(c.changed, ChangedKeys(older, newer)) && AreChanged(c.changed, older, newer)
      && c.same == |older.Keys * newer.Keys - ChangedKeys(older, newer)|
  {
    var common, all := older.Keys * newer.Keys, ChangedKeys(older, newer);
    CompareAllExactly(older, newer, order, common);
    assert common * all == all;
    ListsCount(CompareAll(older, newer, order).changed, all);
    CountRest(common, all);
  }

  method TotalRisk(rows: map<string, FindingRow>) returns (total: int)
    ensures total == SumOver(rows, rows.Keys, RiskOf)
  {
    var left := rows.Keys;
    total := 0;
    while left != {}
      invariant left <= rows.Keys
      invariant total + SumOver(rows, left, RiskOf) == SumOver(rows, rows.Keys, RiskOf)
      decreases left
    {
      var fp :| fp in left;
      SumPick(rows, left, RiskOf, fp);
      total := total + rows[fp].facts.risk;
      left := left - {fp};
    }
  }

  /** `diff`: the board always compares the smaller run id with the larger, in
      whichever order the two are passed. */
  method Diff(db: Db, a: int, b: int) returns (r: DiffResult)
    ensures a !in db.runs ==> r == Missing(a)
    ensures a in db.runs && b !in db.runs ==> r == Missing(b)
    ensures a in db.runs && b in db.runs && db.runs[a].account != db.runs[b].account ==> r == DifferentAccounts
    ensures a in db.runs && b in db.runs && a == b ==> r == SameRun
    ensures a in db.runs && b in db.runs && db.runs[a].account == db.runs[b].account && a != b ==>
      && r.Compared? && r.board.runA < r.board.runB && {r.board.runA, r.board.runB} == {a, b}
      && IsBoard(RowsOf(db, r.board.runA), RowsOf(db, r.board.runB), r.board)
  {
    if a !in db.runs {
      return Missing(a);
    }
    if b !in db.runs {
      return Missing(b);
    }
    if db.runs[a].account != db.runs[b].account {
      return DifferentAccounts;
    }
    if a == b {
      return SameRun;
    }
    var runA, runB := a, b;
    if runA > runB {
      runA, runB := runB, runA;
    }
    var older, newer := RowsOf(db, runA), RowsOf(db, runB);
    var added := CardsFrom(newer, newer.Keys - older.Keys);
    var resolved := CardsFrom(older, older.Keys - newer.Keys);
    var changed, same := CompareCommon(older, newer);
    var riskBefore := TotalRisk(older);
    var riskAfter := TotalRisk(newer);
    SortedBoard(older, newer, added, changed, resolved);
    r := Compared(Board(runA, runB, ByRisk(added), ByRisk(changed), ByRisk(resolved), same, riskBefore, riskAfter));
  }
}
