/** What a scan reports about one finding, and the fingerprint that identifies
    it across runs (`app/domain/fingerprint.py`). */
module Findings {
  import opened Ordering
  import opened Text
  import opened Posture

  /** An evidence value: only equality, absence and truthiness matter here. */
  datatype Json = JsonNull | Json(text: string, truthy: bool)

  type Evidence = map<string, Json>

  /** `evidence.get(key)`. */
  function Get(evidence: Evidence, key: string): Json {
    if key in evidence then evidence[key] else JsonNull
  }

  datatype Facts = Facts(
    check: string,
    principal: Option<string>,
    resource: Option<string>,
    policy: Option<string>,
    title: string,
    category: string,
    severity: Severity,
    risk: nat,
    evidence: Evidence)

  function OrEmpty(text: Option<string>): string {
    if text.Some? then text.value else ""
  }

  /** The parts a fingerprint is made of. */
  function Parts(f: Facts): seq<string> {
    [f.check, OrEmpty(f.principal), OrEmpty(f.resource), OrEmpty(f.policy)]
  }

  /** The text that is hashed; the hash is taken to be injective on it. */
  function Fingerprint(f: Facts): string {
    Join(Parts(f), '|')
  }

  // ----- which findings share a fingerprint -----

  function Bars(s: string): nat {
    if s == "" then 0 else (if s[0] == '|' then 1 else 0) + Bars(s[1..])
  }

  lemma {:induction false} BarsConcat(a: string, b: string)
    ensures Bars(a + b) == Bars(a) + Bars(b)
  {
    if a == "" {
      assert a + b == b;
    } else {
      assert (a + b)[1..] == a[1..] + b;
      BarsConcat(a[1..], b);
    }
  }

  lemma {:induction false} NoBars(s: string)
    ensures Bars(s) == 0 <==> '|' !in s
  {
    if s != "" {
      NoBars(s[1..]);
      assert s == [s[0]] + s[1..];
    }
  }

  predicate IsBarFree(parts: seq<string>) {
    forall i :: 0 <= i < |parts| ==> '|' !in parts[i]
  }

  lemma JoinFour(a: string, b: string, c: string, d: string)
    ensures Join([a, b, c, d], '|') == a + ['|'] + (b + ['|'] + (c + ['|'] + d))
  {
    assert [a, b, c, d][1..] == [b, c, d] && [b, c, d][1..] == [c, d] && [c, d][1..] == [d];
    assert Join([c, d], '|') == c + ['|'] + d;
    assert Join([b, c, d], '|') == b + ['|'] + Join([c, d], '|');
    assert Join([a, b, c, d], '|') == a + ['|'] + Join([b, c, d], '|');
  }

  lemma Regroup(x: string, y: string, z: string)
    ensures x + ['|'] + (y + ['|'] + z) == x + ['|'] + y + ['|'] + z
  {
  }

  /** The join of four parts has three bars more than the parts. */
  lemma BarsOfFour(a: string, b: string, c: string, d: string)
    ensures Bars(Join([a, b, c, d], '|')) == Bars(a) + Bars(b) + Bars(c) + Bars(d) + 3
  {
    JoinFour(a, b, c, d);
    assert Bars(['|']) == 1;
    BarsConcat(c + ['|'], d);
    BarsConcat(c, ['|']);
    BarsConcat(b + ['|'], c + ['|'] + d);
    BarsConcat(b, ['|']);
    BarsConcat(a + ['|'], b + ['|'] + (c + ['|'] + d));
    BarsConcat(a, ['|']);
  }

  lemma FingerprintBars(f: Facts)
    ensures Bars(Fingerprint(f)) == 3 <==> IsBarFree(Parts(f))
    ensures Bars(Fingerprint(f)) >= 3
  {
    var p := Parts(f);
    BarsOfFour(p[0], p[1], p[2], p[3]);
    assert p == [p[0], p[1], p[2], p[3]];
    NoBars(p[0]);
    NoBars(p[1]);
    NoBars(p[2]);
    NoBars(p[3]);
  }

  /** Check, principal, resource and policy with bars between them; an absent
      field reads as the empty text. */
  lemma FingerprintExactly(f: Facts, principal: string, resource: string, policy: string)
    requires principal == (if f.principal.Some? then f.principal.value else "")
    requires resource == (if f.resource.Some? then f.resource.value else "")
    requires policy == (if f.policy.Some? then f.policy.value else "")
    ensures Fingerprint(f) == f.check + "|" + principal + "|" + resource + "|" + policy
  {
    JoinFour(f.check, principal, resource, policy);
    assert Parts(f) == [f.check, principal, resource, policy];
  }

  /** A finding without a bar in its fields shares its fingerprint with no
      finding of other fields. */
  lemma FingerprintIdentifies(f: Facts, g: Facts)
    requires IsBarFree(Parts(f))
    ensures Fingerprint(f) == Fingerprint(g) <==> Parts(f) == Parts(g)
  {
    if Fingerprint(f) == Fingerprint(g) {
      FingerprintBars(f);
      FingerprintBars(g);
      SplitJoin(Parts(f), '|');
      SplitJoin(Parts(g), '|');
    }
  }

  function WithParts(f: Facts, a: string, b: string, c: string, d: string): Facts {
    f.(check := a, principal := Some(b), resource := Some(c), policy := Some(d))
  }

  lemma RecutFirst(f: Facts, x: string, y: string) returns (g: Facts)
    requires Parts(f)[0] == x + ['|'] + y
    ensures Parts(g)[0] == x && Fingerprint(g) == Fingerprint(f)
  {
    var p := Parts(f);
    g := WithParts(f, x, y + ['|'] + p[1], p[2], p[3]);
    JoinFour(p[0], p[1], p[2], p[3]);
    JoinFour(x, y + ['|'] + p[1], p[2], p[3]);
    var rest := p[2] + ['|'] + p[3];
    Regroup(y, p[1], rest);
    Regroup(x, y, p[1] + ['|'] + rest);
  }

  lemma RecutSecond(f: Facts, x: string, y: string) returns (g: Facts)
    requires Parts(f)[1] == x + ['|'] + y
    ensures Parts(g)[1] == x && Fingerprint(g) == Fingerprint(f)
  {
    var p := Parts(f);
    g := WithParts(f, p[0], x, y + ['|'] + p[2], p[3]);
    JoinFour(p[0], p[1], p[2], p[3]);
    JoinFour(p[0], x, y + ['|'] + p[2], p[3]);
    Regroup(y, p[2], p[3]);
    Regroup(x, y, p[2] + ['|'] + p[3]);
  }

  lemma RecutThird(f: Facts, x: string, y: string) returns (g: Facts)
    requires Parts(f)[2] == x + ['|'] + y
    ensures Parts(g)[2] == x && Fingerprint(g) == Fingerprint(f)
  {
    var p := Parts(f);
    g := WithParts(f, p[0], p[1], x, y + ['|'] + p[3]);
    JoinFour(p[0], p[1], p[2], p[3]);
    JoinFour(p[0], p[1], x, y + ['|'] + p[3]);
    Regroup(x, y, p[3]);
  }

  lemma RecutFourth(f: Facts, x: string, y: string) returns (g: Facts)
    requires Parts(f)[3] == x + ['|'] + y
    ensures Parts(g)[3] == y && Fingerprint(g) == Fingerprint(f)
  {
    var p := Parts(f);
    g := WithParts(f, p[0], p[1], p[2] + ['|'] + x, y);
    JoinFour(p[0], p[1], p[2], p[3]);
    JoinFour(p[0], p[1], p[2] + ['|'] + x, y);
    Regroup(p[2], x, y);
  }

  /** Cutting a field at its bar and moving one piece to a neighbouring field
      gives the same text. */
  lemma Recut(f: Facts, i: nat) returns (g: Facts)
    requires i < 4 && '|' in Parts(f)[i]
    ensures Parts(g) != Parts(f) && Fingerprint(g) == Fingerprint(f)
  {
    var p := Parts(f);
    var x, y := Before(p[i], '|'), After(p[i], '|');
    assert p[i] == x + ['|'] + y && |x| < |p[i]| && |y| < |p[i]|;
    if i == 0 {
      g := RecutFirst(f, x, y);
    } else if i == 1 {
      g := RecutSecond(f, x, y);
    } else if i == 2 {
      g := RecutThird(f, x, y);
    } else {
      g := RecutFourth(f, x, y);
    }
  }

  /** A finding shares its fingerprint with one of other fields exactly when
      one of its own fields contains a bar. */
  lemma FingerprintCollidesExactlyWhen(f: Facts)
    ensures (exists g :: Parts(g) != Parts(f) && Fingerprint(g) == Fingerprint(f))
            <==> exists t :: t in Parts(f) && '|' in t
  {
    var p := Parts(f);
    if t :| t in p && '|' in t {
      var i :| 0 <= i < 4 && p[i] == t;
      var g := Recut(f, i);
    } else {
      assert forall i :: 0 <= i < 4 ==> p[i] in p;
      forall g | Fingerprint(g) == Fingerprint(f) ensures Parts(g) == Parts(f) {
        FingerprintIdentifies(f, g);
      }
    }
  }

  /** A concrete pair of different findings with one fingerprint. */
  lemma FingerprintCollides(f: Facts)
    requires f.check == "c" && f.policy == None
    ensures Fingerprint(f.(principal := Some("a|b"), resource := Some("d")))
         == Fingerprint(f.(principal := Some("a"), resource := Some("b|d")))
  {
    JoinFour("c", "a|b", "d", "");
    JoinFour("c", "a", "b|d", "");
    assert "a|b" + ['|'] + ("d" + ['|'] + "") == "a" + ['|'] + ("b|d" + ['|'] + "");
  }

  /** `bool(evidence.get("graph_path"))`. */
  predicate HasGraphPath(evidence: Evidence) {
    Get(evidence, "graph_path").Json? && Get(evidence, "graph_path").truthy
  }

  /** The posture contribution of a finding, given the blast radius of its
      principal where the run knows it. */
  function FactorOf(f: Facts, principals: map<string, int>): PostureFactor {
    var uid := OrEmpty(f.principal);
    PostureFactor(f.severity, if uid in principals then principals[uid] else 0, HasGraphPath(f.evidence))
  }

  /** A finding counts with its severity, the blast radius the run recorded for
      its principal, 0 for one it does not know, and as an escalation if its
      evidence has a path that is not empty. */
  lemma FactorExactly(f: Facts, principals: map<string, int>)
    ensures var factor := FactorOf(f, principals);
      && factor.severity == f.severity
      && (f.principal.Some? && f.principal.value in principals ==> factor.blastRadius == principals[f.principal.value])
      && (f.principal.Some? && f.principal.value !in principals ==> factor.blastRadius == 0)
      && (f.principal.None? && "" !in principals ==> factor.blastRadius == 0)
      && (factor.isEscalation <==>
            "graph_path" in f.evidence && f.evidence["graph_path"].Json? && f.evidence["graph_path"].truthy)
  {
  }
}

/** ISO dates (section 5.6 of RFC 3339, full-date) and their order as text. */
module IsoDates {
  import opened Ordering

  datatype Date = Date(year: nat, month: nat, day: nat)

  predicate InRange(d: Date) {
    1 <= d.year <= 9999 && 1 <= d.month <= 12 && 1 <= d.day <= 31
  }

  predicate DateLeq(a: Date, b: Date) {
    a.year < b.year || (a.year == b.year && (a.month < b.month || (a.month == b.month && a.day <= b.day)))
  }

  function Digit(n: nat): char
    requires n < 10
  {
    '0' + n as char
  }

  function Digits2(n: nat): string
    requires n < 100
  {
    [Digit(n / 10), Digit(n % 10)]
  }

  function Digits4(n: nat): string
    requires n < 10000
  {
    Digits2(n / 100) + Digits2(n % 100)
  }

  /** `date.isoformat()`. */
  function Iso(d: Date): string
    requires InRange(d)
  {
    Digits4(d.year) + ['-'] + Digits2(d.month) + ['-'] + Digits2(d.day)
  }

  /** Strings that agree up to a first difference are ordered by it. */
  lemma {:induction false} LexByFirstDifference(a: string, b: string, i: nat)
    requires i < |a| && i < |b| && a[..i] == b[..i] && a[i] != b[i]
    ensures StrLeq(a, b) <==> a[i] < b[i]
  {
    if i > 0 {
      assert a[0] == a[..i][0] && b[0] == b[..i][0];
      assert a[1..][..i - 1] == a[..i][1..] && b[1..][..i - 1] == b[..i][1..];
      LexByFirstDifference(a[1..], b[1..], i - 1);
    }
  }

  lemma {:induction false} LexCommon(x: string, a: string, b: string)
    ensures StrLeq(x + a, x + b) <==> StrLeq(a, b)
  {
    if x == "" {
      assert x + a == a && x + b == b;
    } else {
      assert (x + a)[1..] == x[1..] + a && (x + b)[1..] == x[1..] + b;
      LexCommon(x[1..], a, b);
    }
  }

  /** Two-digit fields of equal width compare as numbers, then by the rest. */
  lemma TwoDigitsOrder(m: nat, n: nat, a: string, b: string)
    requires m < 100 && n < 100
    ensures StrLeq(Digits2(m) + a, Digits2(n) + b) <==> m < n || (m == n && StrLeq(a, b))
  {
    var x, y := Digits2(m) + a, Digits2(n) + b;
    if m == n {
      LexCommon(Digits2(m), a, b);
    } else if m / 10 != n / 10 {
      assert x[..0] == y[..0];
      LexByFirstDifference(x, y, 0);
    } else {
      assert x[..1] == [Digit(m / 10)] && y[..1] == [Digit(n / 10)];
      LexByFirstDifference(x, y, 1);
    }
  }

  /** Comparing two ISO dates as strings is comparing the dates. */
  lemma IsoOrder(a: Date, b: Date)
    requires InRange(a) && InRange(b)
    ensures StrLeq(Iso(a), Iso(b)) <==> DateLeq(a, b)
  {
    var dayA, dayB := Digits2(a.day), Digits2(b.day);
    var monthA, monthB := Digits2(a.month) + (['-'] + dayA), Digits2(b.month) + (['-'] + dayB);
    var lowA, lowB := Digits2(a.year % 100) + (['-'] + monthA), Digits2(b.year % 100) + (['-'] + monthB);
    assert Iso(a) == Digits2(a.year / 100) + lowA && Iso(b) == Digits2(b.year / 100) + lowB;
    TwoDigitsOrder(a.year / 100, b.year / 100, lowA, lowB);
    TwoDigitsOrder(a.year % 100, b.year % 100, ['-'] + monthA, ['-'] + monthB);
    LexCommon(['-'], monthA, monthB);
    TwoDigitsOrder(a.month, b.month, ['-'] + dayA, ['-'] + dayB);
    LexCommon(['-'], dayA, dayB);
    assert dayA == dayA + [] && dayB == dayB + [];
    TwoDigitsOrder(a.day, b.day, [], []);
  }

  function Value(c: char): int {
    c as int - '0' as int
  }

  lemma DigitsRead(n: nat)
    requires n < 100
    ensures |Digits2(n)| == 2 && 10 * Value(Digits2(n)[0]) + Value(Digits2(n)[1]) == n
  {
  }

  /** Ten characters, year, month and day in decimal with hyphens between. */
  lemma IsoReads(d: Date)
    requires InRange(d)
    ensures var s := Iso(d);
      && |s| == 10 && s[4] == '-' && s[7] == '-'
      && 1000 * Value(s[0]) + 100 * Value(s[1]) + 10 * Value(s[2]) + Value(s[3]) == d.year
      && 10 * Value(s[5]) + Value(s[6]) == d.month && 10 * Value(s[8]) + Value(s[9]) == d.day
  {
    DigitsRead(d.year / 100);
    DigitsRead(d.year % 100);
    DigitsRead(d.month);
    DigitsRead(d.day);
  }
}
