/** `app/analysis/risk.py`: the account posture score, over reals, and the
    scores of single findings. */
module Posture {
  import opened Rounding

  datatype Severity = Low | Medium | High | Critical | OtherSeverity(text: string)

  datatype PostureFactor = PostureFactor(severity: Severity, blastRadius: int, isEscalation: bool)

  function SeverityLoad(severity: Severity): real {
    match severity
    case Low => 1.0
    case Medium => 3.0
    case High => 8.0
    case Critical => 18.0
    case OtherSeverity(_) => 0.0
  }

  /** `_diminishing`, with its damping of 0.15. */
  function Diminishing(n: int): real {
    if n <= 0 then 0.0 else n as real / (1.0 + 0.15 * (n - 1) as real)
  }

  lemma DiminishingMonotone(m: int, n: int)
    requires m <= n
    ensures 0.0 <= Diminishing(m) <= Diminishing(n) < 20.0 / 3.0
  {
    DiminishingBounded(m);
    DiminishingBounded(n);
    if 0 < m {
      var x, y := m as real, n as real;
      var dx, dy := 1.0 + 0.15 * (x - 1.0), 1.0 + 0.15 * (y - 1.0);
      assert x * dy <= y * dx by {
        assert y * dx - x * dy == 0.85 * (y - x);
      }
      QuotientOrder(x, dx, y, dy);
    }
  }

  lemma QuotientOrder(x: real, dx: real, y: real, dy: real)
    requires dx > 0.0 && dy > 0.0 && x * dy <= y * dx
    ensures x / dx <= y / dy
  {
  }

  lemma DiminishingBounded(n: int)
    ensures 0.0 <= Diminishing(n) < 20.0 / 3.0
  {
  }

  // ----- the load -----

  function Count(factors: seq<PostureFactor>, p: PostureFactor -> bool): nat {
    if factors == [] then 0 else (if p(factors[0]) then 1 else 0) + Count(factors[1..], p)
  }

  function HasSeverity(severity: Severity): PostureFactor -> bool {
    (f: PostureFactor) => f.severity == severity
  }

  function Escalating(): PostureFactor -> bool {
    (f: PostureFactor) => f.isEscalation
  }

  /** Largest blast radius, 0 for no factors. */
  function MaxBlast(factors: seq<PostureFactor>): int {
    if factors == [] then 0
    else if |factors| == 1 then factors[0].blastRadius
    else
      var rest := MaxBlast(factors[1..]);
      if rest < factors[0].blastRadius then factors[0].blastRadius else rest
  }

  function LoadOf(severity: Severity, factors: seq<PostureFactor>): real {
    SeverityLoad(severity) * Diminishing(Count(factors, HasSeverity(severity)))
  }

  /** Severities outside the table weigh nothing. */
  function Load(factors: seq<PostureFactor>): real {
    LoadOf(Low, factors) + LoadOf(Medium, factors) + LoadOf(High, factors) + LoadOf(Critical, factors)
    + 25.0 * Diminishing(Count(factors, Escalating()))
    + 40.0 * BlastShare(MaxBlast(factors))
  }

  function BlastShare(blast: int): real {
    (if blast < 100 then blast else 100) as real / 100.0
  }

  /** The load of any account stays below 1220/3. */
  lemma LoadBounded(factors: seq<PostureFactor>)
    ensures Load(factors) < 1220.0 / 3.0
  {
    DiminishingBounded(Count(factors, HasSeverity(Low)));
    DiminishingBounded(Count(factors, HasSeverity(Medium)));
    DiminishingBounded(Count(factors, HasSeverity(High)));
    DiminishingBounded(Count(factors, HasSeverity(Critical)));
    DiminishingBounded(Count(factors, Escalating()));
    assert BlastShare(MaxBlast(factors)) <= 1.0;
  }

  // ----- fewer findings, lower load -----

  function Without(factors: seq<PostureFactor>, i: nat): seq<PostureFactor>
    requires i < |factors|
  {
    factors[..i] + factors[i + 1..]
  }

  lemma {:induction false} CountWithout(factors: seq<PostureFactor>, i: nat, p: PostureFactor -> bool)
    requires i < |factors|
    ensures Count(factors, p) == Count(Without(factors, i), p) + if p(factors[i]) then 1 else 0
  {
    if i == 0 {
      assert Without(factors, 0) == factors[1..];
    } else {
      assert Without(factors, i)[1..] == Without(factors[1..], i - 1);
      CountWithout(factors[1..], i - 1, p);
    }
  }

  lemma {:induction false} CountMonotone(some: seq<PostureFactor>, all: seq<PostureFactor>, p: PostureFactor -> bool)
    requires multiset(some) <= multiset(all)
    ensures Count(some, p) <= Count(all, p)
  {
    if some != [] {
      var i := RemoveFirst(some, all);
      CountWithout(all, i, p);
      CountMonotone(some[1..], Without(all, i), p);
    }
  }

  lemma SplitOut(all: seq<PostureFactor>, i: nat)
    requires i < |all|
    ensures multiset(all) == multiset(Without(all, i)) + multiset{all[i]}
  {
    assert all == all[..i] + [all[i]] + all[i + 1..];
  }

  lemma RemoveFirst(some: seq<PostureFactor>, all: seq<PostureFactor>) returns (i: nat)
    requires some != [] && multiset(some) <= multiset(all)
    ensures i < |all| && all[i] == some[0]
    ensures multiset(some[1..]) <= multiset(Without(all, i))
  {
    assert some == [some[0]] + some[1..];
    assert some[0] in multiset(some) && some[0] in multiset(all);
    i :| 0 <= i < |all| && all[i] == some[0];
    SplitOut(all, i);
    assert multiset(some) == multiset{some[0]} + multiset(some[1..]);
    forall f ensures multiset(some[1..])[f] <= multiset(Without(all, i))[f] {
      assert multiset(some)[f] <= multiset(all)[f];
    }
  }

  lemma {:induction false} MaxBlastIsMax(factors: seq<PostureFactor>)
    requires factors != []
    ensures exists f :: f in factors && f.blastRadius == MaxBlast(factors)
    ensures forall f :: f in factors ==> f.blastRadius <= MaxBlast(factors)
  {
    assert factors[0] in factors;
    if |factors| > 1 {
      MaxBlastIsMax(factors[1..]);
      assert forall f :: f in factors <==> f == factors[0] || f in factors[1..];
      var f :| f in factors[1..] && f.blastRadius == MaxBlast(factors[1..]);
      assert f in factors;
    }
  }

  lemma MaxBlastMonotone(some: seq<PostureFactor>, all: seq<PostureFactor>)
    requires some != [] && multiset(some) <= multiset(all)
    ensures MaxBlast(some) <= MaxBlast(all)
  {
    var x := some[0];
    assert x in multiset(some) && x in multiset(all);
    MaxBlastIsMax(some);
    MaxBlastIsMax(all);
    var f :| f in some && f.blastRadius == MaxBlast(some);
    assert f in multiset(some) && f in multiset(all);
    assert f in all;
  }

  lemma LoadOfMonotone(severity: Severity, some: seq<PostureFactor>, all: seq<PostureFactor>)
    requires multiset(some) <= multiset(all)
    ensures LoadOf(severity, some) <= LoadOf(severity, all)
  {
    CountMonotone(some, all, HasSeverity(severity));
    DiminishingMonotone(Count(some, HasSeverity(severity)), Count(all, HasSeverity(severity)));
  }

  lemma LoadMonotone(some: seq<PostureFactor>, all: seq<PostureFactor>)
    requires some != [] && multiset(some) <= multiset(all)
    ensures Load(some) <= Load(all)
  {
    LoadOfMonotone(Low, some, all);
    LoadOfMonotone(Medium, some, all);
    LoadOfMonotone(High, some, all);
    LoadOfMonotone(Critical, some, all);
    CountMonotone(some, all, Escalating());
    DiminishingMonotone(Count(some, Escalating()), Count(all, Escalating()));
    MaxBlastMonotone(some, all);
  }

  // ----- exp(-x), by the two laws that determine it -----

  ghost predicate AddLaw(decay: real -> real, x: real, y: real) {
    decay(x + y) == decay(x) * decay(y)
  }

  ghost predicate AboveTangent(decay: real -> real, x: real) {
    decay(x) >= 1.0 - x
  }

  /** `decay(x)` is exp(-x): it turns sums into products and lies above its
      tangent at 0. */
  ghost predicate IsDecay(decay: real -> real) {
    && (forall x, y :: AddLaw(decay, x, y))
    && (forall x :: AboveTangent(decay, x))
  }

  lemma DecayAtZero(decay: real -> real)
    requires IsDecay(decay)
    ensures decay(0.0) == 1.0
  {
    assert AddLaw(decay, 0.0, 0.0);
    assert AboveTangent(decay, 0.0);
  }

  lemma DecayPositive(decay: real -> real, x: real)
    requires IsDecay(decay)
    ensures decay(x) > 0.0
  {
    assert AddLaw(decay, x / 2.0, x / 2.0);
    assert AddLaw(decay, x, -x);
    DecayAtZero(decay);
    var half := decay(x / 2.0);
    assert x / 2.0 + x / 2.0 == x && x + -x == 0.0;
    assert decay(x) == half * half;
    assert half * half >= 0.0;
    assert decay(x) * decay(-x) == 1.0;
  }

  lemma DecayAntitone(decay: real -> real, x: real, y: real)
    requires IsDecay(decay) && x <= y
    ensures decay(y) <= decay(x)
  {
    var z := y - x;
    assert AddLaw(decay, x, z) && x + z == y;
    assert AddLaw(decay, z, -z) && z + -z == 0.0;
    assert AboveTangent(decay, -z);
    DecayAtZero(decay);
    DecayPositive(decay, x);
    DecayPositive(decay, z);
    AtMostOne(decay(z), decay(-z));
    Shrinks(decay(x), decay(z));
  }

  lemma AtMostOne(a: real, b: real)
    requires a > 0.0 && b >= 1.0 && a * b == 1.0
    ensures a <= 1.0
  {
  }

  lemma Shrinks(a: real, b: real)
    requires a > 0.0 && b <= 1.0
    ensures a * b <= a
  {
  }

  lemma Doubled(decay: real -> real, x: real, low: real)
    requires IsDecay(decay) && 0.0 <= low <= decay(x)
    ensures low * low <= decay(2.0 * x)
  {
    assert AddLaw(decay, x, x) && x + x == 2.0 * x;
    var d := decay(x);
    assert d * d >= low * d;
    assert low * d >= low * low;
  }

  /** exp(-61/12) exceeds 1/200: square 1 - 61/1536 seven times. */
  lemma DecayAtTheBound(decay: real -> real)
    requires IsDecay(decay)
    ensures decay(61.0 / 12.0) > 1.0 / 200.0
  {
    var t := 61.0 / 1536.0;
    assert AboveTangent(decay, t);
    Doubled(decay, t, 0.9602);
    Doubled(decay, 2.0 * t, 0.9219);
    Doubled(decay, 2.0 * (2.0 * t), 0.8498);
    Doubled(decay, 4.0 * (2.0 * t), 0.7221);
    Doubled(decay, 8.0 * (2.0 * t), 0.5214);
    Doubled(decay, 16.0 * (2.0 * t), 0.2718);
    Doubled(decay, 32.0 * (2.0 * t), 0.0738);
  }

  // ----- the score -----

  /** `account_posture_score`, with `decay` for exp(-x). */
  function PostureScore(decay: real -> real, factors: seq<PostureFactor>): int {
    if factors == [] then 100 else Clamp(100.0 * decay(Load(factors) / 80.0))
  }

  /** The score is never 0, whatever the account. */
  lemma PostureScoreRange(decay: real -> real, factors: seq<PostureFactor>)
    requires IsDecay(decay)
    ensures 1 <= PostureScore(decay, factors) <= 100
  {
    var x := Load(factors) / 80.0;
    LoadBounded(factors);
    DecayAntitone(decay, x, 61.0 / 12.0);
    DecayAtTheBound(decay);
    var value := 100.0 * decay(x);
    ClampRange(value);
    RoundBounds(ClampReal(value, 0.0, 100.0), 1, 100);
  }

  lemma HeavierScoresLess(decay: real -> real, some: seq<PostureFactor>, all: seq<PostureFactor>)
    requires IsDecay(decay) && some != [] && all != [] && Load(some) <= Load(all)
    ensures PostureScore(decay, some) >= PostureScore(decay, all)
  {
    var x, y := Load(some) / 80.0, Load(all) / 80.0;
    DecayAntitone(decay, x, y);
    ClampMonotone(100.0 * decay(y), 100.0 * decay(x));
  }

  /** Fewer findings, in any order, never score lower; the same findings in
      another order score the same. */
  lemma PostureAntitone(decay: real -> real, some: seq<PostureFactor>, all: seq<PostureFactor>)
    requires IsDecay(decay) && multiset(some) <= multiset(all)
    ensures PostureScore(decay, some) >= PostureScore(decay, all)
    ensures multiset(some) == multiset(all) ==> PostureScore(decay, some) == PostureScore(decay, all)
  {
    PostureScoreRange(decay, all);
    if some != [] {
      LoadMonotone(some, all);
      assert all != [];
      HeavierScoresLess(decay, some, all);
      if multiset(some) == multiset(all) {
        LoadMonotone(all, some);
      }
    } else if multiset(some) == multiset(all) {
      assert |multiset(all)| == 0;
    }
  }

  // ----- the score of one finding -----

  datatype PrincipalRisk = PrincipalRisk(
    blastRadius: int, active: bool, consoleAccess: bool, mfaEnabled: bool, privilegedRole: bool)

  datatype Subject = Unknown | Known(principal: PrincipalRisk)

  datatype FailureCount = NotAnInt | Failures(count: int)

  function BaseWeight(severity: Severity): int {
    match severity
    case Low => 20
    case Medium => 45
    case High => 70
    case Critical => 90
    case OtherSeverity(_) => 0
  }

  class FindingRecord {
    const severity: Severity
    const isPrivilege: bool
    const failures: FailureCount
    var impact: int
    var likelihood: int
    var riskScore: int

    constructor (severity: Severity, isPrivilege: bool, failures: FailureCount)
      ensures this.severity == severity && this.isPrivilege == isPrivilege && this.failures == failures
      ensures impact == 3 && likelihood == 3 && riskScore == 0
    {
      this.severity, this.isPrivilege, this.failures := severity, isPrivilege, failures;
      impact, likelihood, riskScore := 3, 3, 0;
    }

    /** `_impact`. */
    method ImpactOf(subject: Subject) returns (score: int)
      ensures score == Impact(severity, isPrivilege, subject)
    {
      score := 3;
      if subject.Known? {
        if subject.principal.blastRadius >= 75 {
          score := 5;
        } else if subject.principal.blastRadius >= 50 {
          score := 4;
        }
      }
      if isPrivilege && score < 4 {
        score := 4;
      }
      if severity == Critical {
        score := 5;
      }
      score := Within1To5(score);
    }

    /** `_likelihood`. */
    method LikelihoodOf(subject: Subject) returns (score: int)
      ensures score == Likelihood(failures, subject)
    {
      score := 3;
      if failures.Failures? && failures.count >= 10 {
        score := score + 1;
      }
      if subject.Known? {
        var p := subject.principal;
        if p.active && p.consoleAccess && !p.mfaEnabled {
          score := score + 1;
        }
        if !p.active {
          score := score - 1;
        }
      }
      score := Within1To5(score);
    }

    /** `score_finding`. */
    method Score(subject: Subject)
      modifies this
      ensures impact == Impact(severity, isPrivilege, subject)
      ensures likelihood == Likelihood(failures, subject)
      ensures riskScore == Risk(severity, isPrivilege, failures, subject)
    {
      var i := ImpactOf(subject);
      var l := LikelihoodOf(subject);
      var raw := RawRisk(severity, i, l);
      if subject.Known? && subject.principal.blastRadius >= 75 {
        raw := raw + 8.0;
      }
      if subject.Known? && (isPrivilege || subject.principal.privilegedRole) {
        raw := raw + 5.0;
      }
      impact, likelihood, riskScore := i, l, Clamp(raw);
    }
  }

  function Within1To5(score: int): int {
    if score > 5 then 5 else if score < 1 then 1 else score
  }

  function Impact(severity: Severity, isPrivilege: bool, subject: Subject): int {
    var blast := if subject.Known? then subject.principal.blastRadius else 0;
    if severity == Critical || blast >= 75 then 5
    else if isPrivilege || blast >= 50 then 4
    else 3
  }

  function Likelihood(failures: FailureCount, subject: Subject): int {
    3 + (if failures.Failures? && failures.count >= 10 then 1 else 0)
    + (if subject.Unknown? then 0
       else if !subject.principal.active then -1
       else if subject.principal.consoleAccess && !subject.principal.mfaEnabled then 1 else 0)
  }

  function RawRisk(severity: Severity, impact: int, likelihood: int): real {
    0.55 * BaseWeight(severity) as real + 0.25 * (impact as real / 5.0 * 100.0) + 0.20 * (likelihood as real / 5.0 * 100.0)
  }

  function Risk(severity: Severity, isPrivilege: bool, failures: FailureCount, subject: Subject): int {
    Clamp(RawRisk(severity, Impact(severity, isPrivilege, subject), Likelihood(failures, subject))
          + (if subject.Known? && subject.principal.blastRadius >= 75 then 8.0 else 0.0)
          + (if subject.Known? && (isPrivilege || subject.principal.privilegedRole) then 5.0 else 0.0))
  }

  /** The two modifiers of the raw score. */
  function Modifiers(isPrivilege: bool, p: PrincipalRisk): real {
    (if p.blastRadius >= 75 then 8.0 else 0.0) + (if isPrivilege || p.privilegedRole then 5.0 else 0.0)
  }

  lemma RiskOfKnown(severity: Severity, isPrivilege: bool, failures: FailureCount, p: PrincipalRisk)
    ensures Risk(severity, isPrivilege, failures, Known(p))
         == Clamp(RawRisk(severity, Impact(severity, isPrivilege, Known(p)), Likelihood(failures, Known(p))) + Modifiers(isPrivilege, p))
  {
  }

  lemma SubScores(severity: Severity, isPrivilege: bool, failures: FailureCount, p: PrincipalRisk, worse: PrincipalRisk)
    requires p.blastRadius <= worse.blastRadius && worse == p.(blastRadius := worse.blastRadius, privilegedRole := worse.privilegedRole)
    ensures 1 <= Impact(severity, isPrivilege, Known(p)) <= Impact(severity, isPrivilege, Known(worse)) <= 5
    ensures 1 <= Likelihood(failures, Known(p)) == Likelihood(failures, Known(worse)) <= 5
  {
  }

  lemma ScoresOrdered(severity: Severity, i: int, j: int, likelihood: int, m: real, n: real)
    requires i <= j && m <= n
    ensures 0 <= Clamp(RawRisk(severity, i, likelihood) + m) <= Clamp(RawRisk(severity, j, likelihood) + n) <= 100
  {
  }

  lemma ModifiersOrdered(isPrivilege: bool, p: PrincipalRisk, worse: PrincipalRisk)
    requires p.blastRadius <= worse.blastRadius && (p.privilegedRole ==> worse.privilegedRole)
    ensures Modifiers(isPrivilege, p) <= Modifiers(isPrivilege, worse)
  {
  }

  lemma RisksOrdered(severity: Severity, isPrivilege: bool, failures: FailureCount, p: PrincipalRisk, worse: PrincipalRisk)
    requires Impact(severity, isPrivilege, Known(p)) <= Impact(severity, isPrivilege, Known(worse))
    requires Likelihood(failures, Known(p)) == Likelihood(failures, Known(worse))
    requires Modifiers(isPrivilege, p) <= Modifiers(isPrivilege, worse)
    ensures 0 <= Risk(severity, isPrivilege, failures, Known(p)) <= Risk(severity, isPrivilege, failures, Known(worse)) <= 100
  {
    RiskOfKnown(severity, isPrivilege, failures, p);
    RiskOfKnown(severity, isPrivilege, failures, worse);
    ScoresOrdered(severity, Impact(severity, isPrivilege, Known(p)), Impact(severity, isPrivilege, Known(worse)),
      Likelihood(failures, Known(p)), Modifiers(isPrivilege, p), Modifiers(isPrivilege, worse));
  }

  /** The sub-scores stay in 1..5, the risk in 0..100, and a larger blast radius
      or a privileged role never lowers either. */
  lemma RiskMonotone(severity: Severity, isPrivilege: bool, failures: FailureCount, p: PrincipalRisk, blast: int, role: bool)
    requires p.blastRadius <= blast && (p.privilegedRole ==> role)
    ensures var worse := p.(blastRadius := blast, privilegedRole := role);
      && 1 <= Impact(severity, isPrivilege, Known(p)) <= Impact(severity, isPrivilege, Known(worse)) <= 5
      && 1 <= Likelihood(failures, Known(p)) == Likelihood(failures, Known(worse)) <= 5
      && 0 <= Risk(severity, isPrivilege, failures, Known(p)) <= Risk(severity, isPrivilege, failures, Known(worse)) <= 100
  {
    var worse := p.(blastRadius := blast, privilegedRole := role);
    SubScores(severity, isPrivilege, failures, p, worse);
    ModifiersOrdered(isPrivilege, p, worse);
    RisksOrdered(severity, isPrivilege, failures, p, worse);
  }
}
