/** The numbers behind the scores: what each point of the blast radius, of a
    finding's risk and of the posture load stands for. */
module ScoreTheorems {
  import opened Rounding
  import opened Posture
  import opened PermissionGraph

  // ----- rounding -----

  /** `n` is a nearest integer of `x`, the even one of two. */
  predicate IsNearest(x: real, n: int) {
    && n as real - 0.5 <= x <= n as real + 0.5
    && (x == n as real - 0.5 || x == n as real + 0.5 ==> n % 2 == 0)
  }

  lemma RoundIsNearest(x: real)
    ensures IsNearest(x, Round(x))
  {
  }

  lemma NearestIsRound(x: real, n: int)
    requires IsNearest(x, n)
    ensures Round(x) == n
  {
  }

  /** The clamped score is the nearest integer of the value within 0..100. */
  lemma ClampIsNearest(x: real)
    ensures x <= 0.0 ==> Clamp(x) == 0
    ensures x >= 100.0 ==> Clamp(x) == 100
    ensures 0.0 <= x <= 100.0 ==> IsNearest(x, Clamp(x))
  {
    RoundIsNearest(ClampReal(x, 0.0, 100.0));
  }

  // ----- the blast radius -----

  function AtMost(x: nat, cap: nat): nat {
    if x < cap then x else cap
  }

  /** Sixtieths of a point: 108 for each sensitive action up to 25, 5 for each
      action up to 300, 60 for each role up to 10, and 1200 for a way to an
      administrator. */
  function Sixtieths(sensitive: nat, actions: nat, admin: bool, roles: nat): nat {
    108 * AtMost(sensitive, 25) + 5 * AtMost(actions, 300) + 60 * AtMost(roles, 10) + if admin then 1200 else 0
  }

  lemma BlastBySixtieths(sensitive: nat, actions: nat, admin: bool, roles: nat)
    ensures 60.0 * Blast(sensitive, actions, admin, roles) == Sixtieths(sensitive, actions, admin, roles) as real
  {
  }

  lemma SixtiethsRange(sensitive: nat, actions: nat, admin: bool, roles: nat)
    ensures 0 <= Sixtieths(sensitive, actions, admin, roles) <= 6000
  {
  }

  /** The blast radius is the nearest integer of those sixtieths. */
  lemma BlastScoreExactly(sensitive: nat, actions: nat, admin: bool, roles: nat)
    ensures var score, points := BlastScore(sensitive, actions, admin, roles), Sixtieths(sensitive, actions, admin, roles);
      && 60 * score - 30 <= points <= 60 * score + 30
      && (points == 60 * score - 30 || points == 60 * score + 30 ==> score % 2 == 0)
  {
    BlastBySixtieths(sensitive, actions, admin, roles);
    SixtiethsRange(sensitive, actions, admin, roles);
    ClampIsNearest(Blast(sensitive, actions, admin, roles));
  }

  // ----- the risk of one finding -----

  /** Twentieths of a point for the severity of a finding. */
  function SeverityTwentieths(severity: Severity): nat {
    match severity
    case Low => 220
    case Medium => 495
    case High => 770
    case Critical => 990
    case OtherSeverity(_) => 0
  }

  /** The impact is 5 for a critical finding or a blast radius from 75, else 4
      for a privilege finding or one from 50, else 3. The likelihood starts at 3
      and moves by one for ten failures, an idle principal, or a console without
      a second factor. */
  lemma SubScoresExactly(severity: Severity, isPrivilege: bool, failures: FailureCount, p: PrincipalRisk)
    ensures var impact := Impact(severity, isPrivilege, Known(p));
      && (impact == 5 <==> severity == Critical || p.blastRadius >= 75)
      && (impact >= 4 <==> severity == Critical || p.blastRadius >= 50 || isPrivilege)
      && 3 <= impact <= 5
    ensures Impact(severity, isPrivilege, Unknown) == if severity == Critical then 5 else if isPrivilege then 4 else 3
    ensures var many := failures.Failures? && failures.count >= 10;
      && Likelihood(failures, Unknown) == (if many then 4 else 3)
      && (!p.active ==> Likelihood(failures, Known(p)) == Likelihood(failures, Unknown) - 1)
      && (p.active && p.consoleAccess && !p.mfaEnabled ==> Likelihood(failures, Known(p)) == Likelihood(failures, Unknown) + 1)
      && (p.active && !(p.consoleAccess && !p.mfaEnabled) ==> Likelihood(failures, Known(p)) == Likelihood(failures, Unknown))
  {
  }

  /** Twentieths of a point: those of the severity, 100 for each step of impact,
      80 for each step of likelihood, 160 for a blast radius from 75 and 100 for
      a privileged finding or principal. */
  function RiskTwentieths(severity: Severity, isPrivilege: bool, failures: FailureCount, subject: Subject): int {
    SeverityTwentieths(severity) + 100 * Impact(severity, isPrivilege, subject) + 80 * Likelihood(failures, subject)
    + (if subject.Known? && subject.principal.blastRadius >= 75 then 160 else 0)
    + (if subject.Known? && (isPrivilege || subject.principal.privilegedRole) then 100 else 0)
  }

  lemma RiskTwentiethsRange(severity: Severity, isPrivilege: bool, failures: FailureCount, subject: Subject)
    ensures 0 <= RiskTwentieths(severity, isPrivilege, failures, subject)
  {
  }

  lemma RawByTwentieths(severity: Severity, impact: int, likelihood: int)
    ensures 20.0 * RawRisk(severity, impact, likelihood) == (SeverityTwentieths(severity) + 100 * impact + 80 * likelihood) as real
  {
  }

  lemma RiskIsClamped(severity: Severity, isPrivilege: bool, failures: FailureCount, subject: Subject)
    ensures Risk(severity, isPrivilege, failures, subject)
         == Clamp(RiskTwentieths(severity, isPrivilege, failures, subject) as real / 20.0)
  {
    RawByTwentieths(severity, Impact(severity, isPrivilege, subject), Likelihood(failures, subject));
  }

  /** The risk is the nearest integer of those twentieths, at most 100. */
  lemma RiskExactly(severity: Severity, isPrivilege: bool, failures: FailureCount, subject: Subject)
    ensures var risk, points := Risk(severity, isPrivilege, failures, subject), RiskTwentieths(severity, isPrivilege, failures, subject);
      && (points >= 2000 ==> risk == 100)
      && (points <= 2000 ==> 20 * risk - 10 <= points <= 20 * risk + 10
                             && (points == 20 * risk - 10 || points == 20 * risk + 10 ==> risk % 2 == 0))
  {
    RiskIsClamped(severity, isPrivilege, failures, subject);
    RiskTwentiethsRange(severity, isPrivilege, failures, subject);
    ClampIsNearest(RiskTwentieths(severity, isPrivilege, failures, subject) as real / 20.0);
  }

  // ----- the posture load -----

  /** The effective count of n findings is 1 for the first; each further one
      counts for something, and for less than the one before. */
  lemma EffectiveCount(n: nat)
    ensures Diminishing(0) == 0.0 && Diminishing(1) == 1.0
    ensures 0.0 < Diminishing(n + 2) - Diminishing(n + 1) < Diminishing(n + 1) - Diminishing(n)
    ensures n > 0 ==> Diminishing(n) * (3 * n + 17) as real == 20.0 * n as real
  {
    var x := n as real;
    if n > 0 {
      Effective(n);
    }
    Effective(n + 1);
    Effective(n + 2);
    StepsShrink(x);
  }

  lemma Effective(n: nat)
    requires n > 0
    ensures Diminishing(n) == 20.0 * n as real / (3.0 * n as real + 17.0)
  {
  }

  lemma StepsShrink(x: real)
    requires x >= 0.0
    ensures var a, b, c := 20.0 * x / (3.0 * x + 17.0), 20.0 * (x + 1.0) / (3.0 * x + 20.0), 20.0 * (x + 2.0) / (3.0 * x + 23.0);
      0.0 < c - b < b - a
  {
    var p, q, r := 3.0 * x + 17.0, 3.0 * x + 20.0, 3.0 * x + 23.0;
    assert 20.0 * (x + 1.0) / q - 20.0 * x / p == 340.0 / (p * q);
    assert 20.0 * (x + 2.0) / r - 20.0 * (x + 1.0) / q == 340.0 / (q * r);
    assert p * q < q * r;
  }

  function Copies(f: PostureFactor, n: nat): seq<PostureFactor> {
    if n == 0 then [] else [f] + Copies(f, n - 1)
  }

  lemma {:induction false} CountCopies(f: PostureFactor, n: nat, p: PostureFactor -> bool)
    ensures Count(Copies(f, n), p) == if p(f) then n else 0
  {
    if n > 0 {
      CountCopies(f, n - 1, p);
      assert Copies(f, n)[1..] == Copies(f, n - 1);
    }
  }

  lemma {:induction false} MaxBlastOfCopies(f: PostureFactor, n: nat)
    requires n > 0
    ensures MaxBlast(Copies(f, n)) == f.blastRadius
  {
    if n > 1 {
      MaxBlastOfCopies(f, n - 1);
      assert Copies(f, n)[1..] == Copies(f, n - 1) && Copies(f, n)[0] == f;
      assert |Copies(f, n - 1)| > 0;
    } else {
      assert Copies(f, 1) == [f];
    }
  }

  /** What one finding of each severity loads. */
  function LoneLoad(severity: Severity): real {
    match severity
    case Low => 1.0
    case Medium => 3.0
    case High => 8.0
    case Critical => 18.0
    case OtherSeverity(_) => 0.0
  }

  /** n findings of one kind load the effective count of that severity, 25 for
      each one effective escalation, and 40 for a blast radius of 100. */
  lemma LoadOfCopies(f: PostureFactor, n: nat)
    requires n > 0
    ensures Load(Copies(f, n)) == LoneLoad(f.severity) * Diminishing(n) + (if f.isEscalation then 25.0 * Diminishing(n) else 0.0)
      + (if f.blastRadius >= 100 then 40.0 else 0.4 * f.blastRadius as real)
  {
    CountCopies(f, n, HasSeverity(Low));
    CountCopies(f, n, HasSeverity(Medium));
    CountCopies(f, n, HasSeverity(High));
    CountCopies(f, n, HasSeverity(Critical));
    CountCopies(f, n, Escalating());
    MaxBlastOfCopies(f, n);
    assert Diminishing(0) == 0.0;
  }

  // ----- the anchor of the curve -----

  /** Squaring seven times from `low` at `t`. */
  lemma SevenSquares(decay: real -> real, t: real, low: real, a: real, b: real, c: real, d: real, e: real, f: real, g: real)
    requires IsDecay(decay) && 0.0 <= low <= decay(t)
    requires 0.0 <= a <= low * low && 0.0 <= b <= a * a && 0.0 <= c <= b * b && 0.0 <= d <= c * c
    requires 0.0 <= e <= d * d && 0.0 <= f <= e * e && 0.0 <= g <= f * f
    ensures g <= decay(128.0 * t)
  {
    Doubled(decay, t, low);
    Doubled(decay, 2.0 * t, a);
    Doubled(decay, 4.0 * t, b);
    Doubled(decay, 8.0 * t, c);
    Doubled(decay, 16.0 * t, d);
    Doubled(decay, 32.0 * t, e);
    Doubled(decay, 64.0 * t, f);
  }

  lemma DecayAtOne(decay: real -> real)
    requires IsDecay(decay)
    ensures 0.36620 <= decay(1.0) && decay(1.0) * 2.70579 <= 1.0
  {
    var t := 1.0 / 128.0;
    assert AboveTangent(decay, t) && AboveTangent(decay, -t);
    SevenSquares(decay, t, 0.9921875, 0.98443, 0.96910, 0.93915, 0.88200, 0.77792, 0.60515, 0.36620);
    SevenSquares(decay, -t, 1.0078125, 1.01568, 1.03160, 1.06419, 1.13250, 1.28255, 1.64493, 2.70579);
    assert 128.0 * t == 1.0 && 128.0 * -t == -1.0;
    Inverse(decay, 1.0, 2.70579);
  }

  lemma Inverse(decay: real -> real, x: real, low: real)
    requires IsDecay(decay) && low <= decay(-x)
    ensures decay(x) * low <= 1.0
  {
    assert AddLaw(decay, x, -x) && x + -x == 0.0;
    DecayAtZero(decay);
    DecayPositive(decay, x);
    assert decay(x) * (decay(-x) - low) >= 0.0;
  }

  /** A load of 80 scores 37, as documented. */
  lemma LoadEightyScores37(decay: real -> real, factors: seq<PostureFactor>)
    requires IsDecay(decay) && factors != [] && Load(factors) == 80.0
    ensures PostureScore(decay, factors) == 37
  {
    DecayAtOne(decay);
    NearestIsRound(100.0 * decay(1.0), 37);
  }

  /** The account the curve is said to be anchored to: four critical findings,
      one of them with an escalation path. */
  function ReferenceAccount(): seq<PostureFactor> {
    [PostureFactor(Critical, 0, true), PostureFactor(Critical, 0, false),
     PostureFactor(Critical, 0, false), PostureFactor(Critical, 0, false)]
  }

  lemma ReferenceCounts(p: PostureFactor -> bool)
    ensures var a := ReferenceAccount();
      Count(a, p) == (if p(a[0]) then 1 else 0) + (if p(a[1]) then 3 else 0)
    ensures MaxBlast(ReferenceAccount()) == 0
  {
    var a := ReferenceAccount();
    assert a[1..] == Copies(a[1], 3) by {
      assert Copies(a[1], 1) == [a[1]];
      assert Copies(a[1], 2) == [a[1], a[1]];
    }
    CountCopies(a[1], 3, p);
    MaxBlastOfCopies(a[1], 3);
  }

  lemma ReferenceLoad()
    ensures Load(ReferenceAccount()) == 2165.0 / 29.0
  {
    ReferenceCounts(HasSeverity(Low));
    ReferenceCounts(HasSeverity(Medium));
    ReferenceCounts(HasSeverity(High));
    ReferenceCounts(HasSeverity(Critical));
    ReferenceCounts(Escalating());
    assert Diminishing(0) == 0.0 && Diminishing(1) == 1.0;
    assert Diminishing(4) == 80.0 / 29.0;
  }

  lemma DecayAtReference(decay: real -> real, x: real)
    requires IsDecay(decay) && x == 433.0 / 464.0
    ensures 0.39185 <= decay(x) && decay(x) * 2.53255 <= 1.0
  {
    var t := x / 128.0;
    assert AboveTangent(decay, t) && AboveTangent(decay, -t);
    SevenSquares(decay, t, 0.992709, 0.98547, 0.97115, 0.94313, 0.88949, 0.79119, 0.62598, 0.39185);
    SevenSquares(decay, -t, 1.007290, 1.01463, 1.02947, 1.05980, 1.12317, 1.26151, 1.59140, 2.53255);
    assert 128.0 * t == x && 128.0 * -t == -x;
    Inverse(decay, x, 2.53255);
  }

  /** It scores 39, not the 37 of a load of 80: its load is below 75. */
  lemma ReferenceAccountScores39(decay: real -> real)
    requires IsDecay(decay)
    ensures PostureScore(decay, ReferenceAccount()) == 39 && Load(ReferenceAccount()) < 75.0
  {
    ReferenceLoad();
    var x := Load(ReferenceAccount()) / 80.0;
    assert x == 433.0 / 464.0;
    DecayAtReference(decay, x);
    NearestIsRound(100.0 * decay(x), 39);
  }
}
