/** `app/services/dashboard.py`: the live posture of a run, and the posture
    factors it shares with `app/analysis/engine.py`. */
module Dashboard {
  import opened Posture
  import opened Findings
  import opened Workflow

  /** The findings of a run, in the order they were stored. */
  function FactsOf(findings: seq<FindingRow>, run: int): seq<Facts> {
    if findings == [] then []
    else
      var n := |findings| - 1;
      var earlier := FactsOf(findings[..n], run);
      if findings[n].run == run then earlier + [findings[n].facts] else earlier
  }

  /** `_ACTIVE_STATUSES`. */
  predicate IsActive(status: Status) {
    status == Open || status == Investigating
  }

  function ActiveFacts(findings: seq<FindingRow>, run: int): seq<Facts> {
    if findings == [] then []
    else
      var n := |findings| - 1;
      var earlier := ActiveFacts(findings[..n], run);
      if findings[n].run == run && IsActive(findings[n].status) then earlier + [findings[n].facts] else earlier
  }

  predicate AllActive(findings: seq<FindingRow>, run: int) {
    forall i :: 0 <= i < |findings| && findings[i].run == run ==> IsActive(findings[i].status)
  }

  function Factors(facts: seq<Facts>, principals: map<string, int>): seq<PostureFactor> {
    if facts == [] then []
    else Factors(facts[..|facts| - 1], principals) + [FactorOf(facts[|facts| - 1], principals)]
  }

  /** `_posture_factors`. */
  method PostureFactors(active: seq<Facts>, principals: map<string, int>) returns (factors: seq<PostureFactor>)
    ensures factors == Factors(active, principals)
  {
    factors := [];
    for i := 0 to |active|
      invariant factors == Factors(active[..i], principals)
    {
      assert active[..i + 1][..i] == active[..i];
      var f := active[i];
      var uid := OrEmpty(f.principal);
      var blast := 0;
      if uid in principals {
        blast := principals[uid];
      }
      factors := factors + [PostureFactor(f.severity, blast, HasGraphPath(f.evidence))];
    }
    assert active[..|active|] == active;
  }

  /** The posture `build_dashboard` shows. */
  function LivePosture(decay: real -> real, db: Db, run: int): int
    requires run in db.runs
  {
    PostureScore(decay, Factors(ActiveFacts(db.findings, run), db.runs[run].principals))
  }

  lemma FactorsAppend(facts: seq<Facts>, f: Facts, principals: map<string, int>)
    ensures Factors(facts + [f], principals) == Factors(facts, principals) + [FactorOf(f, principals)]
  {
  }

  lemma AppendSome(some: seq<PostureFactor>, all: seq<PostureFactor>, f: PostureFactor)
    requires multiset(some) <= multiset(all)
    ensures multiset(some) <= multiset(all + [f]) && multiset(some + [f]) <= multiset(all + [f])
  {
  }

  /** The factors of the active findings are some of those of all findings. */
  lemma {:induction false} ActiveIsSome(findings: seq<FindingRow>, run: int, principals: map<string, int>)
    ensures multiset(Factors(ActiveFacts(findings, run), principals)) <= multiset(Factors(FactsOf(findings, run), principals))
  {
    if findings != [] {
      var n := |findings| - 1;
      ActiveIsSome(findings[..n], run, principals);
      var some, all := ActiveFacts(findings[..n], run), FactsOf(findings[..n], run);
      AppendSome(Factors(some, principals), Factors(all, principals), FactorOf(findings[n].facts, principals));
      if findings[n].run == run {
        FactorsAppend(all, findings[n].facts, principals);
        FactorsAppend(some, findings[n].facts, principals);
      }
    }
  }

  lemma {:induction false} ActiveIsAll(findings: seq<FindingRow>, run: int)
    requires AllActive(findings, run)
    ensures ActiveFacts(findings, run) == FactsOf(findings, run)
  {
    if findings != [] {
      var n := |findings| - 1;
      assert forall i :: 0 <= i < n ==> findings[..n][i] == findings[i];
      ActiveIsAll(findings[..n], run);
    }
  }

  /** The positions of the findings of a run that are open or investigated. */
  function ActivePositions(findings: seq<FindingRow>, run: int): set<nat> {
    set i: nat | i < |findings| && findings[i].run == run && (findings[i].status == Open || findings[i].status == Investigating)
  }

  lemma PositionsStep(findings: seq<FindingRow>, run: int)
    requires findings != []
    ensures var n := |findings| - 1;
      var init := ActivePositions(findings[..n], run);
      && n !in init
      && (n in ActivePositions(findings, run) ==> ActivePositions(findings, run) == init + {n})
      && (n !in ActivePositions(findings, run) ==> ActivePositions(findings, run) == init)
  {
  }

  /** The dashboard counts each open or investigated finding of the run once. */
  lemma {:induction false} ActiveFactsExactly(findings: seq<FindingRow>, run: int, f: Facts)
    ensures |ActiveFacts(findings, run)| == |ActivePositions(findings, run)|
    ensures f in ActiveFacts(findings, run) <==> exists i :: i in ActivePositions(findings, run) && findings[i].facts == f
  {
    if findings != [] {
      var n := |findings| - 1;
      var init := findings[..n];
      ActiveFactsExactly(init, run, f);
      PositionsStep(findings, run);
      forall i | i in ActivePositions(findings, run) && i < n ensures i in ActivePositions(init, run) && init[i] == findings[i] {
      }
    } else {
      assert ActivePositions([], run) == {};
    }
  }
}
