/**
 The cents rollup of a project. Each charge leaves a delta that is written to project_costs
 after its transaction, later than other charges perhaps, or never.
 */
module Cents {
  import opened Prelude
  import opened Debates
  import opened Protocol
  import opened Money

  const MICROS_PER_CENT: int := 10000

  /** CostCentsDelta. */
  function CostCentsDelta(oldTotal: int, added: int): int {
    CentsDelta(oldTotal, oldTotal + added)
  }

  /** The deltas a debate produces when it is charged these costs one after the other. */
  function Deltas(costs: seq<int>): seq<int> {
    if costs == [] then []
    else
      var before := costs[..|costs| - 1];
      Deltas(before) + [CostCentsDelta(Sum(before), costs[|costs| - 1])]
  }

  /** Cumulative floor: whatever the charges, the deltas add up to the whole cents of their sum. */
  lemma {:induction false} DeltasTelescope(costs: seq<int>)
    ensures |Deltas(costs)| == |costs|
    ensures Sum(Deltas(costs)) == TruncDiv(Sum(costs), MICROS_PER_CENT)
  {
    if costs != [] {
      DeltasTelescope(costs[..|costs| - 1]);
      assert Deltas(costs)[..|costs| - 1] == Deltas(costs[..|costs| - 1]);
    }
  }

  // ----- a project and its debates -----

  function ProjectMicros(ds: seq<Debate>, p: nat): int {
    if ds == [] then 0
    else ProjectMicros(ds[..|ds| - 1], p) + if ds[|ds| - 1].project == p then ds[|ds| - 1].totalMicros else 0
  }

  function ProjectFloor(ds: seq<Debate>, p: nat): int {
    if ds == [] then 0
    else
      var d := ds[|ds| - 1];
      ProjectFloor(ds[..|ds| - 1], p) + if d.project == p then TruncDiv(d.totalMicros, MICROS_PER_CENT) else 0
  }

  function DebateCount(ds: seq<Debate>, p: nat): nat {
    if ds == [] then 0
    else DebateCount(ds[..|ds| - 1], p) + if ds[|ds| - 1].project == p then 1 else 0
  }

  function RollupSum(rs: seq<Rollup>, p: nat): int {
    if rs == [] then 0
    else RollupSum(rs[..|rs| - 1], p) + if rs[|rs| - 1].project == p then rs[|rs| - 1].cents else 0
  }

  /** project_costs.amount_cents, all months together. */
  function Recorded(db: Tables, p: nat): int {
    if p in db.projectCents then db.projectCents[p] else 0
  }

  /** Written, still to be written and lost cents together are the whole cents of every debate. */
  ghost predicate CentsAddUp(w: World, p: nat) {
    Recorded(w.db, p) + RollupSum(w.rollups, p) + RollupSum(w.lost, p) == ProjectFloor(w.db.debates, p)
  }

  lemma {:induction false} FloorUpdate(ds: seq<Debate>, k: nat, d: Debate, p: nat)
    requires k < |ds| && d.project == ds[k].project
    ensures ProjectFloor(ds[k := d], p) == ProjectFloor(ds, p)
      + if d.project == p then CentsDelta(ds[k].totalMicros, d.totalMicros) else 0
  {
    var n := |ds| - 1;
    if k < n {
      FloorUpdate(ds[..n], k, d, p);
      assert ds[k := d][..n] == ds[..n][k := d];
    } else {
      assert ds[k := d][..n] == ds[..n];
    }
  }

  ghost predicate SameBills(a: seq<Debate>, b: seq<Debate>) {
    |a| == |b| && forall k :: 0 <= k < |a| ==> a[k].project == b[k].project && a[k].totalMicros == b[k].totalMicros
  }

  lemma {:induction false} SameFloor(a: seq<Debate>, b: seq<Debate>, p: nat)
    requires SameBills(a, b)
    ensures ProjectFloor(a, p) == ProjectFloor(b, p)
  {
    if a != [] { SameFloor(a[..|a| - 1], b[..|b| - 1], p); }
  }

  lemma {:induction false} TakeOut(rs: seq<Rollup>, i: nat, p: nat)
    requires i < |rs|
    ensures RollupSum(Without(rs, i), p) + (if rs[i].project == p then rs[i].cents else 0) == RollupSum(rs, p)
  {
    var n := |rs| - 1;
    if i < n {
      TakeOut(rs[..n], i, p);
      assert Without(rs, i)[..n - 1] == Without(rs[..n], i) && Without(rs, i)[n - 1] == rs[n];
    } else {
      assert Without(rs, i) == rs[..n];
    }
  }

  lemma PutIn(rs: seq<Rollup>, r: Rollup, p: nat)
    ensures RollupSum(rs + [r], p) == RollupSum(rs, p) + if r.project == p then r.cents else 0
  {
  }

  lemma RowKeepsProject(cfg: Config, w: World, e: Event, k: nat)
    requires k < |w.db.debates|
    ensures RowAfter(cfg, w, e, k).project == w.db.debates[k].project
  {
  }

  /** A charge adds its delta to the pending rollups and to the floor of its project alike. */
  lemma ChargeAddsUp(w: World, k: nat, r: Result<Tables, Error>, p: nat)
    requires r.Success? && k < |w.db.debates| && CentsAddUp(w, p)
    requires r.value.projectCents == w.db.projectCents
    requires |r.value.debates| == |w.db.debates| && r.value.debates == w.db.debates[k := r.value.debates[k]]
    requires r.value.debates[k].project == w.db.debates[k].project
    ensures CentsAddUp(CommitCharge(w, k, r), p)
  {
    FloorUpdate(w.db.debates, k, r.value.debates[k], p);
    var delta := CentsDelta(w.db.debates[k].totalMicros, r.value.debates[k].totalMicros);
    PutIn(w.rollups, Rollup(w.db.debates[k].project, delta), p);
  }

  /** Without a charge, totals stay and nothing is owed to a project. */
  lemma QuietAddsUp(cfg: Config, w: World, e: Event, p: nat)
    requires CentsAddUp(w, p) && !e.RefinerReturns? && !e.ScorerReturns? && !e.LandRollup? && !e.LoseRollup?
    ensures CentsAddUp(Step(cfg, w, e), p)
  {
    var ds, ds' := w.db.debates, Step(cfg, w, e).db.debates;
    StepOnRows(cfg, w, e);
    assert SameBills(ds, ds'[..|ds|]) by {
      forall k | 0 <= k < |ds| ensures ds[k].project == ds'[k].project && ds[k].totalMicros == ds'[k].totalMicros {
        RowKeepsProject(cfg, w, e, k);
        StepTotals(cfg, w, e, k);
      }
    }
    SameFloor(ds, ds'[..|ds|], p);
    if |ds'| == |ds| {
      assert ds'[..|ds|] == ds';
    }
    QuietBooks(cfg, w, e);
  }

  lemma QuietBooks(cfg: Config, w: World, e: Event)
    requires !e.RefinerReturns? && !e.ScorerReturns? && !e.LandRollup? && !e.LoseRollup?
    ensures var w' := Step(cfg, w, e);
      w'.rollups == w.rollups && w'.lost == w.lost && w'.db.projectCents == w.db.projectCents
  {
  }

  lemma ReplyAddsUp(cfg: Config, w: World, e: Event, p: nat)
    requires e.RefinerReturns? && CentsAddUp(w, p)
    ensures CentsAddUp(Step(cfg, w, e), p)
  {
    if e.request in w.requests && !w.requests[e.request].returned && Usable(cfg, e.reply) {
      var q := w.requests[e.request];
      var r := TxInsert(w.db, q.debate, w.nextId, SuggestionOf(e.reply), q.snapshot, w.now);
      if r.Success? { ChargeAddsUp(w, q.debate, r, p); }
    }
  }

  lemma ScoreAddsUp(cfg: Config, w: World, e: Event, p: nat)
    requires e.ScorerReturns? && CentsAddUp(w, p)
    ensures CentsAddUp(Step(cfg, w, e), p)
  {
    var r := TxScore(w.db, e.job.debate, e.job.round, e.result, w.now);
    if r.Success? { ChargeAddsUp(w, e.job.debate, r, p); }
  }

  /** A rollup that lands, or is lost, moves its cents from one account to another. */
  lemma RollupAddsUp(cfg: Config, w: World, e: Event, p: nat)
    requires (e.LandRollup? || e.LoseRollup?) && CentsAddUp(w, p)
    ensures CentsAddUp(Step(cfg, w, e), p)
  {
    if e.index < |w.rollups| {
      TakeOut(w.rollups, e.index, p);
      PutIn(w.lost, w.rollups[e.index], p);
    }
  }

  lemma StepAddsUp(cfg: Config, w: World, e: Event, p: nat)
    requires CentsAddUp(w, p)
    ensures CentsAddUp(Step(cfg, w, e), p)
  {
    if e.RefinerReturns? {
      ReplyAddsUp(cfg, w, e, p);
    } else if e.ScorerReturns? {
      ScoreAddsUp(cfg, w, e, p);
    } else if e.LandRollup? || e.LoseRollup? {
      RollupAddsUp(cfg, w, e, p);
    } else {
      QuietAddsUp(cfg, w, e, p);
    }
  }

  /** In every reachable state no cent is created or forgotten between the debates, the rows of
      project_costs, the rollups on their way and the rollups that failed. */
  lemma {:induction false} CentsAreConserved(cfg: Config, tickets: map<nat, string>, now: Time, es: seq<Event>, p: nat)
    ensures CentsAddUp(Run(cfg, Genesis(tickets, now), es), p)
  {
    if es != [] {
      CentsAreConserved(cfg, tickets, now, es[..|es| - 1], p);
      StepAddsUp(cfg, Run(cfg, Genesis(tickets, now), es[..|es| - 1]), es[|es| - 1], p);
    }
  }

  // ----- how far the recorded cents can be off -----

  ghost predicate BillsOk(w: World) {
    && (forall k :: 0 <= k < |w.db.debates| ==> 0 <= w.db.debates[k].totalMicros)
    && (forall i :: 0 <= i < |w.rollups| ==> 0 <= w.rollups[i].cents)
    && (forall i :: 0 <= i < |w.lost| ==> 0 <= w.lost[i].cents)
  }

  lemma ChargeKeepsBills(w: World, k: nat, r: Result<Tables, Error>)
    requires BillsOk(w) && r.Success? && k < |w.db.debates|
    requires |r.value.debates| == |w.db.debates| && r.value.debates == w.db.debates[k := r.value.debates[k]]
    requires w.db.debates[k].totalMicros <= r.value.debates[k].totalMicros
    ensures BillsOk(CommitCharge(w, k, r))
  {
  }

  lemma StepKeepsBills(cfg: Config, w: World, e: Event)
    requires BillsOk(w) && FairPrices([e])
    ensures BillsOk(Step(cfg, w, e))
  {
    assert [e][0] == e;
    if e.RefinerReturns? {
      ReplyKeepsBills(cfg, w, e);
    } else if e.ScorerReturns? {
      ScoreKeepsBills(cfg, w, e);
    } else {
      QuietKeepsBills(cfg, w, e);
    }
  }

  lemma ReplyKeepsBills(cfg: Config, w: World, e: Event)
    requires BillsOk(w) && e.RefinerReturns? && (e.reply.Text? ==> 0 <= e.reply.costMicros)
    ensures BillsOk(Step(cfg, w, e))
  {
    if e.request in w.requests && !w.requests[e.request].returned && Usable(cfg, e.reply) {
      var q := w.requests[e.request];
      var r := TxInsert(w.db, q.debate, w.nextId, SuggestionOf(e.reply), q.snapshot, w.now);
      if r.Success? { ChargeKeepsBills(w, q.debate, r); }
    }
  }

  lemma ScoreKeepsBills(cfg: Config, w: World, e: Event)
    requires BillsOk(w) && e.ScorerReturns? && 0 <= e.result.costMicros
    ensures BillsOk(Step(cfg, w, e))
  {
    var r := TxScore(w.db, e.job.debate, e.job.round, e.result, w.now);
    if r.Success? { ChargeKeepsBills(w, e.job.debate, r); }
  }

  lemma QuietKeepsBills(cfg: Config, w: World, e: Event)
    requires BillsOk(w) && !e.RefinerReturns? && !e.ScorerReturns?
    ensures BillsOk(Step(cfg, w, e))
  {
    if !e.LandRollup? && !e.LoseRollup? {
      StepOnRows(cfg, w, e);
      QuietBooks(cfg, w, e);
      forall k | 0 <= k < |w.db.debates| ensures 0 <= Step(cfg, w, e).db.debates[k].totalMicros {
        StepTotals(cfg, w, e, k);
      }
    }
  }

  lemma {:induction false} RunKeepsBills(cfg: Config, w: World, es: seq<Event>)
    requires BillsOk(w) && FairPrices(es)
    ensures BillsOk(Run(cfg, w, es))
  {
    if es != [] {
      RunKeepsBills(cfg, w, es[..|es| - 1]);
      assert FairPrices([es[|es| - 1]]) by { assert [es[|es| - 1]][0] == es[|es| - 1]; }
      StepKeepsBills(cfg, Run(cfg, w, es[..|es| - 1]), es[|es| - 1]);
    }
  }

  lemma {:induction false} FloorBounds(ds: seq<Debate>, p: nat)
    requires forall k :: 0 <= k < |ds| ==> 0 <= ds[k].totalMicros
    ensures 0 <= ProjectMicros(ds, p) - MICROS_PER_CENT * ProjectFloor(ds, p) <= (MICROS_PER_CENT - 1) * DebateCount(ds, p)
  {
    if ds != [] { FloorBounds(ds[..|ds| - 1], p); }
  }

  lemma {:induction false} RollupsAreCredits(rs: seq<Rollup>, p: nat)
    requires forall i :: 0 <= i < |rs| ==> 0 <= rs[i].cents
    ensures 0 <= RollupSum(rs, p)
  {
    if rs != [] { RollupsAreCredits(rs[..|rs| - 1], p); }
  }

  /** A project is never billed more than its debates cost, even when rollups are late or lost; and
      once all of its rollups have landed, in whatever order, a project of n debates is
      under-reported by less than n cents. */
  lemma RecordedCentsAreTight(cfg: Config, tickets: map<nat, string>, now: Time, es: seq<Event>, p: nat)
    requires FairPrices(es)
    ensures var w := Run(cfg, Genesis(tickets, now), es);
      var shortfall := ProjectMicros(w.db.debates, p) - MICROS_PER_CENT * Recorded(w.db, p);
      && 0 <= shortfall
      && (w.rollups == [] && w.lost == [] ==> shortfall <= (MICROS_PER_CENT - 1) * DebateCount(w.db.debates, p))
  {
    var w := Run(cfg, Genesis(tickets, now), es);
    CentsAreConserved(cfg, tickets, now, es, p);
    RunKeepsBills(cfg, Genesis(tickets, now), es);
    FloorBounds(w.db.debates, p);
    RollupsAreCredits(w.rollups, p);
    RollupsAreCredits(w.lost, p);
  }
}
