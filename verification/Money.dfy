/**
 Money. Three records of what a debate cost (its running total, the append-only ledger, the
 columns of its rounds) and a fourth one in cents per project, kept by separate transactions.
 */
module Money {
  import opened Prelude
  import opened Debates
  import opened Protocol
  import opened Lineage

  function Sum(xs: seq<int>): int {
    if xs == [] then 0 else Sum(xs[..|xs| - 1]) + xs[|xs| - 1]
  }

  /** The part of a list of charges that RecordDebateSpendTx writes down. */
  function Billed(xs: seq<int>): int {
    if xs == [] then 0 else Billed(xs[..|xs| - 1]) + Max(xs[|xs| - 1], 0)
  }

  /** The ledger's sum for one debate. */
  function LedgerSum(l: seq<Spend>, k: nat): int {
    if l == [] then 0
    else LedgerSum(l[..|l| - 1], k) + if l[|l| - 1].debate == k then l[|l| - 1].costMicros else 0
  }

  /** SumOrgDebateSpendMicros: one org's entries with from <= incurred_at < to. */
  function OrgSpend(l: seq<Spend>, org: nat, from: Time, to: Time): int {
    if l == [] then 0
    else
      var s := l[|l| - 1];
      OrgSpend(l[..|l| - 1], org, from, to) + if s.org == org && from <= s.incurredAt < to then s.costMicros else 0
  }

  /** What the round rows of a debate say they cost. */
  function ColumnSum(rs: seq<Round>): int {
    if rs == [] then 0 else ColumnSum(rs[..|rs| - 1]) + Price(rs[|rs| - 1])
  }

  function Price(r: Round): int {
    r.costMicros + if r.scorerCostMicros.Some? then r.scorerCostMicros.value else 0
  }

  // ----- charges of a run -----

  /** What an event charged to debate k, if its transaction committed. */
  function Charged(cfg: Config, w: World, e: Event, k: nat): seq<int> {
    if |w.db.debates| <= k then []
    else match e
      case RefinerReturns(id, reply) =>
        if id in w.requests && !w.requests[id].returned && w.requests[id].debate == k && Usable(cfg, reply)
           && InsertRow(w.db.debates[k], w.nextId, SuggestionOf(reply), w.requests[id].snapshot).Success?
        then [reply.costMicros] else []
      case ScorerReturns(job, res) =>
        if job in w.jobs && job.debate == k && FindRound(w.db.debates[k].rounds, job.round).Some?
        then [res.costMicros] else []
      case _ => []
  }

  function Charges(cfg: Config, w: World, es: seq<Event>, k: nat): seq<int> {
    if es == [] then []
    else Charges(cfg, w, es[..|es| - 1], k) + Charged(cfg, Run(cfg, w, es[..|es| - 1]), es[|es| - 1], k)
  }

  /** Every entry is a real charge. */
  ghost predicate LedgerOk(l: seq<Spend>) {
    forall i :: 0 <= i < |l| ==> 0 < l[i].costMicros
  }

  lemma AppendSums(l: seq<Spend>, s: Spend, k: nat)
    ensures LedgerSum(Charge(l, s), k) == LedgerSum(l, k) + if s.debate == k then Max(s.costMicros, 0) else 0
    ensures LedgerOk(l) ==> LedgerOk(Charge(l, s))
  {
  }

  /** The ledger entry an event tries to make for debate j. */
  function Entry(w: World, e: Event, j: nat): Spend
    requires j < |w.db.debates| && ((e.RefinerReturns? && e.reply.Text?) || e.ScorerReturns?)
  {
    if e.ScorerReturns?
    then Spend(w.db.debates[j].org, j, e.job.round, ScorerSpend, e.result.costMicros, w.now)
    else Spend(w.db.debates[j].org, j, w.nextId, RoundSpend, e.reply.costMicros, w.now)
  }

  /** The debate an event charges, if it charges one. */
  function Payer(cfg: Config, w: World, e: Event): Option<nat> {
    match e
    case RefinerReturns(id, _) =>
      if id in w.requests && Charged(cfg, w, e, w.requests[id].debate) != [] then Some(w.requests[id].debate) else None
    case ScorerReturns(job, _) => if Charged(cfg, w, e, job.debate) != [] then Some(job.debate) else None
    case _ => None
  }

  /** The ledger gains at most one entry, for the debate the event charges. */
  lemma StepLedger(cfg: Config, w: World, e: Event)
    ensures var p, l' := Payer(cfg, w, e), Step(cfg, w, e).db.ledger;
      if p.Some? then l' == Charge(w.db.ledger, Entry(w, e, p.value)) else l' == w.db.ledger
  {
    if e.RefinerReturns? {
      ReplyLedger(cfg, w, e);
    } else if e.ScorerReturns? {
    } else if e.Reserve? || e.Accept? || e.Reject? || e.Undo? {
    }
  }

  lemma ReplyLedger(cfg: Config, w: World, e: Event)
    requires e.RefinerReturns?
    ensures var p, l' := Payer(cfg, w, e), Step(cfg, w, e).db.ledger;
      if p.Some? then l' == Charge(w.db.ledger, Entry(w, e, p.value)) else l' == w.db.ledger
  {
  }

  lemma OnlyPayerIsCharged(cfg: Config, w: World, e: Event, k: nat)
    ensures var p := Payer(cfg, w, e);
      Charged(cfg, w, e, k) == if p == Some(k) then [Entry(w, e, k).costMicros] else []
  {
  }

  lemma StepBooks(cfg: Config, w: World, e: Event, k: nat)
    ensures LedgerSum(Step(cfg, w, e).db.ledger, k) == LedgerSum(w.db.ledger, k) + Billed(Charged(cfg, w, e, k))
    ensures LedgerOk(w.db.ledger) ==> LedgerOk(Step(cfg, w, e).db.ledger)
    ensures w.db.ledger <= Step(cfg, w, e).db.ledger
  {
    StepLedger(cfg, w, e);
    OnlyPayerIsCharged(cfg, w, e, k);
    var p := Payer(cfg, w, e);
    if p.Some? { AppendSums(w.db.ledger, Entry(w, e, p.value), k); }
    assert forall c: int :: Billed([c]) == Max(c, 0);
  }

  lemma StepTotals(cfg: Config, w: World, e: Event, k: nat)
    requires k < |w.db.debates|
    ensures RowAfter(cfg, w, e, k).totalMicros == w.db.debates[k].totalMicros + Sum(Charged(cfg, w, e, k))
  {
  }

  lemma {:induction false} SumAppend(a: seq<int>, b: seq<int>)
    ensures Sum(a + b) == Sum(a) + Sum(b) && Billed(a + b) == Billed(a) + Billed(b)
  {
    if b == [] {
      assert a + b == a;
    } else {
      assert (a + b)[..|a + b| - 1] == a + b[..|b| - 1];
      SumAppend(a, b[..|b| - 1]);
    }
  }

  lemma {:induction false} BilledExceedsSum(xs: seq<int>)
    ensures Sum(xs) <= Billed(xs)
    ensures Sum(xs) == Billed(xs) <==> forall i :: 0 <= i < |xs| ==> 0 <= xs[i]
  {
    if xs != [] {
      var ys := xs[..|xs| - 1];
      BilledExceedsSum(ys);
      assert forall i :: 0 <= i < |ys| ==> ys[i] == xs[i];
    }
  }

  /** Where each debate's total and its part of the ledger come from. */
  lemma {:induction false} BooksOfARun(cfg: Config, tickets: map<nat, string>, now: Time, es: seq<Event>, k: nat)
    ensures var w := Genesis(tickets, now);
      var v, cs := Run(cfg, w, es), Charges(cfg, w, es, k);
      && LedgerOk(v.db.ledger)
      && LedgerSum(v.db.ledger, k) == Billed(cs)
      && (if k < |v.db.debates| then v.db.debates[k].totalMicros == Sum(cs) else cs == [])
  {
    if es != [] {
      var w, before, e := Genesis(tickets, now), es[..|es| - 1], es[|es| - 1];
      var v := Run(cfg, w, before);
      BooksOfARun(cfg, tickets, now, before, k);
      StepOnRows(cfg, v, e);
      StepBooks(cfg, v, e, k);
      SumAppend(Charges(cfg, w, before, k), Charged(cfg, v, e, k));
      if k < |v.db.debates| { StepTotals(cfg, v, e, k); }
    }
  }

  /** total_cost_micros never exceeds what the ledger holds for the debate, and equals it exactly
      when no call was charged a negative price. */
  lemma LedgerMatchesTotalIff(cfg: Config, tickets: map<nat, string>, now: Time, es: seq<Event>, k: nat)
    requires k < |Run(cfg, Genesis(tickets, now), es).db.debates|
    ensures var v, cs := Run(cfg, Genesis(tickets, now), es), Charges(cfg, Genesis(tickets, now), es, k);
      && v.db.debates[k].totalMicros <= LedgerSum(v.db.ledger, k)
      && (v.db.debates[k].totalMicros == LedgerSum(v.db.ledger, k) <==> forall i :: 0 <= i < |cs| ==> 0 <= cs[i])
  {
    BooksOfARun(cfg, tickets, now, es, k);
    BilledExceedsSum(Charges(cfg, Genesis(tickets, now), es, k));
  }

  // ----- the columns of surviving rounds -----

  ghost predicate PricesOk(rs: seq<Round>) {
    forall i :: 0 <= i < |rs| ==>
      0 <= rs[i].costMicros && (rs[i].scorerCostMicros.Some? ==> 0 <= rs[i].scorerCostMicros.value)
  }

  lemma {:induction false} ColumnPrefix(rs: seq<Round>, n: nat)
    requires PricesOk(rs) && n <= |rs|
    ensures 0 <= ColumnSum(rs[..n]) <= ColumnSum(rs)
  {
    if n < |rs| {
      ColumnPrefix(rs[..|rs| - 1], n);
      assert rs[..|rs| - 1][..n] == rs[..n];
    } else {
      assert rs[..n] == rs;
      if n > 0 {
        ColumnPrefix(rs[..n - 1], n - 1);
        assert rs[..n - 1][..n - 1] == rs[..n - 1];
      }
    }
  }

  lemma {:induction false} ColumnUpdate(rs: seq<Round>, i: nat, r: Round)
    requires i < |rs|
    ensures ColumnSum(rs[i := r]) == ColumnSum(rs) - Price(rs[i]) + Price(r)
  {
    var n := |rs| - 1;
    if i < n {
      ColumnUpdate(rs[..n], i, r);
      assert rs[i := r][..n] == rs[..n][i := r];
    } else {
      assert rs[i := r][..n] == rs[..n];
    }
  }

  /** No charge of the run is negative. */
  ghost predicate FairPrices(es: seq<Event>) {
    forall i :: 0 <= i < |es| ==>
      && (es[i].RefinerReturns? && es[i].reply.Text? ==> 0 <= es[i].reply.costMicros)
      && (es[i].ScorerReturns? ==> 0 <= es[i].result.costMicros)
  }

  lemma ScoreColumns(d: Debate, id: nat, res: ScoreResult, now: Time)
    requires PricesOk(d.rounds) && 0 <= res.costMicros
    ensures var r := ScoreRow(d, id, res, now); r.Success? ==>
      PricesOk(r.value.rounds) && ColumnSum(r.value.rounds) <= ColumnSum(d.rounds) + res.costMicros
  {
    var at := FindRound(d.rounds, id);
    if at.Some? {
      ColumnUpdate(d.rounds, at.value, d.rounds[at.value].(scorerCostMicros := Some(res.costMicros)));
    }
  }

  lemma DecisionColumns(rs: seq<Round>, at: nat, r: Round)
    requires PricesOk(rs) && at < |rs|
    requires r.costMicros == rs[at].costMicros && r.scorerCostMicros == rs[at].scorerCostMicros
    ensures PricesOk(rs[at := r]) && ColumnSum(rs[at := r]) == ColumnSum(rs)
  {
    ColumnUpdate(rs, at, r);
  }

  lemma UndoColumns(d: Debate, from: int, nextId: nat, now: Time)
    requires RowInv(d, nextId, now) && PricesOk(d.rounds)
    ensures var r := UndoRow(d, from); r.Success? ==>
      PricesOk(r.value.rounds) && ColumnSum(r.value.rounds) <= ColumnSum(d.rounds)
  {
    if 1 <= from {
      UndoTouchesNothingElse(d, from);
      if from <= |d.rounds| { ColumnPrefix(d.rounds, from - 1); }
    }
  }

  lemma InsertColumns(d: Debate, id: nat, s: Suggestion, snapshot: string)
    requires PricesOk(d.rounds) && 0 <= s.costMicros
    ensures var r := InsertRow(d, id, s, snapshot); r.Success? ==>
      PricesOk(r.value.rounds) && ColumnSum(r.value.rounds) == ColumnSum(d.rounds) + s.costMicros
  {
  }

  lemma StepColumns(cfg: Config, w: World, e: Event, k: nat)
    requires RowsInv(w) && k < |w.db.debates| && PricesOk(w.db.debates[k].rounds) && FairPrices([e])
    ensures PricesOk(RowAfter(cfg, w, e, k).rounds)
    ensures ColumnSum(RowAfter(cfg, w, e, k).rounds) <= ColumnSum(w.db.debates[k].rounds) + Billed(Charged(cfg, w, e, k))
  {
    assert [e][0] == e;
    if e.RefinerReturns? || e.ScorerReturns? {
      ChargeColumns(cfg, w, e, k);
    } else {
      FreeColumns(cfg, w, e, k);
    }
  }

  lemma ChargeColumns(cfg: Config, w: World, e: Event, k: nat)
    requires k < |w.db.debates| && PricesOk(w.db.debates[k].rounds)
    requires
      || (e.RefinerReturns? && (e.reply.Text? ==> 0 <= e.reply.costMicros))
      || (e.ScorerReturns? && 0 <= e.result.costMicros)
    ensures PricesOk(RowAfter(cfg, w, e, k).rounds)
    ensures ColumnSum(RowAfter(cfg, w, e, k).rounds) <= ColumnSum(w.db.debates[k].rounds) + Billed(Charged(cfg, w, e, k))
  {
    var d := w.db.debates[k];
    assert forall c: int :: Billed([c]) == Max(c, 0);
    if e.ScorerReturns? {
      ScoreColumns(d, e.job.round, e.result, w.now);
    } else if e.request in w.requests && e.reply.Text? {
      InsertColumns(d, w.nextId, SuggestionOf(e.reply), w.requests[e.request].snapshot);
    }
  }

  lemma FreeColumns(cfg: Config, w: World, e: Event, k: nat)
    requires RowsInv(w) && k < |w.db.debates| && PricesOk(w.db.debates[k].rounds)
    requires !e.RefinerReturns? && !e.ScorerReturns?
    ensures PricesOk(RowAfter(cfg, w, e, k).rounds) && Charged(cfg, w, e, k) == []
    ensures ColumnSum(RowAfter(cfg, w, e, k).rounds) <= ColumnSum(w.db.debates[k].rounds)
  {
    if e.Undo? {
      UndoColumns(w.db.debates[k], e.from, w.nextId, w.now);
    } else if e.Accept? || e.Reject? {
      DecidedColumns(cfg, w, e, k);
    } else {
      SameRounds(cfg, w, e, k);
    }
  }

  lemma DecidedColumns(cfg: Config, w: World, e: Event, k: nat)
    requires k < |w.db.debates| && PricesOk(w.db.debates[k].rounds) && (e.Accept? || e.Reject?)
    ensures PricesOk(RowAfter(cfg, w, e, k).rounds)
    ensures ColumnSum(RowAfter(cfg, w, e, k).rounds) == ColumnSum(w.db.debates[k].rounds)
  {
    var d := w.db.debates[k];
    var at := FindRound(d.rounds, e.round);
    if at.Some? && RowAfter(cfg, w, e, k) != d {
      DecisionColumns(d.rounds, at.value, RowAfter(cfg, w, e, k).rounds[at.value]);
    }
  }

  lemma SameRounds(cfg: Config, w: World, e: Event, k: nat)
    requires k < |w.db.debates|
    requires !e.RefinerReturns? && !e.ScorerReturns? && !e.Undo? && !e.Accept? && !e.Reject?
    ensures RowAfter(cfg, w, e, k).rounds == w.db.debates[k].rounds
  {
  }

  /** With fair prices, the rounds that survive never claim more than the ledger holds. */
  lemma {:induction false} ColumnsWithinLedger(cfg: Config, tickets: map<nat, string>, now: Time, es: seq<Event>, k: nat)
    requires FairPrices(es) && k < |Run(cfg, Genesis(tickets, now), es).db.debates|
    ensures var v := Run(cfg, Genesis(tickets, now), es);
      PricesOk(v.db.debates[k].rounds) && ColumnSum(v.db.debates[k].rounds) <= LedgerSum(v.db.ledger, k)
  {
    var w, before, e := Genesis(tickets, now), es[..|es| - 1], es[|es| - 1];
    var v := Run(cfg, w, before);
    RunKeepsRows(cfg, w, before);
    StepOnRows(cfg, v, e);
    StepBooks(cfg, v, e, k);
    assert FairPrices([e]) by { assert [e][0] == es[|es| - 1]; }
    if k < |v.db.debates| {
      ColumnsWithinLedger(cfg, tickets, now, before, k);
      StepColumns(cfg, v, e, k);
    } else {
      BooksOfARun(cfg, tickets, now, before, k);
    }
  }

  // ----- the budget -----

  datatype Verdict = Allowed | BudgetExceeded

  /** checkOrgBudget, for the month [from, to). */
  function CheckOrgBudget(l: seq<Spend>, org: nat, capCents: Option<int>, from: Time, to: Time): Verdict {
    if capCents.Some? && capCents.value * 10000 <= OrgSpend(l, org, from, to) then BudgetExceeded else Allowed
  }

  /** The budget is exceeded exactly when there is a cap and the whole cents spent have reached it. */
  lemma ExceededIff(l: seq<Spend>, org: nat, capCents: Option<int>, from: Time, to: Time)
    ensures CheckOrgBudget(l, org, capCents, from, to) == BudgetExceeded <==>
      capCents.Some? && capCents.value <= OrgSpend(l, org, from, to) / 10_000
  {
  }

  /** What counts as spent: each entry of the org in the month, from included and to excluded, in any
      order of the ledger, and nothing else. */
  lemma {:induction false} OrgSpendIsMonthly(a: seq<Spend>, s: Spend, b: seq<Spend>, org: nat, from: Time, to: Time)
    ensures OrgSpend([], org, from, to) == 0
    ensures OrgSpend(a + [s] + b, org, from, to) ==
      OrgSpend(a + b, org, from, to) + if s.org == org && from <= s.incurredAt && s.incurredAt < to then s.costMicros else 0
  {
    if b == [] {
      assert (a + [s] + b)[..|a|] == a && (a + [s] + b)[|a|] == s && a + b == a && |a + [s] + b| == |a| + 1;
    } else {
      var n := |b| - 1;
      OrgSpendIsMonthly(a, s, b[..n], org, from, to);
      assert (a + [s] + b)[..|a| + 1 + n] == a + [s] + b[..n] && (a + b)[..|a| + n] == a + b[..n];
    }
  }

  /** The ledger is append-only. */
  lemma {:induction false} LedgerOnlyGrows(cfg: Config, w: World, es: seq<Event>)
    ensures w.db.ledger <= Run(cfg, w, es).db.ledger
    ensures LedgerOk(w.db.ledger) ==> LedgerOk(Run(cfg, w, es).db.ledger)
  {
    if es != [] {
      var v, e := Run(cfg, w, es[..|es| - 1]), es[|es| - 1];
      LedgerOnlyGrows(cfg, w, es[..|es| - 1]);
      StepBooks(cfg, v, e, 0);
    }
  }

  lemma {:induction false} OrgSpendGrows(a: seq<Spend>, b: seq<Spend>, org: nat, from: Time, to: Time)
    requires a <= b && LedgerOk(b)
    ensures OrgSpend(a, org, from, to) <= OrgSpend(b, org, from, to)
  {
    if a != b { OrgSpendGrows(a, b[..|b| - 1], org, from, to); }
  }

  /** Once a month's budget is exceeded in a reachable state it stays exceeded, whatever is undone,
      abandoned or scored afterwards, as long as the cap is neither raised nor cleared. */
  lemma BudgetStaysExceeded(
    cfg: Config, tickets: map<nat, string>, now: Time, es: seq<Event>, fs: seq<Event>,
    org: nat, cap: int, cap': int, from: Time, to: Time)
    requires cap' <= cap
    requires CheckOrgBudget(Run(cfg, Genesis(tickets, now), es).db.ledger, org, Some(cap), from, to) == BudgetExceeded
    ensures var w := Run(cfg, Genesis(tickets, now), es);
      CheckOrgBudget(Run(cfg, w, fs).db.ledger, org, Some(cap'), from, to) == BudgetExceeded
  {
    var w := Run(cfg, Genesis(tickets, now), es);
    LedgerOnlyGrows(cfg, Genesis(tickets, now), es);
    LedgerOnlyGrows(cfg, w, fs);
    OrgSpendGrows(w.db.ledger, Run(cfg, w, fs).db.ledger, org, from, to);
  }
}
