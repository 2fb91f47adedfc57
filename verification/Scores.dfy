/**
 Effort scores. Scorer calls come back in any order, late, more than once, or after their
 round was undone. The score on display is always that of the freshest round scored since
 the last undo, and scoring always saw the text that shipped.
 */
module Scores {
  import opened Prelude
  import opened Debates
  import opened Protocol
  import opened Lineage
  import opened Runs

  // ----- jobs -----

  /** As long as the round of a job lives, it is accepted and the job carries what it shipped. */
  ghost predicate JobOk(w: World, job: Job) {
    && job.debate < |w.db.debates| && job.round < w.nextId
    && forall i :: 0 <= i < |w.db.debates[job.debate].rounds| && w.db.debates[job.debate].rounds[i].id == job.round ==>
      var r := w.db.debates[job.debate].rounds[i];
      r.status == Accepted && job.text == ShippedText(r)
  }

  ghost predicate JobsOk(w: World) {
    forall job :: job in w.jobs ==> JobOk(w, job)
  }

  lemma JobStaysOk(cfg: Config, w: World, e: Event, job: Job)
    requires RowsInv(w) && JobOk(w, job)
    ensures JobOk(Step(cfg, w, e), job)
  {
    StepGrows(cfg, w, e);
    StepOnRows(cfg, w, e);
    StepEvolves(cfg, w, e, job.debate);
    JobRoundStaysOk(w.db.debates[job.debate].rounds, Step(cfg, w, e).db.debates[job.debate].rounds, job, w.nextId);
  }

  lemma JobRoundStaysOk(rs: seq<Round>, rs': seq<Round>, job: Job, nextId: nat)
    requires Evolves(rs, rs', nextId) && job.round < nextId
    requires forall i :: 0 <= i < |rs| && rs[i].id == job.round ==>
      rs[i].status == Accepted && job.text == ShippedText(rs[i])
    ensures forall i :: 0 <= i < |rs'| && rs'[i].id == job.round ==>
      rs'[i].status == Accepted && job.text == ShippedText(rs'[i])
  {
    forall i | 0 <= i < |rs'| && rs'[i].id == job.round
      ensures rs'[i].status == Accepted && job.text == ShippedText(rs'[i])
    {
      assert rs[i].id == rs'[i].id;
      CoreParts(rs[i], rs'[i]);
    }
  }

  /** An id names one round of its debate. */
  lemma IdIsUnique(rs: seq<Round>, nextId: nat, i: nat)
    requires IdsGrow(rs, nextId) && i < |rs|
    ensures FindRound(rs, rs[i].id) == Some(i)
    ensures forall j :: 0 <= j < |rs| && rs[j].id == rs[i].id ==> j == i
  {
  }

  lemma ShippedJobOk(d: Debate, nextId: nat, now: Time, i: nat)
    requires RowInv(d, nextId, now) && i < |d.rounds| && d.rounds[i].status == Accepted
    ensures forall j :: 0 <= j < |d.rounds| && d.rounds[j].id == d.rounds[i].id ==> d.rounds[j] == d.rounds[i]
    ensures d.rounds[i].id < nextId && SqlShippedText(d.rounds[i]) == ShippedText(d.rounds[i])
  {
    IdIsUnique(d.rounds, nextId, i);
    ShippedTextsAgree(d.rounds[i]);
  }

  lemma AcceptedJobOk(cfg: Config, w: World, e: Event, job: Job)
    requires e.Accept? && RowsInv(w) && job in Step(cfg, w, e).jobs && job !in w.jobs
    ensures JobOk(Step(cfg, w, e), job)
  {
    AcceptStarts(cfg, w, e, job);
    AcceptedRound(w.db.debates[e.debate], e.round, e.edited, w.nextId, w.now);
  }

  /** The job an accept starts carries the text of its own round in the new row. */
  lemma AcceptStarts(cfg: Config, w: World, e: Event, job: Job)
    requires e.Accept? && job in Step(cfg, w, e).jobs && job !in w.jobs
    ensures e.debate < |w.db.debates|
    ensures var r, w' := AcceptRow(w.db.debates[e.debate], e.round, e.edited, w.now), Step(cfg, w, e);
      && r.Success? && w'.nextId == w.nextId && w'.db.debates == w.db.debates[e.debate := r.value]
      && var at := FindRound(r.value.rounds, e.round);
        at.Some? && job == Job(e.debate, e.round, ShippedText(r.value.rounds[at.value]))
  {
  }

  lemma AcceptedRound(d: Debate, id: nat, edited: Option<string>, nextId: nat, now: Time)
    requires RowInv(d, nextId, now) && AcceptRow(d, id, edited, now).Success?
    ensures var rs := AcceptRow(d, id, edited, now).value.rounds;
      var at := FindRound(rs, id);
      at.Some? && id < nextId && forall j :: 0 <= j < |rs| && rs[j].id == id ==>
        rs[j].status == Accepted && rs[j] == rs[at.value]
  {
    var d' := AcceptRow(d, id, edited, now).value;
    AcceptKeeps(d, id, edited, nextId, now);
    AcceptedRow(d, id, edited, now);
    var i := FindRound(d.rounds, id).value;
    IdIsUnique(d'.rounds, nextId, i);
  }

  lemma AcceptedRow(d: Debate, id: nat, edited: Option<string>, now: Time)
    requires AcceptRow(d, id, edited, now).Success?
    ensures var rs, at := AcceptRow(d, id, edited, now).value.rounds, FindRound(d.rounds, id);
      at.Some? && at.value < |rs| && rs[at.value].status == Accepted && rs[at.value].id == id
  {
  }

  lemma ClaimedJobOk(cfg: Config, w: World, e: Event, job: Job)
    requires e.Sweep? && RowsInv(w) && job in Step(cfg, w, e).jobs && job !in w.jobs
    ensures JobOk(Step(cfg, w, e), job)
  {
    var d, d' := w.db.debates[job.debate], Step(cfg, w, e).db.debates[job.debate];
    assert d'.rounds == d.rounds;
    var r := LatestAccepted(d.rounds).value;
    var i :| 0 <= i < |d.rounds| && d.rounds[i] == r;
    ShippedJobOk(d, w.nextId, w.now, i);
  }

  lemma {:induction false} RunKeepsJobs(cfg: Config, w: World, es: seq<Event>)
    requires RowsInv(w) && JobsOk(w)
    ensures JobsOk(Run(cfg, w, es))
  {
    if es != [] {
      var v, e := Run(cfg, w, es[..|es| - 1]), es[|es| - 1];
      RunKeepsJobs(cfg, w, es[..|es| - 1]);
      RunKeepsRows(cfg, w, es[..|es| - 1]);
      forall job | job in Step(cfg, v, e).jobs ensures JobOk(Step(cfg, v, e), job) {
        if job in v.jobs {
          JobStaysOk(cfg, v, e, job);
        } else if e.Accept? {
          AcceptedJobOk(cfg, v, e, job);
        } else {
          ClaimedJobOk(cfg, v, e, job);
        }
      }
    }
  }

  // ----- late scores -----

  ghost predicate Gone(w: World, k: nat, id: nat) {
    && k < |w.db.debates| && id < w.nextId
    && forall i :: 0 <= i < |w.db.debates[k].rounds| ==> w.db.debates[k].rounds[i].id != id
  }

  lemma GoneStaysGone(cfg: Config, w: World, es: seq<Event>, k: nat, id: nat)
    requires RowsInv(w) && Gone(w, k, id)
    ensures Gone(Run(cfg, w, es), k, id)
  {
    RunEvolves(cfg, w, es, k);
    RunGrows(cfg, w, es);
  }

  lemma MissingRoundRollsBack(cfg: Config, w: World, job: Job, res: ScoreResult)
    requires Gone(w, job.debate, job.round)
    ensures Step(cfg, w, ScorerReturns(job, res)) == w
  {
  }

  /** Once a round is gone, no result for it changes anything, in any later state: not the new
      round that took its number, not the total, not the ledger. */
  lemma DeletedRoundNeverScored(cfg: Config, w: World, es: seq<Event>, job: Job, res: ScoreResult)
    requires RowsInv(w) && Gone(w, job.debate, job.round)
    ensures var v := Run(cfg, w, es); Step(cfg, v, ScorerReturns(job, res)) == v
  {
    GoneStaysGone(cfg, w, es, job.debate, job.round);
    MissingRoundRollsBack(cfg, Run(cfg, w, es), job, res);
  }

  // ----- the score on display -----

  /** A result that reached a live round of an active or approved debate. */
  datatype Delivery = Delivery(round: nat, number: int, result: ScoreResult)

  function Landed(w: World, e: Event, k: nat): seq<Delivery> {
    if e.ScorerReturns? && e.job in w.jobs && e.job.debate == k < |w.db.debates| then
      var d := w.db.debates[k];
      var at := FindRound(d.rounds, e.job.round);
      if at.Some? && d.status != Abandoned then [Delivery(e.job.round, d.rounds[at.value].number, e.result)] else []
    else []
  }

  predicate Undoes(w: World, e: Event, k: nat) {
    e.Undo? && e.debate == k < |w.db.debates| && UndoRow(w.db.debates[k], e.from).Success?
  }

  /** What a run delivered to debate k since its last undo, in order of arrival. */
  function Deliveries(cfg: Config, w: World, es: seq<Event>, k: nat): seq<Delivery> {
    if es == [] then []
    else
      var v, e := Run(cfg, w, es[..|es| - 1]), es[|es| - 1];
      if Undoes(v, e, k) then [] else Deliveries(cfg, w, es[..|es| - 1], k) + Landed(v, e, k)
  }

  /** Delivery i is for the highest round number, and the first to arrive for it. */
  ghost predicate Wins(ds: seq<Delivery>, i: int) {
    && 0 <= i < |ds|
    && forall j :: 0 <= j < |ds| ==> ds[j].number < ds[i].number || (ds[j].number == ds[i].number && i <= j)
  }

  /** Every column holds its part of the result. */
  ghost predicate ShowsResult(e: Effort, res: ScoreResult, at: Time) {
    && e.score == Some(res.score) && e.hours == Some(res.hours) && e.reasoning == Some(res.reasoning)
    && e.provider == Some(res.provider) && e.model == Some(res.model) && e.scoredAt == Some(at)
  }

  ghost predicate Shows(d: Debate, x: Delivery) {
    && d.lastScored == Some(x.round)
    && d.effort.scoredAt.Some?
    && ShowsResult(d.effort, x.result, d.effort.scoredAt.value)
  }

  ghost predicate ShowsNothing(d: Debate) {
    && d.lastScored.None? && d.effort.score.None? && d.effort.hours.None?
    && d.effort.reasoning.None? && d.effort.scoredAt.None?
  }

  /** Each delivery still names its round: live, accepted and under the number it had. */
  ghost predicate AllLive(d: Debate, ds: seq<Delivery>) {
    forall j :: 0 <= j < |ds| ==>
      var i := ds[j].number - 1;
      0 <= i < |d.rounds| && d.rounds[i].id == ds[j].round && d.rounds[i].status == Accepted
  }

  ghost predicate ShowsWinner(d: Debate, ds: seq<Delivery>) {
    if ds == [] then ShowsNothing(d) else exists i :: Wins(ds, i) && Shows(d, ds[i])
  }

  ghost predicate ShowsFreshest(d: Debate, ds: seq<Delivery>) {
    AllLive(d, ds) && ShowsWinner(d, ds)
  }

  lemma MoveKeepsLive(d: Debate, d': Debate, ds: seq<Delivery>, id: nat)
    requires AllLive(d, ds) && RoundsMove(d.rounds, d'.rounds, id)
    requires Truncated(d.rounds, d'.rounds) ==> d'.rounds == d.rounds
    ensures AllLive(d', ds)
  {
    forall j | 0 <= j < |ds|
      ensures var i := ds[j].number - 1;
        0 <= i < |d'.rounds| && d'.rounds[i].id == ds[j].round && d'.rounds[i].status == Accepted
    {
      var i, rs, rs' := ds[j].number - 1, d.rounds, d'.rounds;
      assert rs[i].status == Accepted;
      if SameCores(rs, rs') {
        CoreParts(rs[i], rs'[i]);
      } else if Appended(rs, rs', id) {
        assert rs'[..|rs|][i] == rs[i];
      } else if JustDecided(rs, rs') {
        assert rs'[..|rs| - 1][i] == rs[..|rs| - 1][i];
      }
    }
  }

  /** Events other than undo and a landing score leave the display alone. */
  lemma DisplayMoves(cfg: Config, w: World, e: Event, k: nat)
    requires k < |w.db.debates| && Landed(w, e, k) == [] && !Undoes(w, e, k)
    ensures var d, d' := w.db.debates[k], RowAfter(cfg, w, e, k);
      d'.lastScored == d.lastScored && d'.effort == d.effort
  {
  }

  /** Which delivery is on display after one more lands: it takes over only with a higher number. */
  lemma WinnerMoves(ds: seq<Delivery>, i: int, x: Delivery)
    requires Wins(ds, i)
    ensures Wins(ds + [x], if ds[i].number < x.number then |ds| else i)
  {
  }

  /** The SQL comparison of round numbers decides as the reference does. */
  lemma FresherIsHigher(rs: seq<Round>, nextId: nat, i: nat, j: nat)
    requires IdsGrow(rs, nextId) && Numbered(rs) && i < |rs| && j < |rs|
    ensures Fresher(rs, rs[i].id, rs[j].id) <==> i < j
  {
  }

  lemma LandingLive(d: Debate, d': Debate, ds: seq<Delivery>, x: Delivery)
    requires AllLive(d, ds) && AllLive(d, [x]) && SameCores(d.rounds, d'.rounds)
    ensures AllLive(d', ds + [x])
  {
  }

  lemma TakesIffHigher(d: Debate, y: Delivery, x: Delivery, nextId: nat)
    requires IdsGrow(d.rounds, nextId) && Numbered(d.rounds) && AllLive(d, [y]) && AllLive(d, [x])
    requires d.lastScored == Some(y.round) && d.status != Abandoned
    ensures TakesScore(d, x.round) <==> y.number < x.number
  {
    assert [x][0] == x && [y][0] == y;
    FresherIsHigher(d.rounds, nextId, y.number - 1, x.number - 1);
  }

  /** Taking the score exactly when its round number is higher keeps the winner on display. */
  lemma LandingShows(d: Debate, d': Debate, ds: seq<Delivery>, i: int, x: Delivery, now: Time)
    requires Wins(ds, i) && Shows(d, ds[i])
    requires d'.lastScored == if ds[i].number < x.number then Some(x.round) else d.lastScored
    requires d'.effort == if ds[i].number < x.number then EffortOf(x.result, now) else d.effort
    ensures ShowsWinner(d', ds + [x])
  {
    var ds' := ds + [x];
    WinnerMoves(ds, i, x);
    var i' := if ds[i].number < x.number then |ds| else i;
    assert Wins(ds', i') && Shows(d', ds'[i']);
  }

  lemma LandingOnRow(d: Debate, d': Debate, ds: seq<Delivery>, x: Delivery, nextId: nat, now: Time)
    requires IdsGrow(d.rounds, nextId) && Numbered(d.rounds) && ShowsFreshest(d, ds)
    requires Lands(d, d', x, now)
    ensures ShowsFreshest(d', ds + [x])
  {
    LandingLive(d, d', ds, x);
    if ds == [] {
      FirstLanding(d, d', x, now);
    } else {
      var i :| Wins(ds, i) && Shows(d, ds[i]);
      NextLanding(d, d', ds, i, x, nextId, now);
    }
  }

  lemma FirstLanding(d: Debate, d': Debate, x: Delivery, now: Time)
    requires Lands(d, d', x, now) && ShowsNothing(d)
    ensures ShowsWinner(d', [] + [x])
  {
    var ds' := [] + [x];
    assert Wins(ds', 0) && Shows(d', ds'[0]);
  }

  lemma NextLanding(d: Debate, d': Debate, ds: seq<Delivery>, i: int, x: Delivery, nextId: nat, now: Time)
    requires IdsGrow(d.rounds, nextId) && Numbered(d.rounds) && AllLive(d, ds)
    requires Lands(d, d', x, now) && Wins(ds, i) && Shows(d, ds[i])
    ensures ShowsWinner(d', ds + [x])
  {
    assert AllLive(d, [ds[i]]);
    TakesIffHigher(d, ds[i], x, nextId);
    LandingShows(d, d', ds, i, x, now);
  }

  /** What a landing score does to the columns on display. */
  ghost predicate Lands(d: Debate, d': Debate, x: Delivery, now: Time) {
    && AllLive(d, [x]) && d.status != Abandoned && SameCores(d.rounds, d'.rounds)
    && d'.lastScored == (if TakesScore(d, x.round) then Some(x.round) else d.lastScored)
    && d'.effort == (if TakesScore(d, x.round) then EffortOf(x.result, now) else d.effort)
  }

  lemma LandingRow(cfg: Config, w: World, e: Event, k: nat)
    requires JobsOk(w) && k < |w.db.debates| && Landed(w, e, k) != [] && Numbered(w.db.debates[k].rounds)
    ensures |Landed(w, e, k)| == 1
    ensures Lands(w.db.debates[k], RowAfter(cfg, w, e, k), Landed(w, e, k)[0], w.now)
  {
  }

  lemma LandingStep(cfg: Config, w: World, e: Event, k: nat, ds: seq<Delivery>)
    requires RowsInv(w) && JobsOk(w) && k < |w.db.debates| && ShowsFreshest(w.db.debates[k], ds)
    requires Landed(w, e, k) != []
    ensures ShowsFreshest(RowAfter(cfg, w, e, k), ds + Landed(w, e, k))
  {
    assert RowInv(w.db.debates[k], w.nextId, w.now);
    LandingRow(cfg, w, e, k);
    var x := Landed(w, e, k)[0];
    assert Landed(w, e, k) == [x];
    LandingOnRow(w.db.debates[k], RowAfter(cfg, w, e, k), ds, x, w.nextId, w.now);
  }

  lemma StepShows(cfg: Config, w: World, e: Event, k: nat, ds: seq<Delivery>)
    requires RowsInv(w) && JobsOk(w) && k < |w.db.debates| && ShowsFreshest(w.db.debates[k], ds)
    ensures ShowsFreshest(RowAfter(cfg, w, e, k), if Undoes(w, e, k) then [] else ds + Landed(w, e, k))
  {
    var d := w.db.debates[k];
    if Undoes(w, e, k) {
    } else if Landed(w, e, k) != [] {
      LandingStep(cfg, w, e, k, ds);
    } else {
      StepMoves(cfg, w, e, k);
      assert Truncated(d.rounds, RowAfter(cfg, w, e, k).rounds) ==> RowAfter(cfg, w, e, k).rounds == d.rounds by {
        assert e.Undo? && e.debate == k ==> RowAfter(cfg, w, e, k) == d;
      }
      MoveKeepsLive(d, RowAfter(cfg, w, e, k), ds, w.nextId);
      DisplayMoves(cfg, w, e, k);
      assert ds + [] == ds;
      if ds != [] {
        var i :| Wins(ds, i) && Shows(d, ds[i]);
        assert Shows(RowAfter(cfg, w, e, k), ds[i]);
      }
    }
  }

  /** In every reachable state the display shows, with all its columns from one result, the first
      result delivered for the highest-numbered round scored since the last undo, and that round
      is live and accepted; with nothing delivered since, it shows no score. */
  lemma {:induction false} ScoreIsFreshest(cfg: Config, tickets: map<nat, string>, now: Time, es: seq<Event>, k: nat)
    requires k < |Run(cfg, Genesis(tickets, now), es).db.debates|
    ensures ShowsFreshest(Run(cfg, Genesis(tickets, now), es).db.debates[k], Deliveries(cfg, Genesis(tickets, now), es, k))
  {
    var w := Genesis(tickets, now);
    var before, e := es[..|es| - 1], es[|es| - 1];
    var v := Run(cfg, w, before);
    RunKeepsRows(cfg, w, before);
    RunKeepsJobs(cfg, w, before);
    StepOnRows(cfg, v, e);
    if k < |v.db.debates| {
      ScoreIsFreshest(cfg, tickets, now, before, k);
      StepShows(cfg, v, e, k, Deliveries(cfg, w, before, k));
    } else {
      NothingBeforeTheStart(cfg, w, before, k);
    }
  }

  lemma {:induction false} NothingBeforeTheStart(cfg: Config, w: World, es: seq<Event>, k: nat)
    requires |Run(cfg, w, es).db.debates| <= k
    ensures Deliveries(cfg, w, es, k) == []
  {
    if es != [] {
      StepGrows(cfg, Run(cfg, w, es[..|es| - 1]), es[|es| - 1]);
      NothingBeforeTheStart(cfg, w, es[..|es| - 1], k);
    }
  }

  /** One result for a live round: it prices that round only, is added to the total, and takes the
      display exactly when the debate is not abandoned and the scored round is below it. */
  lemma ScoreIsExact(d: Debate, i: nat, res: ScoreResult, nextId: nat, now: Time)
    requires RowInv(d, nextId, now) && ScoreNamesLiveRound(d) && i < |d.rounds|
    ensures var r := ScoreRow(d, d.rounds[i].id, res, now);
      && r.Success?
      && r.value.rounds == d.rounds[i := d.rounds[i].(scorerCostMicros := Some(res.costMicros))]
      && r.value.totalMicros == d.totalMicros + res.costMicros
      && (if NothingFresher(d, i) then r.value.lastScored == Some(d.rounds[i].id) && ShowsResult(r.value.effort, res, now)
          else r.value.lastScored == d.lastScored && r.value.effort == d.effort)
      && r.value.currentText == d.currentText && r.value.status == d.status && r.value.inFlight == d.inFlight
  {
    IdIsUnique(d.rounds, nextId, i);
    TakesScoreIff(d, i, nextId, now);
  }

  /** The debate is not abandoned, and neither round i nor a later one is the scored one. */
  ghost predicate NothingFresher(d: Debate, i: nat) {
    d.status != Abandoned && forall j :: i <= j < |d.rounds| ==> d.lastScored != Some(d.rounds[j].id)
  }

  lemma TakesScoreIff(d: Debate, i: nat, nextId: nat, now: Time)
    requires RowInv(d, nextId, now) && ScoreNamesLiveRound(d) && i < |d.rounds|
    ensures TakesScore(d, d.rounds[i].id) <==> NothingFresher(d, i)
  {
    if d.lastScored.Some? {
      var j :| 0 <= j < |d.rounds| && d.rounds[j].id == d.lastScored.value;
      FresherIsHigher(d.rounds, nextId, j, i);
    }
  }

  lemma DisplayNamesLiveRound(cfg: Config, tickets: map<nat, string>, now: Time, es: seq<Event>, k: nat)
    requires k < |Run(cfg, Genesis(tickets, now), es).db.debates|
    ensures ScoreNamesLiveRound(Run(cfg, Genesis(tickets, now), es).db.debates[k])
  {
    ScoreIsFreshest(cfg, tickets, now, es, k);
    FreshestIsLive(Run(cfg, Genesis(tickets, now), es).db.debates[k], Deliveries(cfg, Genesis(tickets, now), es, k));
  }

  lemma FreshestIsLive(d: Debate, ds: seq<Delivery>)
    requires ShowsFreshest(d, ds)
    ensures ScoreNamesLiveRound(d)
  {
    if ds != [] {
      var i :| Wins(ds, i) && Shows(d, ds[i]);
      var at := ds[i].number - 1;
      assert d.rounds[at].id == ds[i].round;
    }
  }

  // ----- confluence -----

  ghost predicate OneResultPerRound(ds: seq<Delivery>) {
    forall i, j :: 0 <= i < |ds| && 0 <= j < |ds| && ds[i].number == ds[j].number ==> ds[i] == ds[j]
  }

  lemma WinnersAgree(d: Debate, a: seq<Delivery>, b: seq<Delivery>, i: int, j: int)
    requires multiset(a) == multiset(b) && Wins(a, i) && Wins(b, j) && AllLive(d, b)
    ensures a[i].round == b[j].round
    ensures OneResultPerRound(a) ==> a[i] == b[j]
  {
    assert a[i] in multiset(b) && b[j] in multiset(a);
    var i' :| 0 <= i' < |b| && b[i'] == a[i];
    var j' :| 0 <= j' < |a| && a[j'] == b[j];
    assert a[i].number == b[j].number;
  }

  /** Two runs whose scorers brought back the same results in any two orders, however else they
      interleave, score the same round; with one result per round they show the same score, in all
      its columns. */
  lemma DeliveryOrderIsIrrelevant(
    cfg: Config, tickets: map<nat, string>, now: Time, es: seq<Event>, fs: seq<Event>, k: nat)
    requires var w := Genesis(tickets, now);
      && k < |Run(cfg, w, es).db.debates| && k < |Run(cfg, w, fs).db.debates|
      && multiset(Deliveries(cfg, w, es, k)) == multiset(Deliveries(cfg, w, fs, k))
    ensures var w := Genesis(tickets, now);
      var d, d' := Run(cfg, w, es).db.debates[k], Run(cfg, w, fs).db.debates[k];
      && d.lastScored == d'.lastScored
      && (OneResultPerRound(Deliveries(cfg, w, es, k)) ==> SameDisplay(d, d'))
  {
    var w := Genesis(tickets, now);
    ScoreIsFreshest(cfg, tickets, now, es, k);
    ScoreIsFreshest(cfg, tickets, now, fs, k);
    SameResultsSameDisplay(Run(cfg, w, es).db.debates[k], Run(cfg, w, fs).db.debates[k],
                           Deliveries(cfg, w, es, k), Deliveries(cfg, w, fs, k));
  }

  /** Everything the chip shows but the time of scoring. */
  ghost predicate SameDisplay(d: Debate, d': Debate) {
    && d.effort.score == d'.effort.score && d.effort.hours == d'.effort.hours
    && d.effort.reasoning == d'.effort.reasoning
    && (d.lastScored.Some? ==> d.effort.provider == d'.effort.provider && d.effort.model == d'.effort.model)
  }

  lemma SameResultsSameDisplay(d: Debate, d': Debate, a: seq<Delivery>, b: seq<Delivery>)
    requires ShowsFreshest(d, a) && ShowsFreshest(d', b) && multiset(a) == multiset(b)
    ensures d.lastScored == d'.lastScored
    ensures OneResultPerRound(a) ==> SameDisplay(d, d')
  {
    assert |a| == |multiset(a)| == |multiset(b)| == |b|;
    if a != [] {
      var i :| Wins(a, i) && Shows(d, a[i]);
      var j :| Wins(b, j) && Shows(d', b[j]);
      WinnersAgree(d', a, b, i, j);
    }
  }
}
