/**
 The handlers that sequence several transactions around an unlocked call. Undisturbed, each is
 proved to be a run of the protocol from whatever world it starts in, so the theorems about runs
 apply to what it leaves behind. A round request is also followed among arbitrary other events,
 before its reply and after.
 */
module Handlers {
  import opened Prelude
  import opened Text
  import opened Debates
  import opened Protocol
  import opened Lineage
  import opened Runs
  import Money
  import Reservations
  import Scores
  import Store

  lemma RunThen(cfg: Config, w: World, es: seq<Event>, e: Event)
    ensures Run(cfg, w, es + [e]) == Step(cfg, Run(cfg, w, es), e)
  {
  }

  lemma RunOn(cfg: Config, w: World, es: seq<Event>, e: Event, v: World, v': World)
    requires Run(cfg, w, es) == v && Step(cfg, v, e) == v'
    ensures Run(cfg, w, es + [e]) == v'
  {
    RunThen(cfg, w, es, e);
  }

  lemma {:induction false} RunFrom(cfg: Config, w: World, es: seq<Event>, v: World, fs: seq<Event>)
    requires v == Run(cfg, w, es)
    ensures Run(cfg, w, es + fs) == Run(cfg, v, fs)
  {
    if fs == [] {
      assert es + fs == es;
    } else {
      var n := |fs| - 1;
      RunFrom(cfg, w, es, v, fs[..n]);
      RunOn(cfg, w, es + fs[..n], fs[n], Run(cfg, v, fs[..n]), Run(cfg, v, fs));
      assert es + fs == es + fs[..n] + [fs[n]];
    }
  }

  lemma RunJoin(cfg: Config, w: World, es: seq<Event>, fs: seq<Event>)
    ensures Run(cfg, w, es + fs) == Run(cfg, Run(cfg, w, es), fs)
  {
    RunFrom(cfg, w, es, Run(cfg, w, es), fs);
  }

  // ----- CreateRound, undisturbed -----

  /** Reserve, wait for the refiner, insert or else clear, then write the cents. */
  function RoundScript(k: nat, id: nat, elapsed: nat, reply: Reply, land: nat): seq<Event> {
    [Reserve(k)] + [Tick(elapsed)] + [RefinerReturns(id, reply)] + [Event.ClearInFlight(id)] + [LandRollup(land)]
  }

  function Waiting(cfg: Config, w: World, k: nat, elapsed: nat): World {
    Step(cfg, Step(cfg, w, Reserve(k)), Tick(elapsed))
  }

  function Finish(cfg: Config, w: World, id: nat, reply: Reply, land: nat): World {
    Step(cfg, Step(cfg, Step(cfg, w, RefinerReturns(id, reply)), Event.ClearInFlight(id)), LandRollup(land))
  }

  lemma ScriptInSteps(cfg: Config, w: World, k: nat, id: nat, elapsed: nat, reply: Reply, land: nat)
    ensures Run(cfg, w, RoundScript(k, id, elapsed, reply, land)) ==
            Finish(cfg, Waiting(cfg, w, k, elapsed), id, reply, land)
  {
    var a := [] + [Reserve(k)];
    var b := a + [Tick(elapsed)];
    var c := b + [RefinerReturns(id, reply)];
    var d := c + [Event.ClearInFlight(id)];
    RunThen(cfg, w, [], Reserve(k));
    RunThen(cfg, w, a, Tick(elapsed));
    RunThen(cfg, w, b, RefinerReturns(id, reply));
    RunThen(cfg, w, c, Event.ClearInFlight(id));
    RunThen(cfg, w, d, LandRollup(land));
    assert d + [LandRollup(land)] == RoundScript(k, id, elapsed, reply, land);
  }

  /** What a reply leaves in the tables: a round and its cents, or a cleared reservation. */
  function Settled(cfg: Config, db: Tables, k: nat, id: nat, snapshot: string, now: Time, reply: Reply): Tables {
    if !Usable(cfg, reply) then TxClear(db, k)
    else
      var r := TxInsert(db, k, id, SuggestionOf(reply), snapshot, now);
      if r.Failure? then TxClear(db, k)
      else
        var d := db.debates[k];
        var delta := CentsDelta(d.totalMicros, d.totalMicros + reply.costMicros);
        r.value.(projectCents := AddCents(r.value.projectCents, Rollup(d.project, delta)))
  }

  /** What the whole request leaves in the tables. */
  function AfterRound(cfg: Config, db: Tables, k: nat, id: nat, now: Time, elapsed: nat, reply: Reply): Tables {
    var reserved := TxReserve(db, k, id, now, cfg.staleAge);
    if reserved.Failure? then db
    else Settled(cfg, reserved.value, k, id + 1, db.debates[k].currentText, now + elapsed, reply)
  }

  predicate Grants(cfg: Config, w: World, k: nat) {
    TxReserve(w.db, k, w.nextId, w.now, cfg.staleAge).Success?
  }

  /** The world once a granted reservation has waited for its reply. */
  function Reserved(cfg: Config, w: World, k: nat, elapsed: nat): World
    requires Grants(cfg, w, k)
  {
    w.(db := TxReserve(w.db, k, w.nextId, w.now, cfg.staleAge).value,
       requests := w.requests[w.nextId := Request(k, w.db.debates[k].currentText, w.now, false)],
       nextId := w.nextId + 1, now := w.now + elapsed)
  }

  lemma ReserveThenWait(cfg: Config, w: World, k: nat, elapsed: nat)
    ensures Waiting(cfg, w, k, elapsed) ==
      if Grants(cfg, w, k) then Reserved(cfg, w, k, elapsed) else w.(now := w.now + elapsed)
  {
  }

  /** The world right after a reply was inserted: its request is gone, its cents are still to write. */
  function Inserted(cfg: Config, w: World, id: nat, reply: Reply): World
    requires id in w.requests && Usable(cfg, reply) && Inserts(w, id, reply)
  {
    var q := w.requests[id];
    var d := w.db.debates[q.debate];
    var delta := CentsDelta(d.totalMicros, d.totalMicros + reply.costMicros);
    World(TxInsert(w.db, q.debate, w.nextId, SuggestionOf(reply), q.snapshot, w.now).value,
          w.requests - {id}, w.jobs, w.rollups + [Rollup(d.project, delta)], w.lost, w.nextId + 1, w.now)
  }

  predicate Inserts(w: World, id: nat, reply: Reply)
    requires id in w.requests && reply.Text?
  {
    var q := w.requests[id];
    TxInsert(w.db, q.debate, w.nextId, SuggestionOf(reply), q.snapshot, w.now).Success?
  }

  lemma ReplyInserts(cfg: Config, w: World, id: nat, reply: Reply)
    requires id in w.requests && !w.requests[id].returned && Usable(cfg, reply) && Inserts(w, id, reply)
    ensures Step(cfg, w, RefinerReturns(id, reply)) == Inserted(cfg, w, id, reply)
  {
  }

  lemma ClearThenLand(cfg: Config, w: World, id: nat, land: nat)
    requires id !in w.requests && land < |w.rollups|
    ensures Step(cfg, Step(cfg, w, Event.ClearInFlight(id)), LandRollup(land)).db ==
      w.db.(projectCents := AddCents(w.db.projectCents, w.rollups[land]))
  {
  }

  lemma FinishInserts(cfg: Config, w: World, id: nat, reply: Reply)
    requires id in w.requests && !w.requests[id].returned && Usable(cfg, reply) && Inserts(w, id, reply)
    ensures var q := w.requests[id];
      Finish(cfg, w, id, reply, |w.rollups|).db == Settled(cfg, w.db, q.debate, w.nextId, q.snapshot, w.now, reply)
  {
    ReplyInserts(cfg, w, id, reply);
    ClearThenLand(cfg, Inserted(cfg, w, id, reply), id, |w.rollups|);
  }

  lemma FinishSettles(cfg: Config, w: World, id: nat, reply: Reply)
    requires id in w.requests && !w.requests[id].returned
    ensures var q := w.requests[id];
      Finish(cfg, w, id, reply, |w.rollups|).db == Settled(cfg, w.db, q.debate, w.nextId, q.snapshot, w.now, reply)
  {
    if Usable(cfg, reply) && Inserts(w, id, reply) { FinishInserts(cfg, w, id, reply); }
  }

  lemma RefusedRound(cfg: Config, w: World, k: nat, elapsed: nat, reply: Reply)
    requires !Grants(cfg, w, k) && w.nextId !in w.requests
    ensures AfterRound(cfg, w.db, k, w.nextId, w.now, elapsed, reply) ==
            Finish(cfg, w.(now := w.now + elapsed), w.nextId, reply, |w.rollups|).db
  {
  }

  lemma GrantedSettles(cfg: Config, w: World, k: nat, elapsed: nat, reply: Reply)
    requires Grants(cfg, w, k)
    ensures var v := Reserved(cfg, w, k, elapsed);
      && w.nextId in v.requests && !v.requests[w.nextId].returned && v.rollups == w.rollups
      && var q := v.requests[w.nextId];
        AfterRound(cfg, w.db, k, w.nextId, w.now, elapsed, reply) ==
        Settled(cfg, v.db, q.debate, v.nextId, q.snapshot, v.now, reply)
  {
  }

  lemma ReservedRound(cfg: Config, w: World, k: nat, elapsed: nat, reply: Reply)
    requires Grants(cfg, w, k)
    ensures AfterRound(cfg, w.db, k, w.nextId, w.now, elapsed, reply) ==
            Finish(cfg, Reserved(cfg, w, k, elapsed), w.nextId, reply, |w.rollups|).db
  {
    var v := Reserved(cfg, w, k, elapsed);
    GrantedSettles(cfg, w, k, elapsed, reply);
    FinishSettles(cfg, v, w.nextId, reply);
  }

  lemma FinishedRound(cfg: Config, w: World, k: nat, elapsed: nat, reply: Reply, v: World)
    requires w.nextId !in w.requests
    requires v == if Grants(cfg, w, k) then Reserved(cfg, w, k, elapsed) else w.(now := w.now + elapsed)
    ensures AfterRound(cfg, w.db, k, w.nextId, w.now, elapsed, reply) ==
            Finish(cfg, v, w.nextId, reply, |w.rollups|).db
  {
    if Grants(cfg, w, k) {
      ReservedRound(cfg, w, k, elapsed, reply);
    } else {
      RefusedRound(cfg, w, k, elapsed, reply);
    }
  }

  /** From any world, the request run from start to finish is that run of the protocol. */
  lemma RoundIsARun(cfg: Config, w: World, k: nat, elapsed: nat, reply: Reply)
    requires w.nextId !in w.requests
    ensures AfterRound(cfg, w.db, k, w.nextId, w.now, elapsed, reply) ==
            Run(cfg, w, RoundScript(k, w.nextId, elapsed, reply, |w.rollups|)).db
  {
    ScriptInSteps(cfg, w, k, w.nextId, elapsed, reply, |w.rollups|);
    ReserveThenWait(cfg, w, k, elapsed);
    FinishedRound(cfg, w, k, elapsed, reply, Waiting(cfg, w, k, elapsed));
  }

  predicate Free(d: Debate, now: Time, staleAge: Time) {
    d.inFlight.None? || staleAge <= now - d.inFlight.value.startedAt
  }

  /** All that can stand between an undisturbed request and its suggestion. */
  ghost predicate RoundOpen(cfg: Config, db: Tables, k: nat, now: Time, reply: Reply) {
    && k < |db.debates| && db.debates[k].status == Active && Free(db.debates[k], now, cfg.staleAge)
    && !HasPending(db.debates[k].rounds) && Usable(cfg, reply)
  }

  lemma OpenIffInserted(cfg: Config, db: Tables, k: nat, id: nat, now: Time, elapsed: nat, reply: Reply)
    requires k < |db.debates| ==> RowInv(db.debates[k], id, now)
    ensures var r := TxReserve(db, k, id, now, cfg.staleAge);
      RoundOpen(cfg, db, k, now, reply) <==>
        && r.Success? && Usable(cfg, reply)
        && TxInsert(r.value, k, id + 1, SuggestionOf(reply), db.debates[k].currentText, now + elapsed).Success?
  {
    var r := TxReserve(db, k, id, now, cfg.staleAge);
    if r.Success? && Usable(cfg, reply) {
      var d' := r.value.debates[k];
      assert RowInv(d', id + 1, now);
      Reservations.InsertIsExact(d', id + 1, SuggestionOf(reply), d'.currentText, now);
    }
  }

  /** Undisturbed, the request adds a suggestion exactly when the debate is active, holds no live
      reservation and no undecided suggestion, and the reply is usable; the suggestion was then made
      from the current text. */
  lemma RoundIsAdded(cfg: Config, db: Tables, k: nat, id: nat, now: Time, elapsed: nat, reply: Reply)
    requires RoundOpen(cfg, db, k, now, reply) && RowInv(db.debates[k], id, now)
    ensures var d, db' := db.debates[k], AfterRound(cfg, db, k, id, now, elapsed, reply);
      && |db'.debates| == |db.debates|
      && var d' := db'.debates[k];
        && |d'.rounds| == |d.rounds| + 1 && d'.rounds[..|d.rounds|] == d.rounds
        && d'.rounds[|d.rounds|].inputText == d.currentText == d'.currentText
        && d'.rounds[|d.rounds|].outputText == TrimSpace(reply.text)
        && d'.totalMicros == d.totalMicros + reply.costMicros && d'.inFlight.None?
  {
    OpenIffInserted(cfg, db, k, id, now, elapsed, reply);
  }

  /** Rounds, text, bill, ledger and cents are untouched; only a reservation may have gone from debate k. */
  ghost predicate LeavesNoTrace(db: Tables, db': Tables, k: nat, cleared: bool)
    requires k < |db.debates|
  {
    && db' == db.(debates := db'.debates) && |db'.debates| == |db.debates|
    && (forall j :: 0 <= j < |db.debates| && j != k ==> db'.debates[j] == db.debates[j])
    && db'.debates[k] == if cleared then db.debates[k].(inFlight := None) else db.debates[k]
  }

  /** Otherwise the rounds, the text, the bill and the ledger are untouched, and no reservation of
      this request is left behind. */
  lemma NoTraceOtherwise(cfg: Config, db: Tables, k: nat, id: nat, now: Time, elapsed: nat, reply: Reply)
    requires k < |db.debates| && !RoundOpen(cfg, db, k, now, reply)
    ensures var d := db.debates[k];
      LeavesNoTrace(db, AfterRound(cfg, db, k, id, now, elapsed, reply), k,
                    d.status == Active && Free(d, now, cfg.staleAge))
  {
  }

  datatype Outcome = Created | OverBudget | NotReserved(error: Error) | NoSuggestion | NotInserted(error: Error)

  /** Output validation and the insert, with a clear on every way out but success. */
  method InsertOrClear(
    db: Store.Database, cfg: Config, k: nat, freshId: nat, snapshot: string, now: Time, reply: Reply)
    returns (outcome: Outcome)
    requires k < |db.debates|
    modifies db
    ensures db.Rows() == Settled(cfg, old(db.Rows()), k, freshId, snapshot, now, reply)
    ensures outcome ==
      if !Usable(cfg, reply) then NoSuggestion
      else
        var r := TxInsert(old(db.Rows()), k, freshId, SuggestionOf(reply), snapshot, now);
        if r.Failure? then NotInserted(r.error) else Created
  {
    if reply.CallFailed? {
      db.ClearInFlight(k);
      return NoSuggestion;
    }
    var text := TrimSpace(reply.text);
    if text == "" || ByteLen(text) < cfg.minOutputLen || reply.truncated {
      db.ClearInFlight(k);
      return NoSuggestion;
    }
    var project := db.debates[k].project;
    var s := Suggestion(reply.provider, reply.model, reply.feedback, text, reply.costMicros);
    var error, delta := db.InsertDebateRoundTx(k, freshId, s, snapshot, now);
    if error.Some? {
      db.ClearInFlight(k);
      return NotInserted(error.value);
    }
    db.IncrementProjectCostCents(project, delta);
    return Created;
  }

  /** Reservation, call, insert or clear. Each answer means one thing: not reserved, no usable reply,
      not inserted, or a round. */
  method ReserveThenInsert(
    db: Store.Database, cfg: Config, k: nat, freshId: nat, now: Time, elapsed: nat, reply: Reply)
    returns (outcome: Outcome)
    modifies db
    ensures db.Rows() == AfterRound(cfg, old(db.Rows()), k, freshId, now, elapsed, reply)
    ensures outcome == OutcomeOf(cfg, old(db.Rows()), k, freshId, now, elapsed, reply)
  {
    var error, snapshot := db.ReserveInFlight(k, freshId, now, cfg.staleAge);
    if error.Some? { return NotReserved(error.value); }
    outcome := InsertOrClear(db, cfg, k, freshId + 1, snapshot, now + elapsed, reply);
  }

  /** The answer to a request that is within budget. */
  function OutcomeOf(cfg: Config, db: Tables, k: nat, id: nat, now: Time, elapsed: nat, reply: Reply): Outcome {
    var reserved := TxReserve(db, k, id, now, cfg.staleAge);
    if reserved.Failure? then NotReserved(reserved.error)
    else if !Usable(cfg, reply) then NoSuggestion
    else
      var r := TxInsert(reserved.value, k, id + 1, SuggestionOf(reply), db.debates[k].currentText, now + elapsed);
      if r.Failure? then NotInserted(r.error) else Created
  }

  /** What each answer means in a reachable debate. */
  lemma OutcomesAreExact(cfg: Config, db: Tables, k: nat, id: nat, now: Time, elapsed: nat, reply: Reply)
    requires k < |db.debates| && RowInv(db.debates[k], id, now)
    ensures var d, o := db.debates[k], OutcomeOf(cfg, db, k, id, now, elapsed, reply);
      var granted := d.status == Active && Free(d, now, cfg.staleAge);
      && (o == NotReserved(DebateNotActive) <==> d.status != Active)
      && (o == NotReserved(InFlightAIRequest) <==> d.status == Active && !Free(d, now, cfg.staleAge))
      && (o == NoSuggestion <==> granted && !Usable(cfg, reply))
      && (o == NotInserted(InReviewRoundExists) <==> granted && Usable(cfg, reply) && HasPending(d.rounds))
      && (o == Created <==> RoundOpen(cfg, db, k, now, reply))
      && (o != Created ==> LeavesNoTrace(db, AfterRound(cfg, db, k, id, now, elapsed, reply), k, granted))
      && o in {NotReserved(DebateNotActive), NotReserved(InFlightAIRequest), NoSuggestion,
               NotInserted(InReviewRoundExists), Created}
  {
    OpenIffInserted(cfg, db, k, id, now, elapsed, reply);
    if !RoundOpen(cfg, db, k, now, reply) { NoTraceOtherwise(cfg, db, k, id, now, elapsed, reply); }
  }

  /** The request, in the world w it finds. The budget check comes before the reservation, so a
      blocked request touches nothing. */
  method CreateRound(
    db: Store.Database, cfg: Config, ghost w: World, k: nat, org: nat, capCents: Option<int>, from: Time, to: Time,
    freshId: nat, now: Time, elapsed: nat, reply: Reply)
    returns (outcome: Outcome)
    requires w.db == db.Rows() && w.nextId == freshId && w.now == now && freshId !in w.requests
    modifies db
    ensures db.Rows() ==
      if outcome.OverBudget? then w.db
      else Run(cfg, w, RoundScript(k, freshId, elapsed, reply, |w.rollups|)).db
    ensures outcome ==
      if Money.CheckOrgBudget(w.db.ledger, org, capCents, from, to) == Money.BudgetExceeded then OverBudget
      else OutcomeOf(cfg, w.db, k, freshId, now, elapsed, reply)
  {
    if Money.CheckOrgBudget(db.ledger, org, capCents, from, to) == Money.BudgetExceeded { return OverBudget; }
    RoundIsARun(cfg, w, k, elapsed, reply);
    outcome := ReserveThenInsert(db, cfg, k, freshId, now, elapsed, reply);
  }

  // ----- CreateRound among others -----

  /** Events that are none of this request's own. */
  ghost predicate Others(es: seq<Event>, id: nat) {
    forall i :: 0 <= i < |es| ==>
      (es[i].RefinerReturns? || es[i].ClearInFlight? || es[i].Crash?) ==> es[i].request != id
  }

  lemma RequestStep(cfg: Config, w: World, e: Event, id: nat)
    requires id < w.nextId
    ensures var w' := Step(cfg, w, e);
      && id < w'.nextId && (id !in w.requests ==> id !in w'.requests)
      && (Others([e], id) && id in w.requests ==> id in w'.requests && w'.requests[id] == w.requests[id])
  {
    assert [e][0] == e;
  }

  /** Nothing but its own events ends a request or changes it, and its id is never given out again. */
  lemma {:induction false} RequestInRun(cfg: Config, w: World, es: seq<Event>, id: nat)
    requires id < w.nextId
    ensures var w' := Run(cfg, w, es);
      && id < w'.nextId && (id !in w.requests ==> id !in w'.requests)
      && (Others(es, id) && id in w.requests ==> id in w'.requests && w'.requests[id] == w.requests[id])
  {
    if es != [] {
      RequestInRun(cfg, w, es[..|es| - 1], id);
      RequestStep(cfg, Run(cfg, w, es[..|es| - 1]), es[|es| - 1], id);
    }
  }

  /** Whether a reply made from this snapshot is taken. */
  ghost predicate Taken(cfg: Config, d: Debate, snapshot: string, reply: Reply) {
    Usable(cfg, reply) && d.status == Active && d.currentText == snapshot && !HasPending(d.rounds)
  }

  /** One more round on debate k, made from the text that is still current, billed once; nothing else. */
  ghost predicate AddsOneRound(w: World, w': World, k: nat, snapshot: string, reply: Reply)
    requires k < |w.db.debates| && reply.Text?
  {
    var d := w.db.debates[k];
    var x := Round(w.nextId, |d.rounds| + 1, reply.provider, reply.model,
                   if reply.feedback == "" then None else Some(reply.feedback),
                   snapshot, TrimSpace(reply.text), None, InReview, None, reply.costMicros, None);
    && snapshot == d.currentText
    && w'.db == w.db.(
      debates := w.db.debates[k := d.(
        rounds := d.rounds + [x], totalMicros := d.totalMicros + reply.costMicros, inFlight := None)],
      ledger := Charge(w.db.ledger, Spend(d.org, k, x.id, RoundSpend, reply.costMicros, w.now)))
    && w'.rollups ==
      w.rollups + [Rollup(d.project, CentsDelta(d.totalMicros, d.totalMicros + reply.costMicros))]
  }

  lemma ReplyIsTaken(cfg: Config, w: World, id: nat, reply: Reply)
    requires id in w.requests && !w.requests[id].returned && w.requests[id].debate < |w.db.debates|
    requires RowInv(w.db.debates[w.requests[id].debate], w.nextId, w.now)
    requires Taken(cfg, w.db.debates[w.requests[id].debate], w.requests[id].snapshot, reply)
    ensures var q, w' := w.requests[id], Step(cfg, w, RefinerReturns(id, reply));
      id !in w'.requests && w'.nextId == w.nextId + 1 && AddsOneRound(w, w', q.debate, q.snapshot, reply)
  {
    var q := w.requests[id];
    MaxNumberIsLength(w.db.debates[q.debate].rounds);
    assert Inserts(w, id, reply);
    ReplyInserts(cfg, w, id, reply);
  }

  lemma ReplyIsNotTaken(cfg: Config, w: World, id: nat, reply: Reply)
    requires id in w.requests && !w.requests[id].returned && w.requests[id].debate < |w.db.debates|
    requires !Taken(cfg, w.db.debates[w.requests[id].debate], w.requests[id].snapshot, reply)
    ensures Step(cfg, w, RefinerReturns(id, reply)) ==
            w.(requests := w.requests[id := w.requests[id].(returned := true)])
  {
  }

  /** A reservation is taken when the debate is active and free, touches nothing else, and leaves no
      trace when it is refused. */
  lemma ReserveIsExact(cfg: Config, w: World, k: nat)
    ensures Grants(cfg, w, k) <==>
      k < |w.db.debates| && w.db.debates[k].status == Active && Free(w.db.debates[k], w.now, cfg.staleAge)
    ensures Step(cfg, w, Reserve(k)) ==
      if !Grants(cfg, w, k) then w
      else
        var d := w.db.debates[k];
        w.(db := w.db.(debates := w.db.debates[k := d.(inFlight := Some(Reservation(w.nextId, w.now)))]),
           requests := w.requests[w.nextId := Request(k, d.currentText, w.now, false)],
           nextId := w.nextId + 1)
  {
  }

  /** A request in full, with others' events es while its call is out and fs after the reply. */
  function Interleaved(k: nat, id: nat, es: seq<Event>, reply: Reply, fs: seq<Event>): seq<Event> {
    [Reserve(k)] + es + [RefinerReturns(id, reply)] + fs + [Event.ClearInFlight(id)]
  }

  lemma InterleavedInRuns(cfg: Config, w: World, k: nat, id: nat, es: seq<Event>, reply: Reply, fs: seq<Event>)
    ensures var before := Run(cfg, Step(cfg, w, Reserve(k)), es);
      var after := Step(cfg, before, RefinerReturns(id, reply));
      Run(cfg, w, [Reserve(k)] + es) == before &&
      Run(cfg, w, Interleaved(k, id, es, reply, fs)) == Step(cfg, Run(cfg, after, fs), Event.ClearInFlight(id))
  {
    RunThen(cfg, w, [], Reserve(k));
    assert [] + [Reserve(k)] == [Reserve(k)];
    RunJoin(cfg, w, [Reserve(k)], es);
    RunThen(cfg, w, [Reserve(k)] + es, RefinerReturns(id, reply));
    RunJoin(cfg, w, [Reserve(k)] + es + [RefinerReturns(id, reply)], fs);
    RunThen(cfg, w, [Reserve(k)] + es + [RefinerReturns(id, reply)] + fs, Event.ClearInFlight(id));
  }

  /** Where the round of a taken reply is afterwards: at its place, as it was born, unless undone. */
  ghost predicate StillBornAs(late: Debate, after: Debate, id: nat) {
    forall i :: 0 <= i < |late.rounds| && late.rounds[i].id == id ==>
      i == |after.rounds| - 1 && Born(late.rounds[i]) == Born(after.rounds[i])
  }

  lemma RoundStaysAsBorn(cfg: Config, w: World, fs: seq<Event>, k: nat)
    requires RowsInv(w) && k < |w.db.debates| && w.db.debates[k].rounds != []
    ensures k < |Run(cfg, w, fs).db.debates|
    ensures var rs := w.db.debates[k].rounds;
      StillBornAs(Run(cfg, w, fs).db.debates[k], w.db.debates[k], rs[|rs| - 1].id)
  {
    RunEvolves(cfg, w, fs, k);
    assert RowInv(w.db.debates[k], w.nextId, w.now);
  }

  /** What a reply made, in the worlds before and after it, some time later, and once the request has
      cleared: one round, made from the text of its reservation and of the moment of the reply, billed
      once, and a clear that does nothing; or no change to any table, and a dropped reservation. */
  ghost predicate RoundOrNothing(
    cfg: Config, before: World, after: World, late: World, end: World, k: nat, snapshot: string, reply: Reply)
  {
    && k < |before.db.debates| && k < |after.db.debates| && k < |late.db.debates|
    && if Taken(cfg, before.db.debates[k], snapshot, reply) then
         && AddsOneRound(before, after, k, snapshot, reply)
         && end == late
         && StillBornAs(late.db.debates[k], after.db.debates[k], before.nextId)
       else
         && after.db == before.db && after.rollups == before.rollups
         && end.db == TxClear(late.db, k) && end.rollups == late.rollups
  }

  /** The request in the middle of any run. From a reachable world, whatever others do while its call is
      out and after its reply, a granted request adds and bills exactly one round if the guards hold
      when the reply comes, and otherwise adds and bills nothing and drops the reservation. */
  lemma RoundAmongOthers(cfg: Config, w: World, k: nat, es: seq<Event>, reply: Reply, fs: seq<Event>)
    requires RowsInv(w) && Grants(cfg, w, k) && Others(es, w.nextId) && Others(fs, w.nextId)
    ensures k < |w.db.debates|
    ensures var before := Run(cfg, w, [Reserve(k)] + es);
      var after := Step(cfg, before, RefinerReturns(w.nextId, reply));
      RoundOrNothing(cfg, before, after, Run(cfg, after, fs), Run(cfg, w, Interleaved(k, w.nextId, es, reply, fs)),
                     k, w.db.debates[k].currentText, reply)
  {
    var id := w.nextId;
    ReserveIsExact(cfg, w, k);
    var start := Step(cfg, w, Reserve(k));
    StepKeepsRows(cfg, w, Reserve(k));
    InterleavedInRuns(cfg, w, k, id, es, reply, fs);
    RunKeepsRows(cfg, start, es);
    RunGrows(cfg, start, es);
    RequestInRun(cfg, start, es, id);
    var before := Run(cfg, start, es);
    if Taken(cfg, before.db.debates[k], w.db.debates[k].currentText, reply) {
      AfterTaken(cfg, before, id, reply, fs);
    } else {
      AfterNotTaken(cfg, before, id, reply, fs);
    }
  }

  lemma AfterTaken(cfg: Config, w: World, id: nat, reply: Reply, fs: seq<Event>)
    requires RowsInv(w) && id in w.requests && id < w.nextId
    requires !w.requests[id].returned && w.requests[id].debate < |w.db.debates|
    requires Taken(cfg, w.db.debates[w.requests[id].debate], w.requests[id].snapshot, reply)
    ensures var q, after := w.requests[id], Step(cfg, w, RefinerReturns(id, reply));
      var late := Run(cfg, after, fs);
      RoundOrNothing(cfg, w, after, late, Step(cfg, late, Event.ClearInFlight(id)), q.debate, q.snapshot, reply)
  {
    var after := Step(cfg, w, RefinerReturns(id, reply));
    ReplyIsTaken(cfg, w, id, reply);
    StepKeepsRows(cfg, w, RefinerReturns(id, reply));
    RequestInRun(cfg, after, fs, id);
    RoundStaysAsBorn(cfg, after, fs, w.requests[id].debate);
    NothingToClear(cfg, Run(cfg, after, fs), id);
  }

  lemma NothingToClear(cfg: Config, w: World, id: nat)
    requires id !in w.requests
    ensures Step(cfg, w, Event.ClearInFlight(id)) == w
  {
  }

  lemma AfterNotTaken(cfg: Config, w: World, id: nat, reply: Reply, fs: seq<Event>)
    requires RowsInv(w) && id in w.requests && id < w.nextId && Others(fs, id)
    requires !w.requests[id].returned && w.requests[id].debate < |w.db.debates|
    requires !Taken(cfg, w.db.debates[w.requests[id].debate], w.requests[id].snapshot, reply)
    ensures var q, after := w.requests[id], Step(cfg, w, RefinerReturns(id, reply));
      var late := Run(cfg, after, fs);
      RoundOrNothing(cfg, w, after, late, Step(cfg, late, Event.ClearInFlight(id)), q.debate, q.snapshot, reply)
  {
    var after := Step(cfg, w, RefinerReturns(id, reply));
    ReplyIsNotTaken(cfg, w, id, reply);
    RequestInRun(cfg, after, fs, id);
    RunGrows(cfg, after, fs);
    ClearsItsDebate(cfg, Run(cfg, after, fs), id);
  }

  lemma ClearsItsDebate(cfg: Config, w: World, id: nat)
    requires id in w.requests && w.requests[id].returned
    ensures var w' := Step(cfg, w, Event.ClearInFlight(id));
      w'.db == TxClear(w.db, w.requests[id].debate) && w'.rollups == w.rollups
  {
  }

  // ----- scorers -----

  /** What one scorer result leaves in the tables, its cents included. */
  function Scored(db: Tables, k: nat, round: nat, res: ScoreResult, now: Time): Tables {
    var r := TxScore(db, k, round, res, now);
    if r.Failure? then db
    else
      var d := db.debates[k];
      var delta := CentsDelta(d.totalMicros, d.totalMicros + res.costMicros);
      r.value.(projectCents := AddCents(db.projectCents, Rollup(d.project, delta)))
  }

  /** A scorer call that succeeds, and how long after the previous one it comes back. */
  datatype Call = Call(elapsed: nat, result: ScoreResult)

  /** Some time, the result of one job, and its cents. */
  function JobEvents(job: Job, call: Call, land: nat): seq<Event> {
    [Tick(call.elapsed)] + [ScorerReturns(job, call.result)] + [LandRollup(land)]
  }

  /** The world once the result is committed and its cents are still to write. */
  function Charged(w: World, job: Job, res: ScoreResult): World {
    var r := TxScore(w.db, job.debate, job.round, res, w.now);
    if r.Failure? then w
    else
      var d := w.db.debates[job.debate];
      var delta := CentsDelta(d.totalMicros, d.totalMicros + res.costMicros);
      w.(db := r.value, rollups := w.rollups + [Rollup(d.project, delta)])
  }

  lemma ScorerCharges(cfg: Config, w: World, job: Job, res: ScoreResult)
    requires job in w.jobs
    ensures Step(cfg, w, ScorerReturns(job, res)) == Charged(w, job, res)
  {
  }

  lemma LandLast(cfg: Config, w: World, db: Tables, r: Rollup)
    ensures Step(cfg, w.(db := db, rollups := w.rollups + [r]), LandRollup(|w.rollups|)) ==
            w.(db := db.(projectCents := AddCents(db.projectCents, r)))
  {
    assert Without(w.rollups + [r], |w.rollups|) == w.rollups;
  }

  lemma ChargeLands(cfg: Config, w: World, job: Job, res: ScoreResult)
    ensures Step(cfg, Charged(w, job, res), LandRollup(|w.rollups|)) ==
            w.(db := Scored(w.db, job.debate, job.round, res, w.now))
  {
    var charged := TxScore(w.db, job.debate, job.round, res, w.now);
    if charged.Success? {
      var d := w.db.debates[job.debate];
      var r := Rollup(d.project, CentsDelta(d.totalMicros, d.totalMicros + res.costMicros));
      LandLast(cfg, w, charged.value, r);
    }
  }

  /** What one job leaves of the world. */
  function AfterJob(w: World, job: Job, call: Call): World {
    var now := w.now + call.elapsed;
    w.(db := Scored(w.db, job.debate, job.round, call.result, now), now := now)
  }

  lemma JobIsARun(cfg: Config, w: World, job: Job, call: Call)
    requires job in w.jobs
    ensures Run(cfg, w, JobEvents(job, call, |w.rollups|)) == AfterJob(w, job, call)
  {
    var v := w.(now := w.now + call.elapsed);
    ScorerCharges(cfg, v, job, call.result);
    ChargeLands(cfg, v, job, call.result);
    JobInRuns(cfg, w, job, call, |w.rollups|, v, Charged(v, job, call.result), AfterJob(w, job, call));
  }

  lemma JobInRuns(cfg: Config, w: World, job: Job, call: Call, land: nat, v: World, u: World, w': World)
    requires v == w.(now := w.now + call.elapsed)
    requires Step(cfg, v, ScorerReturns(job, call.result)) == u && Step(cfg, u, LandRollup(land)) == w'
    ensures Run(cfg, w, JobEvents(job, call, land)) == w'
  {
    var a := [] + [Tick(call.elapsed)];
    var b := a + [ScorerReturns(job, call.result)];
    RunOn(cfg, w, [], Tick(call.elapsed), w, v);
    RunOn(cfg, w, a, ScorerReturns(job, call.result), v, u);
    RunOn(cfg, w, b, LandRollup(land), u, w');
    assert b + [LandRollup(land)] == JobEvents(job, call, land);
  }

  lemma {:induction false} JobsStay(cfg: Config, w: World, es: seq<Event>)
    ensures w.jobs <= Run(cfg, w, es).jobs
  {
    if es != [] {
      JobsStay(cfg, w, es[..|es| - 1]);
      JobsStayStep(cfg, Run(cfg, w, es[..|es| - 1]), es[|es| - 1]);
    }
  }

  lemma JobsStayStep(cfg: Config, w: World, e: Event)
    ensures w.jobs <= Step(cfg, w, e).jobs
  {
  }

  /** A claimed job among others: whatever happens between its claim and its result, the scorer was given
      what the round ships if it still lives, and the result charges and scores exactly the debate as it
      is at that moment, or changes nothing if the round is gone. */
  lemma ResultAmongOthers(
    cfg: Config, w: World, at: Time, claimed: set<nat>, es: seq<Event>, job: Job, res: ScoreResult)
    requires RowsInv(w) && Scores.JobsOk(w) && ClaimableBatch(cfg, w.db, at, claimed)
    requires job in ClaimedJobs(w.db, claimed)
    ensures var v := Run(cfg, Step(cfg, w, Sweep(at, claimed)), es);
      && Scores.JobOk(v, job)
      && Step(cfg, v, ScorerReturns(job, res)) == Charged(v, job, res)
  {
    var start := Step(cfg, w, Sweep(at, claimed));
    var v := Run(cfg, start, es);
    StepKeepsRows(cfg, w, Sweep(at, claimed));
    JobsOkStep(cfg, w, Sweep(at, claimed));
    assert job in start.jobs;
    JobsStay(cfg, start, es);
    Scores.RunKeepsJobs(cfg, start, es);
    ScorerCharges(cfg, v, job, res);
  }

  lemma JobsOkStep(cfg: Config, w: World, e: Event)
    requires RowsInv(w) && Scores.JobsOk(w)
    ensures Scores.JobsOk(Step(cfg, w, e))
  {
    RunThen(cfg, w, [], e);
    Scores.RunKeepsJobs(cfg, w, [] + [e]);
  }

  /** The transaction, then the rollup outside it. */
  method ApplyScoreResult(db: Store.Database, k: nat, round: nat, res: ScoreResult, now: Time)
    modifies db
    ensures db.Rows() == Scored(old(db.Rows()), k, round, res, now)
  {
    var error, delta := db.ApplyScoreResult(k, round, res, now);
    if error.None? { db.IncrementProjectCostCents(db.debates[k].project, delta); }
  }

  /** Each job of the list brings back the result for its debate, and its cents are written. */
  function Scoring(order: seq<Job>, calls: map<nat, Call>, land: nat): seq<Event>
    requires forall job :: job in order ==> job.debate in calls
  {
    if order == [] then []
    else
      var n := |order| - 1;
      Scoring(order[..n], calls, land) + JobEvents(order[n], calls[order[n].debate], land)
  }

  /** The jobs whose scorer calls succeed. */
  function Succeeding(jobs: set<Job>, calls: map<nat, Call>): set<Job> {
    set job | job in jobs && job.debate in calls
  }

  /** Where a sweep started in w stands once it has scored the jobs of `order`. */
  ghost predicate Swept(
    cfg: Config, w: World, at: Time, claimed: set<nat>, order: seq<Job>, calls: map<nat, Call>, w': World)
  {
    && (forall job :: job in order ==> job.debate in calls)
    && w' == Run(cfg, w, [Sweep(at, claimed)] + Scoring(order, calls, |w.rollups|))
    && w'.jobs == w.jobs + ClaimedJobs(w.db, claimed) && w'.rollups == w.rollups
  }

  lemma SweepStarts(cfg: Config, w: World, at: Time, claimed: set<nat>, calls: map<nat, Call>)
    requires ClaimableBatch(cfg, w.db, at, claimed)
    ensures Swept(cfg, w, at, claimed, [], calls,
                  w.(db := TxClaim(cfg, w.db, at, claimed), jobs := w.jobs + ClaimedJobs(w.db, claimed)))
  {
    RunThen(cfg, w, [], Sweep(at, claimed));
    assert [] + [Sweep(at, claimed)] == [Sweep(at, claimed)] + Scoring([], calls, |w.rollups|);
  }

  lemma ScoringOneMore(order: seq<Job>, calls: map<nat, Call>, land: nat, job: Job)
    requires (forall j :: j in order ==> j.debate in calls) && job.debate in calls
    ensures Scoring(order + [job], calls, land) ==
            Scoring(order, calls, land) + JobEvents(job, calls[job.debate], land)
  {
    assert (order + [job])[..|order|] == order;
  }

  lemma SweepGoesOn(
    cfg: Config, w: World, at: Time, claimed: set<nat>, order: seq<Job>, calls: map<nat, Call>, w': World, job: Job)
    requires Swept(cfg, w, at, claimed, order, calls, w')
    requires job in ClaimedJobs(w.db, claimed) && job.debate in calls
    ensures Swept(cfg, w, at, claimed, order + [job], calls, AfterJob(w', job, calls[job.debate]))
  {
    var land := |w.rollups|;
    var es, more := [Sweep(at, claimed)] + Scoring(order, calls, land), JobEvents(job, calls[job.debate], land);
    ScoringOneMore(order, calls, land, job);
    assert [Sweep(at, claimed)] + Scoring(order + [job], calls, land) == es + more;
    RunJoin(cfg, w, es, more);
    JobIsARun(cfg, w', job, calls[job.debate]);
  }

  lemma SucceedingGrows(jobs: set<Job>, todo: set<Job>, job: Job, calls: map<nat, Call>)
    requires todo <= jobs && job in todo
    ensures multiset(Succeeding(jobs - (todo - {job}), calls)) ==
      multiset(Succeeding(jobs - todo, calls)) + if job.debate in calls then multiset{job} else multiset{}
  {
    var before, after := Succeeding(jobs - todo, calls), Succeeding(jobs - (todo - {job}), calls);
    assert after == before + if job.debate in calls then {job} else {};
  }

  /** One result, when the database clock reads now. */
  method ScoreOne(db: Store.Database, job: Job, call: Call, now: Time, ghost w: World) returns (ghost w': World)
    requires db.Rows() == w.db && w.now + call.elapsed == now
    modifies db
    ensures w' == AfterJob(w, job, call) && db.Rows() == w'.db && w'.now == now
  {
    ApplyScoreResult(db, job.debate, job.round, call.result, now);
    w' := AfterJob(w, job, call);
  }

  /** Score each claimed debate; `calls` are the scorer calls that succeed. */
  method ScoreClaims(
    db: Store.Database, cfg: Config, ghost w: World, ghost at: Time, ghost claimed: set<nat>, jobs: set<Job>, now: Time,
    calls: map<nat, Call>, ghost start: World)
    returns (ghost order: seq<Job>)
    requires jobs == ClaimedJobs(w.db, claimed) && start.now == now
    requires Swept(cfg, w, at, claimed, [], calls, start) && db.Rows() == start.db
    modifies db
    ensures multiset(order) == multiset(Succeeding(jobs, calls))
    ensures forall job :: job in order ==> job.debate in calls
    ensures db.Rows() == Run(cfg, w, [Sweep(at, claimed)] + Scoring(order, calls, |w.rollups|)).db
  {
    order := [];
    ghost var end := start;
    var clock := now;
    var todo := jobs;
    while todo != {}
      invariant todo <= jobs
      invariant multiset(order) == multiset(Succeeding(jobs - todo, calls))
      invariant Swept(cfg, w, at, claimed, order, calls, end) && db.Rows() == end.db && end.now == clock
      decreases |todo|
    {
      var job :| job in todo;
      SucceedingGrows(jobs, todo, job, calls);
      ghost var before := end;
      todo := todo - {job};
      if job.debate in calls {
        clock := clock + calls[job.debate].elapsed;
        end := ScoreOne(db, job, calls[job.debate], clock, end);
        SweepGoesOn(cfg, w, at, claimed, order, calls, before, job);
        order := order + [job];
      }
    }
    assert jobs - todo == jobs;
  }

  /** Claim a batch, then score each claimed debate outside any lock. In whatever order the claims are
      taken, the sweep is the run of the protocol, from the world w it finds, in which every claimed job
      whose call succeeds returns its result exactly once, each result is followed by its cents, and
      nothing else happens. */
  method RetryStaleEffortScores(
    db: Store.Database, cfg: Config, ghost w: World, at: Time, now: Time, locked: set<nat>,
    calls: map<nat, Call>)
    returns (claimed: set<nat>, ghost order: seq<Job>)
    requires w.db == db.Rows() && w.now == now
    modifies db
    ensures ClaimableBatch(cfg, w.db, at, claimed) && claimed !! locked
    ensures multiset(order) == multiset(Succeeding(ClaimedJobs(w.db, claimed), calls))
    ensures forall job :: job in order ==> job.debate in calls
    ensures db.Rows() == Run(cfg, w, [Sweep(at, claimed)] + Scoring(order, calls, |w.rollups|)).db
  {
    var jobs: set<Job>;
    claimed, jobs := db.ClaimStaleEffortScores(cfg, at, locked);
    SweepStarts(cfg, w, at, claimed, calls);
    ghost var start := w.(db := db.Rows(), jobs := w.jobs + jobs);
    order := ScoreClaims(db, cfg, w, at, claimed, jobs, now, calls, start);
  }
}
