/**
 In-flight reservations. Neither the insert nor the clear checks whose reservation it ends, so
 mutual exclusion of refiner calls rests on time: a request must be done before its
 reservation can be taken for an orphan.
 */
module Reservations {
  import opened Prelude
  import opened Debates
  import opened Protocol
  import opened Lineage
  import opened Runs

  /** Every request still out is younger than the age at which its reservation may be overwritten. */
  ghost predicate Timely(cfg: Config, w: World) {
    forall id :: id in w.requests ==> w.now - w.requests[id].startedAt < cfg.staleAge
  }

  /** Timely at the end of the run and at every moment before. */
  ghost predicate AlwaysTimely(cfg: Config, w: World, es: seq<Event>) {
    Timely(cfg, Run(cfg, w, es)) && (es != [] ==> AlwaysTimely(cfg, w, es[..|es| - 1]))
  }

  ghost predicate OneCallPerDebate(w: World) {
    forall a, b :: a in w.requests && b in w.requests && w.requests[a].debate == w.requests[b].debate ==> a == b
  }

  /** A request holds the reservation of its debate for as long as the debate is active. */
  ghost predicate HoldsReservation(w: World, id: nat)
    requires id in w.requests
  {
    var q := w.requests[id];
    && id < w.nextId && q.debate < |w.db.debates|
    && (w.db.debates[q.debate].status == Active ==>
      w.db.debates[q.debate].inFlight == Some(Reservation(id, q.startedAt)))
  }

  ghost predicate Exclusive(w: World) {
    OneCallPerDebate(w) && forall id :: id in w.requests ==> HoldsReservation(w, id)
  }

  lemma RequestIdsAreOld(w: World)
    requires Exclusive(w)
    ensures forall id :: id in w.requests ==> id < w.nextId
  {
    forall id | id in w.requests ensures id < w.nextId {
      assert HoldsReservation(w, id);
    }
  }

  /** What an event does to the requests. */
  lemma RequestsMove(cfg: Config, w: World, e: Event)
    ensures var m, m' := w.requests, Step(cfg, w, e).requests;
      && (forall id :: id in m' && id != w.nextId ==>
        id in m && m'[id].debate == m[id].debate && m'[id].startedAt == m[id].startedAt)
      && (w.nextId in m' && w.nextId !in m ==>
        && e.Reserve? && e.debate < |w.db.debates|
        && m' == m[w.nextId := Request(e.debate, w.db.debates[e.debate].currentText, w.now, false)]
        && ReserveRow(w.db.debates[e.debate], w.nextId, w.now, cfg.staleAge).Success?)
  {
  }

  /** The event takes a request of debate k off the list. */
  ghost predicate Ends(cfg: Config, w: World, e: Event, k: nat)
    requires e.RefinerReturns? || e.ClearInFlight?
  {
    && e.request in w.requests && w.requests[e.request].debate == k
    && e.request !in Step(cfg, w, e).requests
  }

  /** Only three events touch the reservation of an active debate that stays active. */
  lemma ReservationMoves(cfg: Config, w: World, e: Event, k: nat)
    requires k < |w.db.debates|
    ensures var d, d' := w.db.debates[k], RowAfter(cfg, w, e, k);
      d'.status == Active && d'.inFlight != d.inFlight ==>
        || (e.Reserve? && e.debate == k && ReserveRow(d, w.nextId, w.now, cfg.staleAge) == Success(d'))
        || ((e.RefinerReturns? || e.ClearInFlight?) && Ends(cfg, w, e, k))
    ensures RowAfter(cfg, w, e, k).status == Active ==> w.db.debates[k].status == Active
  {
    if e.RefinerReturns? {
      ReplyReservation(cfg, w, e, k);
    } else if e.Sweep? || e.ScorerReturns? {
    } else if e.Accept? || e.Reject? || e.Undo? || e.EditSeed? {
    }
  }

  lemma ReplyReservation(cfg: Config, w: World, e: Event, k: nat)
    requires e.RefinerReturns? && k < |w.db.debates|
    ensures RowAfter(cfg, w, e, k) != w.db.debates[k] ==> Ends(cfg, w, e, k)
    ensures RowAfter(cfg, w, e, k).status == w.db.debates[k].status
  {
  }

  lemma StepKeepsExclusive(cfg: Config, w: World, e: Event)
    requires Exclusive(w) && Timely(cfg, w)
    ensures Exclusive(Step(cfg, w, e))
  {
    var w' := Step(cfg, w, e);
    RequestIdsAreOld(w);
    RequestsMove(cfg, w, e);
    if w.nextId in w'.requests { NewRequestIsAlone(cfg, w, e.debate); }
    forall id | id in w'.requests ensures HoldsReservation(w', id) {
      if id in w.requests {
        KeepsReservation(cfg, w, e, id);
      } else {
        StepGrows(cfg, w, e);
        StepOnRows(cfg, w, e);
        assert w'.db.debates[e.debate] == RowAfter(cfg, w, e, e.debate);
      }
    }
  }

  lemma KeepsReservation(cfg: Config, w: World, e: Event, id: nat)
    requires Exclusive(w) && Timely(cfg, w) && id in w.requests && id in Step(cfg, w, e).requests
    ensures HoldsReservation(Step(cfg, w, e), id)
  {
    RequestIdsAreOld(w);
    RequestsMove(cfg, w, e);
    StepGrows(cfg, w, e);
    StepOnRows(cfg, w, e);
    assert HoldsReservation(w, id);
    ReservationMoves(cfg, w, e, w.requests[id].debate);
    StaysHeld(cfg, w, e, id);
  }

  /** A reservation is granted only where no timely request is out. */
  lemma NewRequestIsAlone(cfg: Config, w: World, k: nat)
    requires Exclusive(w) && Timely(cfg, w) && k < |w.db.debates|
    requires ReserveRow(w.db.debates[k], w.nextId, w.now, cfg.staleAge).Success?
    ensures forall id :: id in w.requests ==> w.requests[id].debate != k
  {
    forall id | id in w.requests ensures w.requests[id].debate != k {
      assert HoldsReservation(w, id);
    }
  }

  lemma StaysHeld(cfg: Config, w: World, e: Event, id: nat)
    requires Exclusive(w) && Timely(cfg, w) && id in w.requests && id in Step(cfg, w, e).requests
    requires id < w.nextId && w.requests[id].debate < |w.db.debates|
    ensures var k := w.requests[id].debate;
      RowAfter(cfg, w, e, k).status == Active ==> RowAfter(cfg, w, e, k).inFlight == w.db.debates[k].inFlight
  {
    var k := w.requests[id].debate;
    assert HoldsReservation(w, id);
    ReservationMoves(cfg, w, e, k);
    if e.Reserve? && e.debate == k && ReserveRow(w.db.debates[k], w.nextId, w.now, cfg.staleAge).Success? {
      NewRequestIsAlone(cfg, w, k);
    }
  }

  /** If every request inserts or clears while its reservation is younger than StaleReservationAge,
      no two refiner calls for one debate are ever out at once, in any run, whatever is undone,
      approved, abandoned or crashed meanwhile. */
  lemma {:induction false} TimelyCallsNeverOverlap(cfg: Config, w: World, es: seq<Event>)
    requires Exclusive(w) && AlwaysTimely(cfg, w, es)
    ensures Exclusive(Run(cfg, w, es))
  {
    if es != [] {
      TimelyCallsNeverOverlap(cfg, w, es[..|es| - 1]);
      StepKeepsExclusive(cfg, Run(cfg, w, es[..|es| - 1]), es[|es| - 1]);
    }
  }

  lemma NoOverlapFromGenesis(cfg: Config, tickets: map<nat, string>, now: Time, es: seq<Event>)
    requires AlwaysTimely(cfg, Genesis(tickets, now), es)
    ensures OneCallPerDebate(Run(cfg, Genesis(tickets, now), es))
  {
    TimelyCallsNeverOverlap(cfg, Genesis(tickets, now), es);
  }

  /** The deadline is sharp: a second call starts beside a pending one exactly when the debate is
      active and the pending one has reached the stale age. */
  lemma OverlapIffStale(cfg: Config, w: World, id: nat)
    requires Exclusive(w) && id in w.requests
    ensures var k := w.requests[id].debate;
      !OneCallPerDebate(Step(cfg, w, Reserve(k))) <==>
        w.db.debates[k].status == Active && cfg.staleAge <= w.now - w.requests[id].startedAt
  {
    var k := w.requests[id].debate;
    assert HoldsReservation(w, id);
    var w' := Step(cfg, w, Reserve(k));
    RequestIdsAreOld(w);
    if w' != w {
      assert id in w'.requests && w.nextId in w'.requests && w'.requests[id].debate == w'.requests[w.nextId].debate;
    }
  }

  lemma AbandonedStep(cfg: Config, w: World, e: Event, k: nat)
    requires k < |w.db.debates| && (w.db.debates[k].status == Abandoned ==> w.db.debates[k].inFlight.None?)
    ensures RowAfter(cfg, w, e, k).status == Abandoned ==> RowAfter(cfg, w, e, k).inFlight.None?
  {
  }

  /** An abandoned debate holds no reservation, whatever calls were out when it was abandoned. */
  lemma {:induction false} AbandonedHoldsNoReservation(
    cfg: Config, tickets: map<nat, string>, now: Time, es: seq<Event>, k: nat)
    requires k < |Run(cfg, Genesis(tickets, now), es).db.debates|
    ensures var d := Run(cfg, Genesis(tickets, now), es).db.debates[k]; d.status == Abandoned ==> d.inFlight.None?
  {
    var v, e := Run(cfg, Genesis(tickets, now), es[..|es| - 1]), es[|es| - 1];
    StepOnRows(cfg, v, e);
    if k < |v.db.debates| {
      AbandonedHoldsNoReservation(cfg, tickets, now, es[..|es| - 1], k);
      AbandonedStep(cfg, v, e, k);
    }
  }

  // ----- what a returning call finds -----

  /** In a reachable debate the insert is refused only for the reasons a user can see; the round
      number it picks is never taken. When it goes through, the new round is numbered next, was
      given the current text, waits for a decision, and everything before it is untouched. */
  lemma InsertIsExact(d: Debate, id: nat, s: Suggestion, snapshot: string, now: Time)
    requires RowInv(d, id, now)
    ensures var r := InsertRow(d, id, s, snapshot);
      && (r.Success? <==> d.status == Active && d.currentText == snapshot && !HasPending(d.rounds))
      && (r == Failure(DebateNotActive) <==> d.status != Active)
      && (r == Failure(StaleAIInput) <==> d.status == Active && d.currentText != snapshot)
      && (r == Failure(InReviewRoundExists) <==>
        d.status == Active && d.currentText == snapshot && HasPending(d.rounds))
      && (r.Success? ==>
        && |r.value.rounds| == |d.rounds| + 1 && r.value.rounds[..|d.rounds|] == d.rounds
        && var x := r.value.rounds[|d.rounds|];
          && x.number == |d.rounds| + 1 && x.inputText == d.currentText && x.outputText == s.outputText
          && x.provider == s.provider && x.model == s.model && x.costMicros == s.costMicros
          && (x.feedback == if s.feedback == "" then None else Some(s.feedback))
          && x.status == InReview && x.editedText.None? && x.decidedAt.None? && x.scorerCostMicros.None? && x.id == id
          && r.value == d.(rounds := r.value.rounds, totalMicros := d.totalMicros + x.costMicros, inFlight := None))
  {
    MaxNumberIsLength(d.rounds);
  }
}
