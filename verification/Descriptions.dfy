/**
 The ticket description while a debate refines it. A debate starts from a description read
 before its row is inserted, so the snapshot can be stale; from the insert on, the guarded
 writes are locked out, and approve can tell.
 */
module Descriptions {
  import opened Prelude
  import opened Debates
  import opened Protocol
  import opened Runs

  /** At most one active debate per ticket, as the partial unique index demands. */
  ghost predicate OneActive(db: Tables) {
    forall i, j :: 0 <= i < j < |db.debates| && db.debates[i].status == Active && db.debates[j].status == Active ==>
      db.debates[i].ticket != db.debates[j].ticket
  }

  lemma RowKeepsTicket(cfg: Config, w: World, e: Event, k: nat)
    requires k < |w.db.debates|
    ensures var d, d' := w.db.debates[k], RowAfter(cfg, w, e, k);
      && d'.ticket == d.ticket && d'.originalDescription == d.originalDescription
      && (d'.status == Active ==> d.status == Active)
  {
  }

  lemma StepKeepsOneActive(cfg: Config, w: World, e: Event)
    requires OneActive(w.db)
    ensures OneActive(Step(cfg, w, e).db)
  {
    StepOnRows(cfg, w, e);
    var ds, ds' := w.db.debates, Step(cfg, w, e).db.debates;
    forall k | 0 <= k < |ds|
      ensures ds'[k].ticket == ds[k].ticket && (ds'[k].status == Active ==> ds[k].status == Active)
    {
      RowKeepsTicket(cfg, w, e, k);
    }
  }

  lemma {:induction false} RunKeepsOneActive(cfg: Config, w: World, es: seq<Event>)
    requires OneActive(w.db)
    ensures OneActive(Run(cfg, w, es).db)
  {
    if es != [] {
      RunKeepsOneActive(cfg, w, es[..|es| - 1]);
      StepKeepsOneActive(cfg, Run(cfg, w, es[..|es| - 1]), es[|es| - 1]);
    }
  }

  /** An event rewrites a description only through an approve of a debate active on that ticket,
      or through a write at a moment when no debate is active on it. */
  lemma WhoWritesDescriptions(cfg: Config, w: World, e: Event, t: nat)
    requires t in w.db.tickets
    ensures t in Step(cfg, w, e).db.tickets
    ensures Step(cfg, w, e).db.tickets[t] != w.db.tickets[t] ==>
      || (e.Approve? && e.debate < |w.db.debates| && w.db.debates[e.debate].ticket == t
          && w.db.debates[e.debate].status == Active)
      || ((e.WriteDescription? || e.WriteTicket?) && e.ticket == t && !ActiveOn(w.db, t))
  {
    if e.RefinerReturns? || e.ScorerReturns? || e.Sweep? {
    } else if e.Reserve? || e.Accept? || e.Reject? || e.Undo? {
    }
  }

  /** As long as a debate is active, the description of its ticket stays what it was. */
  lemma {:induction false} DescriptionLocked(cfg: Config, w: World, es: seq<Event>, k: nat)
    requires OneActive(w.db) && k < |w.db.debates| && w.db.debates[k].ticket in w.db.tickets
    ensures k < |Run(cfg, w, es).db.debates|
    ensures var t, v := w.db.debates[k].ticket, Run(cfg, w, es);
      && v.db.debates[k].ticket == t && t in v.db.tickets
      && v.db.debates[k].originalDescription == w.db.debates[k].originalDescription
      && (v.db.debates[k].status == Active ==> v.db.tickets[t] == w.db.tickets[t])
  {
    if es != [] {
      var before, e, t := es[..|es| - 1], es[|es| - 1], w.db.debates[k].ticket;
      var v := Run(cfg, w, before);
      DescriptionLocked(cfg, w, before, k);
      RunKeepsOneActive(cfg, w, before);
      StepOnRows(cfg, v, e);
      RowKeepsTicket(cfg, v, e, k);
      WhoWritesDescriptions(cfg, v, e, t);
      if RowAfter(cfg, v, e, k).status == Active { LockedStep(cfg, v, e, k); }
    }
  }

  lemma LockedStep(cfg: Config, w: World, e: Event, k: nat)
    requires OneActive(w.db) && k < |w.db.debates| && w.db.debates[k].ticket in w.db.tickets
    requires w.db.debates[k].ticket in Step(cfg, w, e).db.tickets
    requires w.db.debates[k].status == Active && RowAfter(cfg, w, e, k).status == Active
    ensures Step(cfg, w, e).db.tickets[w.db.debates[k].ticket] == w.db.tickets[w.db.debates[k].ticket]
  {
    WhoWritesDescriptions(cfg, w, e, w.db.debates[k].ticket);
    if e.Approve? && e.debate < |w.db.debates| && w.db.debates[e.debate].ticket == w.db.debates[k].ticket
       && w.db.debates[e.debate].status == Active {
      assert e.debate == k;
    } else {
      assert ActiveOn(w.db, w.db.debates[k].ticket);
    }
  }

  /** While a debate is active, approve succeeds exactly when the snapshot it started from was the
      description at that moment, however much later it comes. It then writes current_text, to
      this ticket only, and closes the debate. */
  lemma ApproveIffSnapshotWasCurrent(cfg: Config, w: World, es: seq<Event>, k: nat)
    requires OneActive(w.db) && k < |w.db.debates| && w.db.debates[k].ticket in w.db.tickets
    requires k < |Run(cfg, w, es).db.debates| && Run(cfg, w, es).db.debates[k].status == Active
    ensures var t, v := w.db.debates[k].ticket, Run(cfg, w, es);
      var r := TxApprove(v.db, k);
      && (r.Success? <==> w.db.debates[k].originalDescription == w.db.tickets[t])
      && (r.Success? ==>
        && r.value.tickets == v.db.tickets[t := v.db.debates[k].currentText]
        && r.value.debates[k].status == Approved)
  {
    DescriptionLocked(cfg, w, es, k);
  }

  /** The same from the start: a debate that inserted a stale snapshot can never be approved. */
  lemma StaleStartNeverApproves(cfg: Config, w: World, ticket: nat, project: nat, org: nat, desc: string, es: seq<Event>)
    requires OneActive(w.db) && ticket in w.db.tickets && !ActiveOn(w.db, ticket)
    ensures var w', k := Step(cfg, w, StartDebate(ticket, project, org, desc)), |w.db.debates|;
      var v := Run(cfg, w', es);
      && k < |v.db.debates|
      && w'.db.debates[k] == Debate(ticket, project, org, Active, desc, desc, desc, None, 0, NO_EFFORT, None, None, 0, None, [])
      && (v.db.debates[k].status == Active ==> (TxApprove(v.db, k).Success? <==> desc == w.db.tickets[ticket]))
  {
    var e := StartDebate(ticket, project, org, desc);
    var w', k := Step(cfg, w, e), |w.db.debates|;
    StepKeepsOneActive(cfg, w, e);
    assert w'.db.debates[k] == NewDebate(ticket, project, org, desc);
    RunGrows(cfg, w', es);
    if Run(cfg, w', es).db.debates[k].status == Active { ApproveIffSnapshotWasCurrent(cfg, w', es, k); }
  }

  ghost predicate HaveTickets(db: Tables) {
    forall k :: 0 <= k < |db.debates| ==> db.debates[k].ticket in db.tickets
  }

  lemma StepKeepsTickets(cfg: Config, w: World, e: Event)
    requires HaveTickets(w.db)
    ensures HaveTickets(Step(cfg, w, e).db)
  {
    StepOnRows(cfg, w, e);
    var db, db' := w.db, Step(cfg, w, e).db;
    forall k | 0 <= k < |db'.debates| ensures db'.debates[k].ticket in db'.tickets {
      WhoWritesDescriptions(cfg, w, e, if k < |db.debates| then db.debates[k].ticket else e.ticket);
      if k < |db.debates| { RowKeepsTicket(cfg, w, e, k); }
    }
  }

  lemma {:induction false} RunKeepsTickets(cfg: Config, w: World, es: seq<Event>)
    requires HaveTickets(w.db)
    ensures HaveTickets(Run(cfg, w, es).db)
  {
    if es != [] {
      RunKeepsTickets(cfg, w, es[..|es| - 1]);
      StepKeepsTickets(cfg, Run(cfg, w, es[..|es| - 1]), es[|es| - 1]);
    }
  }

  /** In any run of the system, at whatever two moments: while a debate stays active its ticket's
      description does not move, and approve goes through at the later one exactly when the snapshot
      was the description at the earlier one. */
  lemma LockedBetweenAnyTwoMoments(cfg: Config, tickets: map<nat, string>, now: Time, es: seq<Event>, fs: seq<Event>, k: nat)
    requires var w := Run(cfg, Genesis(tickets, now), es);
      && k < |w.db.debates| && k < |Run(cfg, w, fs).db.debates| && Run(cfg, w, fs).db.debates[k].status == Active
    ensures var w := Run(cfg, Genesis(tickets, now), es);
      var d, db := w.db.debates[k], Run(cfg, w, fs).db;
      && d.ticket in w.db.tickets && d.ticket in db.tickets && db.tickets[d.ticket] == w.db.tickets[d.ticket]
      && (TxApprove(db, k).Success? <==> d.originalDescription == w.db.tickets[d.ticket])
  {
    var w := Run(cfg, Genesis(tickets, now), es);
    RunKeepsOneActive(cfg, Genesis(tickets, now), es);
    RunKeepsTickets(cfg, Genesis(tickets, now), es);
    DescriptionLocked(cfg, w, fs, k);
    ApproveIffSnapshotWasCurrent(cfg, w, fs, k);
  }
}
