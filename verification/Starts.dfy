/**
 StartDebate among other transactions. Its insert and its select are two statements, tried twice:
 whoever closes the conflicting debate in between makes an attempt miss.
 */
module Starts {
  import opened Debates
  import opened Protocol
  import opened Descriptions

  datatype Started = New(debate: nat) | Existing(debate: nat) | Missed

  /** One attempt: the insert in w, and after a conflict the select in v. */
  function Attempt(w: World, v: World, ticket: nat): Started {
    if !ActiveOn(w.db, ticket) then New(|w.db.debates|)
    else
      var at := ActiveDebate(v.db.debates, ticket);
      if at.Some? then Existing(at.value) else Missed
  }

  /** Others' events between the first insert and its select, until the second insert, and until its
      select. */
  datatype Gaps = Gaps(first: seq<Event>, between: seq<Event>, second: seq<Event>)

  /** The world of the first select. */
  function Selected(cfg: Config, w: World, e: Event, gaps: Gaps): World {
    Run(cfg, Step(cfg, w, e), gaps.first)
  }

  /** The world of the second insert. */
  function Retried(cfg: Config, w: World, e: Event, gaps: Gaps): World {
    Run(cfg, Selected(cfg, w, e, gaps), gaps.between)
  }

  /** The world of the second select. */
  function Reselected(cfg: Config, w: World, e: Event, gaps: Gaps): World {
    Run(cfg, Step(cfg, Retried(cfg, w, e, gaps), e), gaps.second)
  }

  /** The loop, for a ticket whose description was read: e is its insert. */
  function Start(cfg: Config, w: World, e: Event, gaps: Gaps): Started
    requires e.StartDebate?
  {
    var once := Attempt(w, Selected(cfg, w, e, gaps), e.ticket);
    if once != Missed then once
    else Attempt(Retried(cfg, w, e, gaps), Reselected(cfg, w, e, gaps), e.ticket)
  }

  lemma ActiveDebateIsActive(db: Tables, ticket: nat)
    ensures ActiveDebate(db.debates, ticket).Some? <==> ActiveOn(db, ticket)
  {
  }

  /** The loop gives up when, in both attempts, a debate was active on the ticket at the insert and none
      was at the select. */
  lemma GivesUpIff(cfg: Config, w: World, e: Event, gaps: Gaps)
    requires e.StartDebate?
    ensures Start(cfg, w, e, gaps) == Missed <==>
      && ActiveOn(w.db, e.ticket) && !ActiveOn(Selected(cfg, w, e, gaps).db, e.ticket)
      && ActiveOn(Retried(cfg, w, e, gaps).db, e.ticket) && !ActiveOn(Reselected(cfg, w, e, gaps).db, e.ticket)
  {
    ActiveDebateIsActive(Selected(cfg, w, e, gaps).db, e.ticket);
    ActiveDebateIsActive(Reselected(cfg, w, e, gaps).db, e.ticket);
  }

  /** The event approves or abandons a debate that is active on the ticket. */
  ghost predicate Closes(w: World, e: Event, ticket: nat) {
    && (e.Approve? || e.Abandon?) && e.debate < |w.db.debates|
    && w.db.debates[e.debate].ticket == ticket && w.db.debates[e.debate].status == Active
  }

  lemma OnlyClosingDeactivates(cfg: Config, w: World, e: Event, ticket: nat)
    requires ActiveOn(w.db, ticket) && !ActiveOn(Step(cfg, w, e).db, ticket)
    ensures Closes(w, e, ticket)
  {
    var k :| 0 <= k < |w.db.debates| && w.db.debates[k].ticket == ticket && w.db.debates[k].status == Active;
    StepOnRows(cfg, w, e);
    assert Step(cfg, w, e).db.debates[k] == RowAfter(cfg, w, e, k);
    StaysActive(cfg, w, e, k);
  }

  lemma StaysActive(cfg: Config, w: World, e: Event, k: nat)
    requires k < |w.db.debates| && w.db.debates[k].status == Active
    ensures RowAfter(cfg, w, e, k).ticket == w.db.debates[k].ticket
    ensures RowAfter(cfg, w, e, k).status == Active || ((e.Approve? || e.Abandon?) && e.debate == k)
  {
  }

  /** An attempt misses only because the debate it ran into was approved or abandoned meanwhile. */
  lemma {:induction false} MissMeansClosed(cfg: Config, w: World, es: seq<Event>, ticket: nat)
    requires ActiveOn(w.db, ticket) && !ActiveOn(Run(cfg, w, es).db, ticket)
    ensures exists i :: 0 <= i < |es| && Closes(Run(cfg, w, es[..i]), es[i], ticket)
  {
    var n := |es| - 1;
    if ActiveOn(Run(cfg, w, es[..n]).db, ticket) {
      OnlyClosingDeactivates(cfg, Run(cfg, w, es[..n]), es[n], ticket);
    } else {
      MissMeansClosed(cfg, w, es[..n], ticket);
      var i :| 0 <= i < n && Closes(Run(cfg, w, es[..n][..i]), es[..n][i], ticket);
      assert es[..n][..i] == es[..i];
    }
  }

  predicate IsActive(w: World, ticket: nat, k: int) {
    0 <= k < |w.db.debates| && w.db.debates[k].ticket == ticket && w.db.debates[k].status == Active
  }

  lemma FindActive(w: World, ticket: nat) returns (k: nat)
    requires ActiveOn(w.db, ticket)
    ensures IsActive(w, ticket, k)
  {
    k :| 0 <= k < |w.db.debates| && w.db.debates[k].ticket == ticket && w.db.debates[k].status == Active;
  }

  /** The insert of e in w made debate k, which reads as the description. */
  ghost predicate Inserted(cfg: Config, w: World, e: Event, k: nat)
    requires e.StartDebate?
  {
    var db := Step(cfg, w, e).db;
    k == |w.db.debates| < |db.debates| && db.debates[k] == NewDebate(e.ticket, e.project, e.org, e.desc)
  }

  lemma InsertWorks(cfg: Config, w: World, e: Event)
    requires e.StartDebate? && e.ticket in w.db.tickets
    ensures if ActiveOn(w.db, e.ticket) then Step(cfg, w, e) == w else Inserted(cfg, w, e, |w.db.debates|)
  {
  }

  lemma {:induction false} TicketStays(cfg: Config, w: World, es: seq<Event>, ticket: nat)
    requires ticket in w.db.tickets
    ensures ticket in Run(cfg, w, es).db.tickets
  {
    if es != [] {
      TicketStays(cfg, w, es[..|es| - 1], ticket);
      WhoWritesDescriptions(cfg, Run(cfg, w, es[..|es| - 1]), es[|es| - 1], ticket);
    }
  }

  /** Whatever others do in the gaps, what the loop answers is true at the statement that answered: a new
      debate was just inserted by this call, its only one, or an existing one is active on the ticket;
      giving up has changed nothing. */
  lemma AnswerIsActive(cfg: Config, w: World, e: Event, gaps: Gaps)
    requires e.StartDebate? && e.ticket in w.db.tickets
    ensures var again := Retried(cfg, w, e, gaps);
      match Start(cfg, w, e, gaps)
      case New(k) =>
        if !ActiveOn(w.db, e.ticket) then Inserted(cfg, w, e, k) else Step(cfg, w, e) == w && Inserted(cfg, again, e, k)
      case Existing(k) =>
        && Step(cfg, w, e) == w
        && (if ActiveOn(Selected(cfg, w, e, gaps).db, e.ticket) then IsActive(Selected(cfg, w, e, gaps), e.ticket, k)
            else Step(cfg, again, e) == again && IsActive(Reselected(cfg, w, e, gaps), e.ticket, k))
      case Missed => Step(cfg, w, e) == w && Step(cfg, again, e) == again
  {
    var again := Retried(cfg, w, e, gaps);
    TicketStays(cfg, w, [e], e.ticket);
    assert [e][..0] == [] && Run(cfg, w, [e]) == Step(cfg, w, e);
    TicketStays(cfg, Step(cfg, w, e), gaps.first, e.ticket);
    TicketStays(cfg, Selected(cfg, w, e, gaps), gaps.between, e.ticket);
    InsertWorks(cfg, w, e);
    InsertWorks(cfg, again, e);
    ActiveDebateIsActive(Selected(cfg, w, e, gaps).db, e.ticket);
    ActiveDebateIsActive(Reselected(cfg, w, e, gaps).db, e.ticket);
  }

  /** Debate k is active on the ticket, and no other is. */
  ghost predicate OnlyActive(w: World, ticket: nat, k: nat) {
    IsActive(w, ticket, k) && forall j :: IsActive(w, ticket, j) ==> j == k
  }

  lemma AbandonedNow(cfg: Config, w: World, ticket: nat, k: nat)
    requires OnlyActive(w, ticket, k)
    ensures var v := Run(cfg, w, [Abandon(k)]);
      !ActiveOn(v.db, ticket) && v.db.tickets == w.db.tickets && |v.db.debates| == |w.db.debates|
  {
    assert [Abandon(k)][..0] == [];
    var v := Step(cfg, w, Abandon(k));
    assert Run(cfg, w, [Abandon(k)]) == v;
    assert v.db.debates == w.db.debates[k := v.db.debates[k]] && v.db.debates[k].status == Abandoned;
    if ActiveOn(v.db, ticket) {
      var j := FindActive(v, ticket);
      assert IsActive(w, ticket, j);
    }
  }

  lemma StartedNow(cfg: Config, w: World, e: Event)
    requires e.StartDebate? && e.ticket in w.db.tickets && !ActiveOn(w.db, e.ticket)
    ensures OnlyActive(Run(cfg, w, [e]), e.ticket, |w.db.debates|)
  {
    assert [e][..0] == [];
    var v := Step(cfg, w, e);
    assert Run(cfg, w, [e]) == v;
    assert v.db.debates == w.db.debates + [NewDebate(e.ticket, e.project, e.org, e.desc)];
    assert forall j :: 0 <= j < |w.db.debates| ==> v.db.debates[j] == w.db.debates[j];
  }

  lemma ActiveIsOnly(w: World, ticket: nat, k: nat)
    requires OneActive(w.db) && IsActive(w, ticket, k)
    ensures OnlyActive(w, ticket, k)
  {
  }

  /** From any reachable world with an active debate on the ticket, others can make both attempts miss:
      abandoned, started again and abandoned again, it is there at both inserts and gone at both selects. */
  lemma TwoAttemptsCanMiss(cfg: Config, w: World, e: Event, k: nat)
    requires e.StartDebate? && e.ticket in w.db.tickets && OneActive(w.db) && IsActive(w, e.ticket, k)
    ensures Start(cfg, w, e, Gaps([Abandon(k)], [e], [Abandon(|w.db.debates|)])) == Missed
  {
    var n := |w.db.debates|;
    var gaps := Gaps([Abandon(k)], [e], [Abandon(n)]);
    ActiveIsOnly(w, e.ticket, k);
    InsertWorks(cfg, w, e);
    AbandonedNow(cfg, w, e.ticket, k);
    var v := Selected(cfg, w, e, gaps);
    StartedNow(cfg, v, e);
    TicketStays(cfg, v, [e], e.ticket);
    var u := Retried(cfg, w, e, gaps);
    assert IsActive(u, e.ticket, n);
    InsertWorks(cfg, u, e);
    AbandonedNow(cfg, u, e.ticket, n);
    GivesUpIff(cfg, w, e, gaps);
  }

  /** When two attempts suffice, read off the world the call starts in: the loop answers, whatever others
      do in its gaps, exactly when no debate is active on the ticket at its first insert. */
  lemma CanGiveUpIffActive(cfg: Config, w: World, e: Event)
    requires e.StartDebate? && e.ticket in w.db.tickets && OneActive(w.db)
    ensures (exists gaps :: Start(cfg, w, e, gaps) == Missed) <==> ActiveOn(w.db, e.ticket)
  {
    if ActiveOn(w.db, e.ticket) {
      var k := FindActive(w, e.ticket);
      TwoAttemptsCanMiss(cfg, w, e, k);
    }
  }
}
