/**
 What each transaction means to its caller: when it goes through, which sentinel error it answers
 with otherwise, and every row it leaves. The row functions and the methods of the store are one
 account of this; here it is said again from outside, in terms of the rows alone.
 */
module Transactions {
  import opened Prelude
  import opened Text
  import opened Debates
  import opened Protocol
  import opened Lineage
  import opened Runs
  import Scores

  /** Some debate is active on the ticket. */
  ghost predicate Busy(db: Tables, ticket: nat) {
    exists k :: 0 <= k < |db.debates| && db.debates[k].ticket == ticket && db.debates[k].status == Active
  }

  // ----- opening and closing a debate -----

  lemma StartIsExact(db: Tables, ticket: nat, project: nat, org: nat, desc: string)
    ensures var r := TxStart(db, ticket, project, org, desc);
      && (r == Failure(NoRows) <==> ticket !in db.tickets) && (r.Success? <==> ticket in db.tickets)
      && (r.Success? && Busy(db, ticket) ==> r.value == db)
      && (r.Success? && !Busy(db, ticket) ==>
        var none := Effort(None, None, None, None, None, None);
        var d := Debate(ticket, project, org, Active, desc, desc, desc, None, 0, none, None, None, 0, None, []);
        r.value == db.(debates := db.debates + [d]))
  {
  }

  /** Approve: an active debate whose ticket still reads as when it was started. The ticket takes the
      current text, and so does the record of what was approved. */
  lemma ApproveIsExact(db: Tables, k: nat)
    ensures var r := TxApprove(db, k);
      && (r == Failure(NoRows) <==> |db.debates| <= k || db.debates[k].ticket !in db.tickets)
      && (k < |db.debates| && db.debates[k].ticket in db.tickets ==>
        var d := db.debates[k];
        && (r == Failure(DebateNotActive) <==> d.status != Active)
        && (r == Failure(ExternalDescriptionEdit) <==>
          d.status == Active && db.tickets[d.ticket] != d.originalDescription)
        && (r.Success? <==> d.status == Active && db.tickets[d.ticket] == d.originalDescription)
        && (r.Success? ==> r.value == db.(
          tickets := db.tickets[d.ticket := d.currentText],
          debates := db.debates[k := d.(status := Approved, approvedText := Some(d.currentText))])))
  {
  }

  /** Abandon: any active debate, and its reservation with it. The ticket is left alone. */
  lemma AbandonIsExact(db: Tables, k: nat)
    ensures var r := TxAbandon(db, k);
      && (r == Failure(NoRows) <==> |db.debates| <= k)
      && (k < |db.debates| ==>
        && (r == Failure(DebateNotActive) <==> db.debates[k].status != Active)
        && (r.Success? <==> db.debates[k].status == Active)
        && (r.Success? ==> r.value == db.(
          debates := db.debates[k := db.debates[k].(status := Abandoned, inFlight := None)])))
  {
  }

  /** Event i of the run closed debate k: it was active before, and it has this status right after. */
  ghost predicate ClosedAt(cfg: Config, w: World, es: seq<Event>, i: int, k: nat, status: DebateStatus) {
    && 0 <= i < |es|
    && var v := Run(cfg, w, es[..i]);
      && k < |v.db.debates| && v.db.debates[k].status == Active
      && k < |Step(cfg, v, es[i]).db.debates| && Step(cfg, v, es[i]).db.debates[k].status == status
  }

  /** Event i approved debate k, and with it wrote the ticket. */
  ghost predicate ApprovedAt(cfg: Config, w: World, es: seq<Event>, i: int, k: nat, text: string) {
    && ClosedAt(cfg, w, es, i, k, Approved) && es[i] == Approve(k)
    && var v := Run(cfg, w, es[..i]);
      && v.db.debates[k].currentText == text
      && Step(cfg, v, es[i]).db.tickets == v.db.tickets[v.db.debates[k].ticket := text]
  }

  lemma StatusMoves(cfg: Config, w: World, e: Event, k: nat)
    requires k < |w.db.debates|
    ensures var d, d', db' := w.db.debates[k], RowAfter(cfg, w, e, k), Step(cfg, w, e).db;
      d'.status != d.status ==>
        && d.status == Active
        && (d'.status == Approved ==>
          && e == Approve(k) && d'.approvedText == Some(d.currentText)
          && db'.tickets == w.db.tickets[d.ticket := d.currentText])
        && (d'.status == Abandoned ==> e == Abandon(k))
  {
    if e.Approve? { ApproveIsExact(w.db, e.debate); }
    if e.Abandon? { AbandonIsExact(w.db, e.debate); }
  }

  /** A debate is approved only because an approve of it went through and wrote its ticket, with the text
      the debate still has; and abandoned only because an abandon of it went through. */
  lemma {:induction false} ClosedByItsOwnEvent(cfg: Config, tickets: map<nat, string>, now: Time, es: seq<Event>, k: nat)
    requires k < |Run(cfg, Genesis(tickets, now), es).db.debates|
    ensures var w := Genesis(tickets, now);
      var d := Run(cfg, w, es).db.debates[k];
      && (d.status == Approved ==>
        d.approvedText.Some? && exists i :: ApprovedAt(cfg, w, es, i, k, d.approvedText.value))
      && (d.status == Abandoned ==> exists i :: ClosedAt(cfg, w, es, i, k, Abandoned) && es[i] == Abandon(k))
  {
    var w, n := Genesis(tickets, now), |es| - 1;
    var v, e := Run(cfg, w, es[..n]), es[n];
    StepOnRows(cfg, v, e);
    if k < |v.db.debates| {
      var d, d' := v.db.debates[k], RowAfter(cfg, v, e, k);
      StatusMoves(cfg, v, e, k);
      if d.status == d'.status && d.status != Active {
        ClosedByItsOwnEvent(cfg, tickets, now, es[..n], k);
        ClosedStep(cfg, v, e, k);
        StillClosedAt(cfg, w, es, n, k, d);
      } else if d'.status == Approved {
        assert ApprovedAt(cfg, w, es, n, k, d'.approvedText.value);
      } else if d'.status == Abandoned {
        assert ClosedAt(cfg, w, es, n, k, Abandoned);
      }
    }
  }

  lemma StillClosedAt(cfg: Config, w: World, es: seq<Event>, n: nat, k: nat, d: Debate)
    requires n <= |es|
    requires d.status == Approved ==>
      d.approvedText.Some? && exists i :: ApprovedAt(cfg, w, es[..n], i, k, d.approvedText.value)
    requires d.status == Abandoned ==>
      exists i :: ClosedAt(cfg, w, es[..n], i, k, Abandoned) && es[..n][i] == Abandon(k)
    ensures d.status == Approved ==> exists i :: ApprovedAt(cfg, w, es, i, k, d.approvedText.value)
    ensures d.status == Abandoned ==> exists i :: ClosedAt(cfg, w, es, i, k, Abandoned) && es[i] == Abandon(k)
  {
    if d.status == Approved {
      var i :| ApprovedAt(cfg, w, es[..n], i, k, d.approvedText.value);
      assert es[..n][..i] == es[..i];
      assert ApprovedAt(cfg, w, es, i, k, d.approvedText.value);
    } else if d.status == Abandoned {
      var i :| ClosedAt(cfg, w, es[..n], i, k, Abandoned) && es[..n][i] == Abandon(k);
      assert es[..n][..i] == es[..i];
      assert ClosedAt(cfg, w, es, i, k, Abandoned);
    }
  }

  // ----- descriptions -----

  /** The description of one ticket reads as given; nothing else of the tables differs. */
  ghost predicate Describes(db: Tables, db': Tables, ticket: nat, text: string) {
    && db' == db.(tickets := db'.tickets) && db'.tickets.Keys == db.tickets.Keys
    && ticket in db'.tickets && db'.tickets[ticket] == text
    && forall t :: t in db.tickets && t != ticket ==> db'.tickets[t] == db.tickets[t]
  }

  lemma DescriptionWriteIsExact(db: Tables, ticket: nat, text: string)
    ensures var r := TxWriteDescription(db, ticket, text);
      && (r == Failure(NoRows) <==> ticket !in db.tickets)
      && (r == Failure(DescriptionLocked) <==> ticket in db.tickets && Busy(db, ticket))
      && (r.Success? <==> ticket in db.tickets && !Busy(db, ticket))
      && (r.Success? ==> Describes(db, r.value, ticket, text))
  {
  }

  /** The whole-ticket update passes under a lock exactly when it hands the description back unchanged. */
  lemma TicketWriteIsExact(db: Tables, ticket: nat, text: string)
    ensures var r := TxWriteTicket(db, ticket, text);
      && (r == Failure(NoRows) <==> ticket !in db.tickets)
      && (r == Failure(DescriptionLocked) <==>
        ticket in db.tickets && Busy(db, ticket) && db.tickets[ticket] != text)
      && (r.Success? <==> ticket in db.tickets && (!Busy(db, ticket) || db.tickets[ticket] == text))
      && (r.Success? ==> Describes(db, r.value, ticket, text) && (Busy(db, ticket) ==> r.value == db))
  {
  }

  // ----- rounds -----

  /** A round that is not there is not found, whatever is asked of it. */
  lemma UnknownRound(d: Debate, id: nat, edited: Option<string>, res: ScoreResult, now: Time)
    requires forall i :: 0 <= i < |d.rounds| ==> d.rounds[i].id != id
    ensures AcceptRow(d, id, edited, now) == Failure(if d.status == Active then NoRows else DebateNotActive)
    ensures RejectRow(d, id, now) == Failure(if d.status == Active then NoRows else DebateNotActive)
    ensures ScoreRow(d, id, res, now) == Failure(NoRows)
  {
  }

  lemma UndoFromNothing(d: Debate, from: int)
    requires from < 1
    ensures UndoRow(d, from) == Failure(BadRequest)
  {
  }

  /** The seed of an active, idle debate without rounds takes the trimmed text, and so does the document. */
  lemma SeedIsExact(d: Debate, text: string, maxLen: nat)
    ensures var r, seed := EditSeedRow(d, text, maxLen), TrimSpace(text);
      var fits := !Blank(text) && |seed| <= maxLen;
      && (r == Failure(BadRequest) <==> !fits)
      && (r == Failure(DebateNotActive) <==> fits && d.status != Active)
      && (r == Failure(InFlightAIRequest) <==> fits && d.status == Active && d.inFlight.Some?)
      && (r == Failure(SeedFrozen) <==> fits && d.status == Active && d.inFlight.None? && d.rounds != [])
      && (r.Success? <==> fits && d.status == Active && d.inFlight.None? && d.rounds == [])
      && (r.Success? ==> r.value == d.(seed := seed, currentText := seed))
  {
    BlankIffTrimsAway(text);
  }

  /** What an accept hands to the scorer: its own round, and the text the document has just taken. */
  lemma AcceptStartsItsJob(cfg: Config, w: World, k: nat, i: nat, edited: Option<string>)
    requires RowsInv(w) && k < |w.db.debates| && i < |w.db.debates[k].rounds|
    ensures var d, id := w.db.debates[k], w.db.debates[k].rounds[i].id;
      var w' := Step(cfg, w, Accept(k, id, edited));
      if d.status == Active && d.rounds[i].status == InReview && (edited.Some? ==> !Blank(edited.value)) then
        && w'.jobs == w.jobs + {Job(k, id, w'.db.debates[k].currentText)}
        && w' == w.(db := w.db.(debates := w.db.debates[k := w'.db.debates[k]]), jobs := w'.jobs)
      else w' == w
  {
    var d := w.db.debates[k];
    assert RowInv(d, w.nextId, w.now);
    AcceptIsExact(d, i, edited, w.nextId, w.now);
    var r := AcceptRow(d, d.rounds[i].id, edited, w.now);
    StepAccepts(cfg, w, k, d.rounds[i].id, edited);
    if r.Success? {
      AcceptedIsFound(d, i, edited, w.nextId, w.now);
    }
  }

  lemma AcceptedIsFound(d: Debate, i: nat, edited: Option<string>, nextId: nat, now: Time)
    requires RowInv(d, nextId, now) && i < |d.rounds| && AcceptRow(d, d.rounds[i].id, edited, now).Success?
    ensures var id, d' := d.rounds[i].id, AcceptRow(d, d.rounds[i].id, edited, now).value;
      FindRound(d'.rounds, id) == Some(i) && i < |d'.rounds| && ShippedText(d'.rounds[i]) == d'.currentText
  {
    AcceptIsExact(d, i, edited, nextId, now);
    AcceptKeeps(d, d.rounds[i].id, edited, nextId, now);
    Scores.IdIsUnique(AcceptRow(d, d.rounds[i].id, edited, now).value.rounds, nextId, i);
  }

  lemma StepAccepts(cfg: Config, w: World, k: nat, id: nat, edited: Option<string>)
    requires k < |w.db.debates|
    ensures var r, w' := AcceptRow(w.db.debates[k], id, edited, w.now), Step(cfg, w, Accept(k, id, edited));
      if r.Failure? then w' == w
      else
        var at := FindRound(r.value.rounds, id);
        w' == w.(
          db := w.db.(debates := w.db.debates[k := r.value]),
          jobs := w.jobs + if at.Some? then {Job(k, id, ShippedText(r.value.rounds[at.value]))} else {})
  {
  }

  /** A reply makes a suggestion when it was not cut off, is not blank, and is long enough in bytes once
      trimmed. */
  lemma UsableIff(cfg: Config, reply: Reply)
    ensures Usable(cfg, reply) <==>
      && reply.Text? && !reply.truncated && !Blank(reply.text)
      && cfg.minOutputLen <= |Utf8(TrimSpace(reply.text))|
  {
    if reply.Text? {
      BlankIffTrimsAway(reply.text);
      ByteLenCountsUtf8(TrimSpace(reply.text));
    }
  }

  // ----- charges, claims and cents -----

  /** A charge that is positive is one entry at the end of the ledger; any other is none. */
  lemma ChargeIsExact(l: seq<Spend>, s: Spend)
    ensures s.costMicros > 0 ==> |Charge(l, s)| == |l| + 1 && Charge(l, s)[..|l|] == l && Charge(l, s)[|l|] == s
    ensures s.costMicros <= 0 ==> Charge(l, s) == l
  {
  }

  /** A scorer result for a live round: its row as the round and display prescribe, and its entry in the
      ledger of the debate's org; nothing else. */
  lemma ScoreIsCommitted(db: Tables, k: nat, i: nat, res: ScoreResult, nextId: nat, now: Time)
    requires k < |db.debates| && RowInv(db.debates[k], nextId, now) && ScoreNamesLiveRound(db.debates[k])
    requires i < |db.debates[k].rounds|
    ensures var d, id := db.debates[k], db.debates[k].rounds[i].id;
      var r := TxScore(db, k, id, res, now);
      && r.Success? && |r.value.debates| == |db.debates|
      && var d' := r.value.debates[k];
        && ScoreRow(d, id, res, now) == Success(d')
        && r.value == db.(
          debates := db.debates[k := d'],
          ledger := if res.costMicros <= 0 then db.ledger
                    else db.ledger + [Spend(d.org, k, id, ScorerSpend, res.costMicros, now)])
        && d'.rounds == d.rounds[i := d.rounds[i].(scorerCostMicros := Some(res.costMicros))]
        && d'.totalMicros == d.totalMicros + res.costMicros
        && (if Scores.NothingFresher(d, i) then d'.lastScored == Some(id) && Scores.ShowsResult(d'.effort, res, now)
            else d'.lastScored == d.lastScored && d'.effort == d.effort)
  {
    Scores.ScoreIsExact(db.debates[k], i, res, nextId, now);
  }

  /** A claim touches two columns of a claimed debate: one more attempt, and a lease from the sweep's
      own reading of the time. */
  lemma ClaimRowIsExact(cfg: Config, d: Debate, at: Time)
    ensures var lease := Min(cfg.baseBackoff * Pow2(Min(d.retryAttempts, 30)), cfg.maxBackoff);
      ClaimRow(cfg, d, at) == d.(retryAttempts := d.retryAttempts + 1, retryNextAt := Some(at + lease))
  {
  }

  /** A claim takes every debate it names, and no other table or row differs. */
  lemma ClaimIsExact(cfg: Config, db: Tables, at: Time, claimed: set<nat>)
    ensures var db' := TxClaim(cfg, db, at, claimed);
      && db' == db.(debates := db'.debates) && |db'.debates| == |db.debates|
      && forall k :: 0 <= k < |db.debates| ==>
        db'.debates[k] == if k in claimed then ClaimRow(cfg, db.debates[k], at) else db.debates[k]
  {
  }

  function CentsOf(cents: map<nat, int>, project: nat): int {
    if project in cents then cents[project] else 0
  }

  lemma CentsAreAdded(cents: map<nat, int>, r: Rollup, project: nat)
    ensures CentsOf(AddCents(cents, r), project) == CentsOf(cents, project) + if project == r.project then r.cents else 0
    ensures r.cents == 0 ==> AddCents(cents, r) == cents
  {
  }
}
