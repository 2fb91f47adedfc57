/**
 The database as the models package drives it: tables that transactions overwrite in place.
 Each method runs one transaction, statement by statement, under the debate-row lock, and is
 proved to commit exactly the step of the protocol, or to change nothing and return the
 sentinel error of that step. now() and gen_random_uuid() arrive as parameters.
 */
module Store {
  import opened Prelude
  import opened Text
  import opened Debates
  import opened Protocol

  type Outcome = Option<Error>

  class Database {
    var tickets: map<nat, string>
    var debates: seq<Debate>
    var ledger: seq<Spend>
    var projectCents: map<nat, int>

    constructor (descriptions: map<nat, string>)
      ensures Rows() == Tables(descriptions, [], [], map[])
    {
      tickets := descriptions;
      debates := [];
      ledger := [];
      projectCents := map[];
    }

    ghost function Rows(): Tables
      reads this
    {
      Tables(tickets, debates, ledger, projectCents)
    }

    /** Committed as the protocol says, or rolled back with its error. */
    twostate predicate Follows(tx: Result<Tables, Error>, new error: Outcome)
      reads this
    {
      if tx.Success? then Rows() == tx.value && error.None? else Rows() == old(Rows()) && error == Some(tx.error)
    }

    /** Inserts an active debate around an already read description, or finds the one that is active.
        One attempt: nobody comes between the insert and the select. */
    method StartDebate(ticket: nat, project: nat, org: nat, desc: string) returns (error: Outcome, debate: nat)
      modifies this
      ensures Follows(TxStart(old(Rows()), ticket, project, org, desc), error)
      ensures error.None? ==>
        && debate < |debates| && debates[debate].ticket == ticket && debates[debate].status == Active
        && (debate == |old(debates)| <==> !ActiveOn(old(Rows()), ticket))
    {
      if ticket !in tickets { return Some(NoRows), 0; }
      var existing := ActiveDebate(debates, ticket);
      if existing.Some? { return None, existing.value; }
      debate := |debates|;
      debates := debates + [NewDebate(ticket, project, org, desc)];
      return None, debate;
    }

    method ReserveInFlight(k: nat, freshId: nat, now: Time, staleAfter: Time)
      returns (error: Outcome, snapshot: string)
      modifies this
      ensures Follows(TxReserve(old(Rows()), k, freshId, now, staleAfter), error)
      ensures error.None? ==> k < |old(debates)| && snapshot == old(debates)[k].currentText
    {
      snapshot := "";
      if |debates| <= k { return Some(NoRows), snapshot; }
      var d := debates[k];
      if d.status != Active { return Some(DebateNotActive), snapshot; }
      if d.inFlight.Some? {
        if now - d.inFlight.value.startedAt < staleAfter { return Some(InFlightAIRequest), snapshot; }
      }
      debates := debates[k := d.(inFlight := Some(Reservation(freshId, now)))];
      return None, d.currentText;
    }

    method ClearInFlight(k: nat)
      modifies this
      ensures Rows() == TxClear(old(Rows()), k)
    {
      if k < |debates| {
        debates := debates[k := debates[k].(inFlight := None)];
      }
    }

    method InsertDebateRoundTx(k: nat, freshId: nat, s: Suggestion, snapshot: string, now: Time)
      returns (error: Outcome, centsDelta: int)
      modifies this
      ensures Follows(TxInsert(old(Rows()), k, freshId, s, snapshot, now), error)
      ensures error.None? ==> k < |old(debates)| && k < |debates|
      ensures error.None? ==> centsDelta == CentsDelta(old(debates)[k].totalMicros, debates[k].totalMicros)
    {
      centsDelta := 0;
      if |debates| <= k { return Some(NoRows), 0; }
      var d := debates[k];
      if d.status != Active { return Some(DebateNotActive), 0; }
      if d.currentText != snapshot { return Some(StaleAIInput), 0; }
      var number := MaxNumber(d.rounds) + 1;
      var feedback := if s.feedback != "" then Some(s.feedback) else None;
      if HasPending(d.rounds) || HasNumber(d.rounds, number) {
        return Some(InReviewRoundExists), 0;
      }
      var r := Round(freshId, number, s.provider, s.model, feedback, snapshot, s.outputText,
                     None, InReview, None, s.costMicros, None);
      debates := debates[k := d.(rounds := d.rounds + [r])];
      RecordDebateSpendTx(k, freshId, RoundSpend, s.costMicros, now);
      var newTotal := d.totalMicros + s.costMicros;
      debates := debates[k := debates[k].(totalMicros := newTotal, inFlight := None)];
      return None, TruncDiv(newTotal, 10000) - TruncDiv(d.totalMicros, 10000);
    }

    method RecordDebateSpendTx(k: nat, round: nat, kind: SpendKind, costMicros: int, now: Time)
      requires k < |debates|
      modifies this`ledger
      ensures ledger == Charge(old(ledger), Spend(debates[k].org, k, round, kind, costMicros, now))
    {
      if costMicros <= 0 { return; }
      ledger := ledger + [Spend(debates[k].org, k, round, kind, costMicros, now)];
    }

    method AcceptRound(k: nat, roundId: nat, editedText: Option<string>, now: Time) returns (error: Outcome)
      modifies this
      ensures Follows(TxAccept(old(Rows()), k, roundId, editedText, now), error)
    {
      if |debates| <= k { return Some(NoRows); }
      if debates[k].status != Active { return Some(DebateNotActive); }
      var at := FindRound(debates[k].rounds, roundId);
      if at.None? { return Some(NoRows); }
      var r := debates[k].rounds[at.value];
      if r.status != InReview { return Some(RoundNotInReview); }
      var toStore: Option<string> := None;
      if editedText.Some? {
        var trimmed := TrimSpace(editedText.value);
        if trimmed == "" { return Some(EmptyEdit); }
        if trimmed != TrimSpace(r.outputText) { toStore := editedText; }
      }
      var decided := r.(status := Accepted, decidedAt := Some(now), editedText := toStore);
      debates := debates[k := debates[k].(rounds := debates[k].rounds[at.value := decided])];
      var shipped := r.outputText;
      if toStore.Some? { shipped := toStore.value; }
      debates := debates[k := debates[k].(currentText := shipped)];
      return None;
    }

    method RejectRound(k: nat, roundId: nat, now: Time) returns (error: Outcome)
      modifies this
      ensures Follows(TxReject(old(Rows()), k, roundId, now), error)
    {
      if |debates| <= k { return Some(NoRows); }
      if debates[k].status != Active { return Some(DebateNotActive); }
      var at := FindRound(debates[k].rounds, roundId);
      if at.None? { return Some(NoRows); }
      var r := debates[k].rounds[at.value];
      if r.status != InReview { return Some(RoundNotInReview); }
      var decided := r.(status := Rejected, decidedAt := Some(now));
      debates := debates[k := debates[k].(rounds := debates[k].rounds[at.value := decided])];
      return None;
    }

    /** The DELETE counts its rows, then current_text is recomputed from what is left. */
    method UndoRoundsFrom(k: nat, from: int) returns (error: Outcome)
      modifies this
      ensures Follows(TxUndo(old(Rows()), k, from), error)
    {
      if |debates| <= k { return Some(NoRows); }
      if from < 1 { return Some(BadRequest); }
      if debates[k].status != Active { return Some(DebateNotActive); }
      var d := debates[k];
      var kept := Below(d.rounds, from);
      var deleted := |d.rounds| - |kept|;
      if deleted == 0 { return Some(NoRoundsToUndo); }
      debates := debates[k := d.(rounds := kept)];
      var latest := LatestAccepted(debates[k].rounds);
      var newText := d.seed;
      if latest.Some? { newText := SqlShippedText(latest.value); }
      var cleared := d.effort.(score := None, hours := None, reasoning := None, scoredAt := None);
      debates := debates[k := debates[k].(currentText := newText, effort := cleared, lastScored := None)];
      return None;
    }

    method UpdateDebateSeed(k: nat, text: string, maxTextLen: nat) returns (error: Outcome)
      modifies this
      ensures Follows(TxEditSeed(old(Rows()), k, text, maxTextLen), error)
    {
      if |debates| <= k { return Some(NoRows); }
      var seed := TrimSpace(text);
      if seed == "" || maxTextLen < |seed| { return Some(BadRequest); }
      var d := debates[k];
      if d.status != Active { return Some(DebateNotActive); }
      if d.inFlight.Some? { return Some(InFlightAIRequest); }
      if 0 < |d.rounds| { return Some(SeedFrozen); }
      debates := debates[k := d.(seed := seed, currentText := seed)];
      return None;
    }

    /** The ticket is written first, then the debate is closed. */
    method ApproveDebate(k: nat) returns (error: Outcome)
      modifies this
      ensures Follows(TxApprove(old(Rows()), k), error)
    {
      if |debates| <= k || debates[k].ticket !in tickets { return Some(NoRows); }
      var d := debates[k];
      if d.status != Active { return Some(DebateNotActive); }
      if tickets[d.ticket] != d.originalDescription { return Some(ExternalDescriptionEdit); }
      tickets := tickets[d.ticket := d.currentText];
      debates := debates[k := d.(status := Approved, approvedText := Some(d.currentText))];
      return None;
    }

    method AbandonDebate(k: nat) returns (error: Outcome)
      modifies this
      ensures Follows(TxAbandon(old(Rows()), k), error)
    {
      if |debates| <= k { return Some(NoRows); }
      if debates[k].status != Active { return Some(DebateNotActive); }
      debates := debates[k := debates[k].(status := Abandoned, inFlight := None)];
      return None;
    }

    /** Scorer cost, ledger, conditional score and running total, in one transaction. */
    method ApplyScoreResult(k: nat, roundId: nat, res: ScoreResult, now: Time)
      returns (error: Outcome, centsDelta: int)
      modifies this
      ensures Follows(TxScore(old(Rows()), k, roundId, res, now), error)
      ensures error.None? ==> k < |old(debates)| && k < |debates|
      ensures error.None? ==> centsDelta == CentsDelta(old(debates)[k].totalMicros, debates[k].totalMicros)
    {
      if |debates| <= k { return Some(NoRows), 0; }
      var d := debates[k];
      var oldTotal := d.totalMicros;
      var at := FindRound(d.rounds, roundId);
      if at.None? { return Some(NoRows), 0; }
      var priced := d.rounds[at.value].(scorerCostMicros := Some(res.costMicros));
      debates := debates[k := d.(rounds := d.rounds[at.value := priced])];
      RecordDebateSpendTx(k, roundId, ScorerSpend, res.costMicros, now);
      if d.status != Abandoned && (d.lastScored.None? || Fresher(d.rounds, d.lastScored.value, roundId)) {
        debates := debates[k := debates[k].(effort := EffortOf(res, now), lastScored := Some(roundId))];
      }
      var newTotal := oldTotal + res.costMicros;
      debates := debates[k := debates[k].(totalMicros := newTotal)];
      return None, TruncDiv(newTotal, 10000) - TruncDiv(oldTotal, 10000);
    }

    method UpdateTicketDescription(ticket: nat, text: string) returns (error: Outcome)
      modifies this
      ensures Follows(TxWriteDescription(old(Rows()), ticket, text), error)
    {
      if ticket in tickets &&
         !(exists k :: 0 <= k < |debates| && debates[k].ticket == ticket && debates[k].status == Active) {
        tickets := tickets[ticket := text];
        return None;
      }
      if ticket !in tickets { return Some(NoRows); }
      return Some(DescriptionLocked);
    }

    method UpdateTicket(ticket: nat, text: string) returns (error: Outcome)
      modifies this
      ensures Follows(TxWriteTicket(old(Rows()), ticket, text), error)
    {
      if ticket in tickets &&
         (tickets[ticket] == text ||
          !(exists k :: 0 <= k < |debates| && debates[k].ticket == ticket && debates[k].status == Active)) {
        tickets := tickets[ticket := text];
        return None;
      }
      if ticket !in tickets { return Some(NoRows); }
      return Some(DescriptionLocked);
    }

    method IncrementProjectCostCents(project: nat, deltaCents: int)
      modifies this`projectCents
      ensures projectCents == AddCents(old(projectCents), Rollup(project, deltaCents))
    {
      if deltaCents == 0 { return; }
      var stored := if project in projectCents then projectCents[project] else 0;
      projectCents := projectCents[project := stored + deltaCents];
    }

    /** One claim statement: pick eligible rows nobody else has locked, in lease order and up to the
        batch size, then lease them all. */
    method ClaimStaleEffortScores(cfg: Config, now: Time, locked: set<nat>)
      returns (claimed: set<nat>, jobs: set<Job>)
      modifies this
      ensures ClaimableBatch(cfg, old(Rows()), now, claimed) && claimed !! locked
      ensures Rows() == TxClaim(cfg, old(Rows()), now, claimed) && jobs == ClaimedJobs(old(Rows()), claimed)
      ensures forall k :: Waiting(cfg, old(debates), now, locked + claimed, k) ==>
        |claimed| == cfg.batchSize && forall c :: c in claimed ==> LeasedBefore(old(debates)[c], old(debates)[k])
    {
      claimed := {};
      while |claimed| < cfg.batchSize
        invariant ClaimableBatch(cfg, Rows(), now, claimed) && claimed !! locked && Rows() == old(Rows())
        invariant forall c, k :: c in claimed && Waiting(cfg, debates, now, locked + claimed, k) ==>
          LeasedBefore(debates[c], debates[k])
      {
        var next := NextInLine(cfg, debates, now, locked + claimed);
        if next.None? { break; }
        claimed := claimed + {next.value};
      }
      jobs := ClaimedJobs(Tables(tickets, debates, ledger, projectCents), claimed);
      debates := seq(|debates|, k requires 0 <= k < |debates| reads this =>
        if k in claimed then ClaimRow(cfg, debates[k], now) else debates[k]);
    }
  }

  /** An eligible row that is neither locked nor taken. */
  predicate Waiting(cfg: Config, ds: seq<Debate>, at: Time, skip: set<nat>, k: int) {
    0 <= k < |ds| && k !in skip && Claimable(cfg, ds[k], at)
  }

  /** ORDER BY effort_retry_next_at NULLS FIRST. */
  predicate LeasedBefore(a: Debate, b: Debate) {
    a.retryNextAt.None? || (b.retryNextAt.Some? && a.retryNextAt.value <= b.retryNextAt.value)
  }

  function NextInLine(cfg: Config, ds: seq<Debate>, at: Time, skip: set<nat>): (best: Option<nat>)
    ensures best.None? ==> forall k :: !Waiting(cfg, ds, at, skip, k)
    ensures best.Some? ==> Waiting(cfg, ds, at, skip, best.value)
    ensures best.Some? ==> forall k :: Waiting(cfg, ds, at, skip, k) ==> LeasedBefore(ds[best.value], ds[k])
  {
    if ds == [] then None
    else
      var n := |ds| - 1;
      var best := NextInLine(cfg, ds[..n], at, skip);
      assert forall k :: 0 <= k < n ==> (Waiting(cfg, ds, at, skip, k) <==> Waiting(cfg, ds[..n], at, skip, k));
      if Waiting(cfg, ds, at, skip, n) && (best.None? || !LeasedBefore(ds[best.value], ds[n])) then Some(n) else best
  }
}
