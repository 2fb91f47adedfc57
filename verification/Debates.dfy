/**
 The rows of a feature debate and what each transaction does to one debate row and the
 rounds under it. A row function answers with the new row, or with the sentinel error
 that makes the transaction roll back.

 Rounds sit in their debate in insertion order. No query relies on that order: like the
 SQL, each one looks for a number, a status or an id among all of the rows.
 */
module Debates {
  import opened Prelude
  import opened Text

  /** Nanoseconds on the one clock that stands for now() and time.Now(). */
  type Time = int

  datatype RoundStatus = InReview | Accepted | Rejected

  datatype Round = Round(
    id: nat,
    number: int,
    provider: string,
    model: string,
    feedback: Option<string>,
    inputText: string,
    outputText: string,
    editedText: Option<string>,
    status: RoundStatus,
    decidedAt: Option<Time>,
    costMicros: int,
    scorerCostMicros: Option<int>)

  datatype DebateStatus = Active | Approved | Abandoned

  datatype Reservation = Reservation(id: nat, startedAt: Time)

  /** The effort_* columns of a debate. */
  datatype Effort = Effort(
    score: Option<int>,
    hours: Option<int>,
    reasoning: Option<string>,
    scoredAt: Option<Time>,
    provider: Option<string>,
    model: Option<string>)

  datatype Debate = Debate(
    ticket: nat,
    project: nat,
    org: nat,
    status: DebateStatus,
    seed: string,
    currentText: string,
    originalDescription: string,
    inFlight: Option<Reservation>,
    totalMicros: int,
    effort: Effort,
    lastScored: Option<nat>,
    approvedText: Option<string>,
    retryAttempts: nat,
    retryNextAt: Option<Time>,
    rounds: seq<Round>)

  datatype Error =
    | NoRows
    | DebateNotActive
    | InFlightAIRequest
    | StaleAIInput
    | InReviewRoundExists
    | RoundNotInReview
    | EmptyEdit
    | NoRoundsToUndo
    | SeedFrozen
    | ExternalDescriptionEdit
    | DescriptionLocked
    | BadRequest

  datatype Config = Config(
    staleAge: Time,
    minOutputLen: nat,
    maxTextLen: nat,
    retryMinAge: Time,
    baseBackoff: Time,
    maxBackoff: Time,
    batchSize: nat)

  /** What a refiner's accepted reply brings to the insert transaction. */
  datatype Suggestion = Suggestion(
    provider: string, model: string, feedback: string, outputText: string, costMicros: int)

  datatype ScoreResult = ScoreResult(
    score: int, hours: int, reasoning: string, provider: string, model: string, costMicros: int)

  // ----- shipped text: one rule, written once in Go and once in SQL -----

  /** DebateRound.ShippedText. */
  function ShippedText(r: Round): string {
    if r.editedText.Some? && TrimSpace(r.editedText.value) != "" then r.editedText.value else r.outputText
  }

  /** CASE WHEN btrim(edited_text, E' \t\n\r\f\v') <> '' THEN edited_text ELSE output_text END. */
  function SqlShippedText(r: Round): string {
    if r.editedText.Some? && Trim(r.editedText.value, IsSqlSpace) != "" then r.editedText.value else r.outputText
  }

  // ----- queries over the rounds of a debate -----

  /** Where the row with this id is. */
  function FindRound(rs: seq<Round>, id: nat): (at: Option<nat>)
    ensures at.Some? ==> at.value < |rs| && rs[at.value].id == id
    ensures at.None? ==> forall i :: 0 <= i < |rs| ==> rs[i].id != id
  {
    if rs == [] then None
    else if rs[|rs| - 1].id == id then Some(|rs| - 1)
    else FindRound(rs[..|rs| - 1], id)
  }

  /** COALESCE(MAX(round_number), 0). */
  function MaxNumber(rs: seq<Round>): int {
    if rs == [] then 0
    else if |rs| == 1 then rs[0].number
    else Max(rs[|rs| - 1].number, MaxNumber(rs[..|rs| - 1]))
  }

  /** WHERE status = 'accepted' ORDER BY round_number DESC LIMIT 1. */
  function LatestAccepted(rs: seq<Round>): (best: Option<Round>)
    ensures best.Some? ==> best.value in rs && best.value.status == Accepted
  {
    if rs == [] then None
    else
      var last := rs[|rs| - 1];
      var best := LatestAccepted(rs[..|rs| - 1]);
      if last.status == Accepted && (best.None? || best.value.number < last.number) then Some(last) else best
  }

  /** max(decided_at) over the accepted rounds; NULL when there is none. */
  function LastDecided(rs: seq<Round>): Option<Time> {
    if rs == [] then None
    else
      var r := rs[|rs| - 1];
      var best := LastDecided(rs[..|rs| - 1]);
      if r.status == Accepted && r.decidedAt.Some? && (best.None? || best.value < r.decidedAt.value)
      then r.decidedAt else best
  }

  /** The rows that DELETE ... WHERE round_number >= from leaves behind. */
  function Below(rs: seq<Round>, from: int): (kept: seq<Round>)
    ensures |kept| <= |rs|
  {
    if rs == [] then []
    else
      var kept := Below(rs[..|rs| - 1], from);
      if rs[|rs| - 1].number < from then kept + [rs[|rs| - 1]] else kept
  }

  predicate HasPending(rs: seq<Round>) {
    exists i :: 0 <= i < |rs| && rs[i].status == InReview
  }

  predicate HasNumber(rs: seq<Round>, n: int) {
    exists i :: 0 <= i < |rs| && rs[i].number == n
  }

  // ----- transactions on one debate row -----

  const NO_EFFORT := Effort(None, None, None, None, None, None)

  /** The row StartDebate inserts, around the description it read beforehand. */
  function NewDebate(ticket: nat, project: nat, org: nat, desc: string): Debate {
    Debate(ticket, project, org, Active, desc, desc, desc, None, 0, NO_EFFORT, None, None, 0, None, [])
  }

  function ReserveRow(d: Debate, id: nat, now: Time, staleAge: Time): Result<Debate, Error> {
    if d.status != Active then Failure(DebateNotActive)
    else if d.inFlight.Some? && now - d.inFlight.value.startedAt < staleAge then Failure(InFlightAIRequest)
    else Success(d.(inFlight := Some(Reservation(id, now))))
  }

  function ClearRow(d: Debate): Debate {
    d.(inFlight := None)
  }

  function InsertRow(d: Debate, id: nat, s: Suggestion, snapshot: string): Result<Debate, Error> {
    var number := MaxNumber(d.rounds) + 1;
    if d.status != Active then Failure(DebateNotActive)
    else if d.currentText != snapshot then Failure(StaleAIInput)
    else if HasPending(d.rounds) || HasNumber(d.rounds, number) then Failure(InReviewRoundExists)
    else
      var r := Round(id, number, s.provider, s.model, if s.feedback == "" then None else Some(s.feedback),
                     snapshot, s.outputText, None, InReview, None, s.costMicros, None);
      Success(d.(rounds := d.rounds + [r], totalMicros := d.totalMicros + s.costMicros, inFlight := None))
  }

  /** Whether an accept stores the submitted text: not when it is the AI's text but for outer space. */
  function EditToStore(output: string, edited: Option<string>): Result<Option<string>, Error> {
    if edited.None? then Success(None)
    else if TrimSpace(edited.value) == "" then Failure(EmptyEdit)
    else if TrimSpace(edited.value) != TrimSpace(output) then Success(edited)
    else Success(None)
  }

  function AcceptRow(d: Debate, id: nat, edited: Option<string>, now: Time): Result<Debate, Error> {
    if d.status != Active then Failure(DebateNotActive)
    else
      var at := FindRound(d.rounds, id);
      if at.None? then Failure(NoRows)
      else
        var r := d.rounds[at.value];
        if r.status != InReview then Failure(RoundNotInReview)
        else
          var stored := EditToStore(r.outputText, edited);
          if stored.Failure? then Failure(stored.error)
          else
            var r' := r.(status := Accepted, decidedAt := Some(now), editedText := stored.value);
            var shipped := if stored.value.Some? then stored.value.value else r.outputText;
            Success(d.(rounds := d.rounds[at.value := r'], currentText := shipped))
  }

  function RejectRow(d: Debate, id: nat, now: Time): Result<Debate, Error> {
    if d.status != Active then Failure(DebateNotActive)
    else
      var at := FindRound(d.rounds, id);
      if at.None? then Failure(NoRows)
      else if d.rounds[at.value].status != InReview then Failure(RoundNotInReview)
      else
        var r' := d.rounds[at.value].(status := Rejected, decidedAt := Some(now));
        Success(d.(rounds := d.rounds[at.value := r']))
  }

  function UndoRow(d: Debate, from: int): Result<Debate, Error> {
    var kept := Below(d.rounds, from);
    if from < 1 then Failure(BadRequest)
    else if d.status != Active then Failure(DebateNotActive)
    else if |kept| == |d.rounds| then Failure(NoRoundsToUndo)
    else
      var latest := LatestAccepted(kept);
      Success(d.(
        rounds := kept,
        currentText := if latest.Some? then SqlShippedText(latest.value) else d.seed,
        effort := d.effort.(score := None, hours := None, reasoning := None, scoredAt := None),
        lastScored := None))
  }

  function EditSeedRow(d: Debate, text: string, maxLen: nat): Result<Debate, Error> {
    var seed := TrimSpace(text);
    if seed == "" || |seed| > maxLen then Failure(BadRequest)
    else if d.status != Active then Failure(DebateNotActive)
    else if d.inFlight.Some? then Failure(InFlightAIRequest)
    else if |d.rounds| > 0 then Failure(SeedFrozen)
    else Success(d.(seed := seed, currentText := seed))
  }

  function ApproveRow(d: Debate, ticketDesc: string): Result<Debate, Error> {
    if d.status != Active then Failure(DebateNotActive)
    else if ticketDesc != d.originalDescription then Failure(ExternalDescriptionEdit)
    else Success(d.(status := Approved, approvedText := Some(d.currentText)))
  }

  function AbandonRow(d: Debate): Result<Debate, Error> {
    if d.status != Active then Failure(DebateNotActive)
    else Success(d.(status := Abandoned, inFlight := None))
  }

  /** (SELECT round_number ... = last) < (SELECT round_number ... = id), NULL counting as false. */
  predicate Fresher(rs: seq<Round>, last: nat, id: nat) {
    var a, b := FindRound(rs, last), FindRound(rs, id);
    a.Some? && b.Some? && rs[a.value].number < rs[b.value].number
  }

  /** Whether UpdateEffortScoreCondTx writes. */
  predicate TakesScore(d: Debate, id: nat) {
    d.status != Abandoned && (d.lastScored.None? || Fresher(d.rounds, d.lastScored.value, id))
  }

  function EffortOf(res: ScoreResult, now: Time): Effort {
    Effort(Some(res.score), Some(res.hours), Some(res.reasoning), Some(now), Some(res.provider), Some(res.model))
  }

  /** applyScoreResult: the scorer cost on the round, the conditional score, the running total. */
  function ScoreRow(d: Debate, id: nat, res: ScoreResult, now: Time): Result<Debate, Error> {
    var at := FindRound(d.rounds, id);
    if at.None? then Failure(NoRows)
    else
      var r' := d.rounds[at.value].(scorerCostMicros := Some(res.costMicros));
      var d' := d.(rounds := d.rounds[at.value := r'], totalMicros := d.totalMicros + res.costMicros);
      Success(if TakesScore(d, id) then d'.(effort := EffortOf(res, now), lastScored := Some(id)) else d')
  }

  // ----- the retry sweep -----

  function Pow2(n: nat): nat {
    if n == 0 then 1 else 2 * Pow2(n - 1)
  }

  /** LEAST(base * power(2, LEAST(attempts, 30)), max). */
  function Backoff(cfg: Config, attempts: nat): Time {
    Min(cfg.baseBackoff * Pow2(Min(attempts, 30)), cfg.maxBackoff)
  }

  predicate Claimable(cfg: Config, d: Debate, at: Time) {
    var latest := LatestAccepted(d.rounds);
    var decided := LastDecided(d.rounds);
    && d.status != Abandoned
    && (d.lastScored.None? || (latest.Some? && d.lastScored.value != latest.value.id))
    && (d.retryNextAt.None? || d.retryNextAt.value <= at)
    && decided.Some? && decided.value <= at - cfg.retryMinAge
  }

  function ClaimRow(cfg: Config, d: Debate, at: Time): Debate {
    d.(retryAttempts := d.retryAttempts + 1, retryNextAt := Some(at + Backoff(cfg, d.retryAttempts)))
  }
}
