/**
 The debate protocol as a state machine. `Tables` is what the database holds; `World` adds
 what lives outside it between transactions: refiner calls that have not come back, scorer
 jobs, and cents rollups that have not been written. Every transaction is one event.
 */
module Protocol {
  import opened Prelude
  import opened Text
  import opened Debates

  datatype SpendKind = RoundSpend | ScorerSpend

  /** One row of the append-only ledger debate_spend. */
  datatype Spend = Spend(org: nat, debate: nat, round: nat, kind: SpendKind, costMicros: int, incurredAt: Time)

  /** Debates are keyed by their position: rows are only ever added. */
  datatype Tables = Tables(
    tickets: map<nat, string>,
    debates: seq<Debate>,
    ledger: seq<Spend>,
    projectCents: map<nat, int>)

  /** A CreateRound request between its reservation and its insert or clear. */
  datatype Request = Request(debate: nat, snapshot: string, startedAt: Time, returned: bool)

  /** A scorer call some accept or sweep started. It may come back at any time, any number of times. */
  datatype Job = Job(debate: nat, round: nat, text: string)

  /** A cents delta for project_costs that is computed after its transaction commits. */
  datatype Rollup = Rollup(project: nat, cents: int)

  datatype World = World(
    db: Tables,
    requests: map<nat, Request>,
    jobs: set<Job>,
    rollups: seq<Rollup>,
    lost: seq<Rollup>,
    nextId: nat,
    now: Time)

  datatype Reply =
    | CallFailed
    | Text(text: string, truncated: bool, provider: string, model: string, feedback: string, costMicros: int)

  datatype Event =
    | StartDebate(ticket: nat, project: nat, org: nat, desc: string)
    | Reserve(debate: nat)
    | RefinerReturns(request: nat, reply: Reply)
    | ClearInFlight(request: nat)
    | Crash(request: nat)
    | Accept(debate: nat, round: nat, edited: Option<string>)
    | Reject(debate: nat, round: nat)
    | Undo(debate: nat, from: int)
    | EditSeed(debate: nat, text: string)
    | Approve(debate: nat)
    | Abandon(debate: nat)
    | ScorerReturns(job: Job, result: ScoreResult)
    | Sweep(at: Time, claimed: set<nat>)
    | WriteDescription(ticket: nat, text: string)
    | WriteTicket(ticket: nat, text: string)
    | LandRollup(index: nat)
    | LoseRollup(index: nat)
    | Tick(elapsed: nat)

  // ----- transactions on the tables -----

  predicate ActiveOn(db: Tables, ticket: nat) {
    exists k :: 0 <= k < |db.debates| && db.debates[k].ticket == ticket && db.debates[k].status == Active
  }

  /** GetActiveDebate. */
  function ActiveDebate(ds: seq<Debate>, ticket: nat): (at: Option<nat>)
    ensures at.Some? ==> at.value < |ds| && ds[at.value].ticket == ticket && ds[at.value].status == Active
    ensures at.None? ==> forall k :: 0 <= k < |ds| && ds[k].ticket == ticket ==> ds[k].status != Active
  {
    if ds == [] then None
    else if ds[|ds| - 1].ticket == ticket && ds[|ds| - 1].status == Active then Some(|ds| - 1)
    else ActiveDebate(ds[..|ds| - 1], ticket)
  }

  /** A row function lifted to the tables: commit the new row, or roll back. */
  function Put(db: Tables, k: nat, r: Result<Debate, Error>): Result<Tables, Error>
    requires k < |db.debates|
  {
    if r.Failure? then Failure(r.error) else Success(db.(debates := db.debates[k := r.value]))
  }

  /** RecordDebateSpendTx. */
  function Charge(ledger: seq<Spend>, s: Spend): seq<Spend> {
    if s.costMicros <= 0 then ledger else ledger + [s]
  }

  /** INSERT ... ON CONFLICT (ticket_id) WHERE status = 'active' DO NOTHING. */
  function TxStart(db: Tables, ticket: nat, project: nat, org: nat, desc: string): Result<Tables, Error> {
    if ticket !in db.tickets then Failure(NoRows)
    else if ActiveOn(db, ticket) then Success(db)
    else Success(db.(debates := db.debates + [NewDebate(ticket, project, org, desc)]))
  }

  function TxReserve(db: Tables, k: nat, id: nat, now: Time, staleAge: Time): Result<Tables, Error> {
    if |db.debates| <= k then Failure(NoRows) else Put(db, k, ReserveRow(db.debates[k], id, now, staleAge))
  }

  function TxClear(db: Tables, k: nat): Tables {
    if |db.debates| <= k then db else db.(debates := db.debates[k := ClearRow(db.debates[k])])
  }

  function TxInsert(db: Tables, k: nat, id: nat, s: Suggestion, snapshot: string, now: Time): Result<Tables, Error> {
    if |db.debates| <= k then Failure(NoRows)
    else
      var r := Put(db, k, InsertRow(db.debates[k], id, s, snapshot));
      if r.Failure? then r
      else Success(r.value.(
        ledger := Charge(db.ledger, Spend(db.debates[k].org, k, id, RoundSpend, s.costMicros, now))))
  }

  function TxAccept(db: Tables, k: nat, id: nat, edited: Option<string>, now: Time): Result<Tables, Error> {
    if |db.debates| <= k then Failure(NoRows) else Put(db, k, AcceptRow(db.debates[k], id, edited, now))
  }

  function TxReject(db: Tables, k: nat, id: nat, now: Time): Result<Tables, Error> {
    if |db.debates| <= k then Failure(NoRows) else Put(db, k, RejectRow(db.debates[k], id, now))
  }

  function TxUndo(db: Tables, k: nat, from: int): Result<Tables, Error> {
    if |db.debates| <= k then Failure(NoRows) else Put(db, k, UndoRow(db.debates[k], from))
  }

  function TxEditSeed(db: Tables, k: nat, text: string, maxLen: nat): Result<Tables, Error> {
    if |db.debates| <= k then Failure(NoRows) else Put(db, k, EditSeedRow(db.debates[k], text, maxLen))
  }

  /** The approve joins the ticket row, writes its description and closes the debate. */
  function TxApprove(db: Tables, k: nat): Result<Tables, Error> {
    if |db.debates| <= k || db.debates[k].ticket !in db.tickets then Failure(NoRows)
    else
      var d := db.debates[k];
      var r := Put(db, k, ApproveRow(d, db.tickets[d.ticket]));
      if r.Failure? then r else Success(r.value.(tickets := db.tickets[d.ticket := d.currentText]))
  }

  function TxAbandon(db: Tables, k: nat): Result<Tables, Error> {
    if |db.debates| <= k then Failure(NoRows) else Put(db, k, AbandonRow(db.debates[k]))
  }

  function TxScore(db: Tables, k: nat, id: nat, res: ScoreResult, now: Time): Result<Tables, Error> {
    if |db.debates| <= k then Failure(NoRows)
    else
      var r := Put(db, k, ScoreRow(db.debates[k], id, res, now));
      if r.Failure? then r
      else Success(r.value.(
        ledger := Charge(db.ledger, Spend(db.debates[k].org, k, id, ScorerSpend, res.costMicros, now))))
  }

  /** UpdateTicketDescription: refused while a debate is active on the ticket. */
  function TxWriteDescription(db: Tables, ticket: nat, text: string): Result<Tables, Error> {
    if ticket !in db.tickets then Failure(NoRows)
    else if ActiveOn(db, ticket) then Failure(DescriptionLocked)
    else Success(db.(tickets := db.tickets[ticket := text]))
  }

  /** UpdateTicket: the same guard, except that handing back the stored description passes. */
  function TxWriteTicket(db: Tables, ticket: nat, text: string): Result<Tables, Error> {
    if ticket !in db.tickets then Failure(NoRows)
    else if db.tickets[ticket] != text && ActiveOn(db, ticket) then Failure(DescriptionLocked)
    else Success(db.(tickets := db.tickets[ticket := text]))
  }

  /** IncrementProjectCostCents. */
  function AddCents(cents: map<nat, int>, r: Rollup): map<nat, int> {
    if r.cents == 0 then cents
    else cents[r.project := (if r.project in cents then cents[r.project] else 0) + r.cents]
  }

  /** The rows one claim statement may take: eligible ones, at most a batch of them. */
  predicate ClaimableBatch(cfg: Config, db: Tables, at: Time, claimed: set<nat>) {
    && |claimed| <= cfg.batchSize
    && forall k :: k in claimed ==> k < |db.debates| && Claimable(cfg, db.debates[k], at)
  }

  function TxClaim(cfg: Config, db: Tables, at: Time, claimed: set<nat>): Tables {
    db.(debates := seq(|db.debates|, k requires 0 <= k < |db.debates| =>
      if k in claimed then ClaimRow(cfg, db.debates[k], at) else db.debates[k]))
  }

  /** The scorer jobs a claim hands to its sweep. */
  function ClaimedJobs(db: Tables, claimed: set<nat>): set<Job> {
    set k | k in claimed && k < |db.debates| && LatestAccepted(db.debates[k].rounds).Some? ::
      var r := LatestAccepted(db.debates[k].rounds).value;
      Job(k, r.id, SqlShippedText(r))
  }

  function CentsDelta(oldTotal: int, newTotal: int): int {
    TruncDiv(newTotal, 10000) - TruncDiv(oldTotal, 10000)
  }

  // ----- events -----

  function Commit(w: World, r: Result<Tables, Error>): World {
    if r.Success? then w.(db := r.value) else w
  }

  /** Commit a charge to debate k, and leave its cents rollup to be written afterwards. */
  function CommitCharge(w: World, k: nat, r: Result<Tables, Error>): World
    requires r.Success? ==> k < |w.db.debates| && k < |r.value.debates|
  {
    if r.Failure? then w
    else
      var delta := CentsDelta(w.db.debates[k].totalMicros, r.value.debates[k].totalMicros);
      w.(db := r.value, rollups := w.rollups + [Rollup(w.db.debates[k].project, delta)])
  }

  /** CreateRound's output validation. */
  predicate Usable(cfg: Config, reply: Reply) {
    && reply.Text?
    && TrimSpace(reply.text) != ""
    && cfg.minOutputLen <= ByteLen(TrimSpace(reply.text))
    && !reply.truncated
  }

  function SuggestionOf(reply: Reply): Suggestion
    requires reply.Text?
  {
    Suggestion(reply.provider, reply.model, reply.feedback, TrimSpace(reply.text), reply.costMicros)
  }

  function AfterReserve(cfg: Config, w: World, k: nat): World {
    var r := TxReserve(w.db, k, w.nextId, w.now, cfg.staleAge);
    if r.Failure? then w
    else w.(
      db := r.value,
      requests := w.requests[w.nextId := Request(k, w.db.debates[k].currentText, w.now, false)],
      nextId := w.nextId + 1)
  }

  /** An unusable reply or a refused insert leaves the reservation for the request to clear. */
  function AfterReply(cfg: Config, w: World, id: nat, reply: Reply): World {
    if id !in w.requests || w.requests[id].returned then w
    else
      var q := w.requests[id];
      var back := w.(requests := w.requests[id := q.(returned := true)]);
      if !Usable(cfg, reply) then back
      else
        var r := TxInsert(w.db, q.debate, w.nextId, SuggestionOf(reply), q.snapshot, w.now);
        if r.Failure? then back
        else CommitCharge(w, q.debate, r).(requests := w.requests - {id}, nextId := w.nextId + 1)
  }

  function AfterAccept(w: World, k: nat, id: nat, edited: Option<string>): World {
    var r := TxAccept(w.db, k, id, edited, w.now);
    if r.Failure? then w
    else
      var at := FindRound(r.value.debates[k].rounds, id);
      var job := if at.Some? then {Job(k, id, ShippedText(r.value.debates[k].rounds[at.value]))} else {};
      w.(db := r.value, jobs := w.jobs + job)
  }

  function Without(rs: seq<Rollup>, i: nat): seq<Rollup>
    requires i < |rs|
  {
    rs[..i] + rs[i + 1..]
  }

  function Step(cfg: Config, w: World, e: Event): World {
    match e
    case StartDebate(t, p, o, desc) => Commit(w, TxStart(w.db, t, p, o, desc))
    case Reserve(k) => AfterReserve(cfg, w, k)
    case RefinerReturns(id, reply) => AfterReply(cfg, w, id, reply)
    case ClearInFlight(id) =>
      if id in w.requests && w.requests[id].returned
      then w.(db := TxClear(w.db, w.requests[id].debate), requests := w.requests - {id}) else w
    case Crash(id) => w.(requests := w.requests - {id})
    case Accept(k, id, edited) => AfterAccept(w, k, id, edited)
    case Reject(k, id) => Commit(w, TxReject(w.db, k, id, w.now))
    case Undo(k, from) => Commit(w, TxUndo(w.db, k, from))
    case EditSeed(k, text) => Commit(w, TxEditSeed(w.db, k, text, cfg.maxTextLen))
    case Approve(k) => Commit(w, TxApprove(w.db, k))
    case Abandon(k) => Commit(w, TxAbandon(w.db, k))
    case ScorerReturns(job, res) =>
      if job in w.jobs then CommitCharge(w, job.debate, TxScore(w.db, job.debate, job.round, res, w.now)) else w
    case Sweep(at, claimed) =>
      if ClaimableBatch(cfg, w.db, at, claimed)
      then w.(db := TxClaim(cfg, w.db, at, claimed), jobs := w.jobs + ClaimedJobs(w.db, claimed)) else w
    case WriteDescription(t, text) => Commit(w, TxWriteDescription(w.db, t, text))
    case WriteTicket(t, text) => Commit(w, TxWriteTicket(w.db, t, text))
    case LandRollup(i) =>
      if i < |w.rollups|
      then w.(db := w.db.(projectCents := AddCents(w.db.projectCents, w.rollups[i])), rollups := Without(w.rollups, i))
      else w
    case LoseRollup(i) =>
      if i < |w.rollups| then w.(rollups := Without(w.rollups, i), lost := w.lost + [w.rollups[i]]) else w
    case Tick(elapsed) => w.(now := w.now + elapsed)
  }

  /** The state after a run of events. */
  function Run(cfg: Config, w: World, es: seq<Event>): World {
    if es == [] then w else Step(cfg, Run(cfg, w, es[..|es| - 1]), es[|es| - 1])
  }

  /** A fresh deployment: tickets, and nothing debated yet. */
  function Genesis(tickets: map<nat, string>, now: Time): World {
    World(Tables(tickets, [], [], map[]), map[], {}, [], [], 0, now)
  }

  // ----- what one event does to one row -----

  function OrElse(r: Result<Debate, Error>, d: Debate): Debate {
    if r.Success? then r.value else d
  }

  /** The row of debate k after an event, read off the row functions alone. */
  function RowAfter(cfg: Config, w: World, e: Event, k: nat): Debate
    requires k < |w.db.debates|
  {
    var d := w.db.debates[k];
    match e
    case Reserve(j) => if j == k then OrElse(ReserveRow(d, w.nextId, w.now, cfg.staleAge), d) else d
    case RefinerReturns(id, reply) =>
      if id in w.requests && !w.requests[id].returned && w.requests[id].debate == k && Usable(cfg, reply)
      then OrElse(InsertRow(d, w.nextId, SuggestionOf(reply), w.requests[id].snapshot), d) else d
    case ClearInFlight(id) =>
      if id in w.requests && w.requests[id].returned && w.requests[id].debate == k then ClearRow(d) else d
    case Accept(j, id, edited) => if j == k then OrElse(AcceptRow(d, id, edited, w.now), d) else d
    case Reject(j, id) => if j == k then OrElse(RejectRow(d, id, w.now), d) else d
    case Undo(j, from) => if j == k then OrElse(UndoRow(d, from), d) else d
    case EditSeed(j, text) => if j == k then OrElse(EditSeedRow(d, text, cfg.maxTextLen), d) else d
    case Approve(j) =>
      if j == k && d.ticket in w.db.tickets then OrElse(ApproveRow(d, w.db.tickets[d.ticket]), d) else d
    case Abandon(j) => if j == k then OrElse(AbandonRow(d), d) else d
    case ScorerReturns(job, res) =>
      if job in w.jobs && job.debate == k then OrElse(ScoreRow(d, job.round, res, w.now), d) else d
    case Sweep(at, claimed) =>
      if ClaimableBatch(cfg, w.db, at, claimed) && k in claimed then ClaimRow(cfg, d, at) else d
    case _ => d
  }

  /** Every event leaves each existing row as RowAfter says, and adds at most one row, by a start. */
  ghost predicate RowsFollow(cfg: Config, w: World, e: Event) {
    var ds, ds' := w.db.debates, Step(cfg, w, e).db.debates;
    && |ds| <= |ds'| <= |ds| + 1
    && (forall k :: 0 <= k < |ds| ==> ds'[k] == RowAfter(cfg, w, e, k))
    && (|ds'| == |ds| + 1 ==>
      && e.StartDebate? && e.ticket in w.db.tickets && !ActiveOn(w.db, e.ticket)
      && ds'[|ds|] == NewDebate(e.ticket, e.project, e.org, e.desc))
  }

  lemma StepOnRows(cfg: Config, w: World, e: Event)
    ensures RowsFollow(cfg, w, e)
  {
    if e.RefinerReturns? {
      ReplyOnRows(cfg, w, e);
    } else if e.Reserve? || e.Accept? || e.Reject? || e.Undo? || e.EditSeed? {
      DecisionOnRows(cfg, w, e);
    } else if e.ScorerReturns? || e.Sweep? || e.ClearInFlight? {
      BackgroundOnRows(cfg, w, e);
    }
  }

  lemma ReplyOnRows(cfg: Config, w: World, e: Event)
    requires e.RefinerReturns?
    ensures RowsFollow(cfg, w, e)
  {
  }

  lemma DecisionOnRows(cfg: Config, w: World, e: Event)
    requires e.Reserve? || e.Accept? || e.Reject? || e.Undo? || e.EditSeed?
    ensures RowsFollow(cfg, w, e)
  {
  }

  lemma BackgroundOnRows(cfg: Config, w: World, e: Event)
    requires e.ScorerReturns? || e.Sweep? || e.ClearInFlight?
    ensures RowsFollow(cfg, w, e)
  {
  }
}
