/**
 The text history of a debate. `TextAfter` is the reference meaning of a list of rounds:
 what the document reads once they are decided. The invariant says that the stored columns
 (round numbers, inputs, current_text) are exactly what that meaning prescribes, in every
 reachable state and under every interleaving.
 */
module Lineage {
  import opened Prelude
  import opened Text
  import opened Debates
  import opened Protocol

  /** The shipped text of the last accepted round, or the seed when there is none. */
  function TextAfter(seed: string, rs: seq<Round>): string {
    if rs == [] then seed
    else if rs[|rs| - 1].status == Accepted then ShippedText(rs[|rs| - 1])
    else TextAfter(seed, rs[..|rs| - 1])
  }

  ghost predicate Numbered(rs: seq<Round>) {
    forall i :: 0 <= i < |rs| ==> rs[i].number == i + 1
  }

  /** Only the last round may still wait for a decision. */
  ghost predicate OnlyLastPending(rs: seq<Round>) {
    forall i :: 0 <= i < |rs| - 1 ==> rs[i].status != InReview
  }

  /** Each round was asked to improve the text the rounds before it had produced. */
  ghost predicate Chained(seed: string, rs: seq<Round>) {
    forall i :: 0 <= i < |rs| ==> rs[i].inputText == TextAfter(seed, rs[..i])
  }

  ghost predicate RoundOk(r: Round) {
    && !Blank(r.outputText)
    && (r.status == InReview <==> r.decidedAt.None?)
    && (r.editedText.Some? ==> r.status == Accepted && !Blank(r.editedText.value))
  }

  /** Round ids are fresh when handed out, so they grow with the rounds. */
  ghost predicate IdsGrow(rs: seq<Round>, nextId: nat) {
    && (forall i, j :: 0 <= i < j < |rs| ==> rs[i].id < rs[j].id)
    && (forall i :: 0 <= i < |rs| ==> rs[i].id < nextId)
  }

  ghost predicate DecidedInOrder(rs: seq<Round>, now: Time) {
    && (forall i, j :: 0 <= i < j < |rs| && rs[i].decidedAt.Some? && rs[j].decidedAt.Some? ==>
      rs[i].decidedAt.value <= rs[j].decidedAt.value)
    && (forall i :: 0 <= i < |rs| && rs[i].decidedAt.Some? ==> rs[i].decidedAt.value <= now)
  }

  ghost predicate History(seed: string, rs: seq<Round>) {
    && Numbered(rs)
    && OnlyLastPending(rs)
    && Chained(seed, rs)
    && (forall i :: 0 <= i < |rs| ==> RoundOk(rs[i]))
  }

  /** last_scored_round_id names a live accepted round, or no score is shown at all. */
  ghost predicate ScoreNamesLiveRound(d: Debate) {
    var e := d.effort;
    match d.lastScored
    case None => e.score.None? && e.hours.None? && e.reasoning.None? && e.scoredAt.None?
    case Some(id) =>
      && (exists i :: 0 <= i < |d.rounds| && d.rounds[i].id == id && d.rounds[i].status == Accepted)
      && e.score.Some? && e.hours.Some? && e.reasoning.Some? && e.scoredAt.Some?
      && e.provider.Some? && e.model.Some?
  }

  ghost predicate RowInv(d: Debate, nextId: nat, now: Time) {
    && History(d.seed, d.rounds)
    && d.currentText == TextAfter(d.seed, d.rounds)
    && IdsGrow(d.rounds, nextId)
    && DecidedInOrder(d.rounds, now)
    && (d.status == Approved <==> d.approvedText.Some?)
    && (d.status == Approved ==> d.approvedText == Some(d.currentText))
  }

  // ----- the SQL queries mean what the reference says -----

  /** A round apart from its bookkeeping of the scorer's price. */
  function Core(r: Round): Round {
    r.(scorerCostMicros := None)
  }

  ghost predicate SameCores(a: seq<Round>, b: seq<Round>) {
    |a| == |b| && forall i :: 0 <= i < |a| ==> Core(a[i]) == Core(b[i])
  }

  lemma {:induction false} CoresFixText(seed: string, a: seq<Round>, b: seq<Round>)
    requires SameCores(a, b)
    ensures TextAfter(seed, a) == TextAfter(seed, b)
  {
    if a != [] {
      var n := |a| - 1;
      assert Core(a[n]) == Core(b[n]);
      CoresFixText(seed, a[..n], b[..n]);
    }
  }

  /** Deleting from a number on keeps exactly the rounds before it. */
  lemma {:induction false} BelowIsPrefix(rs: seq<Round>, from: int)
    requires Numbered(rs) && 1 <= from
    ensures Below(rs, from) == rs[..Min(from - 1, |rs|)]
  {
    if rs != [] {
      var n := |rs| - 1;
      BelowIsPrefix(rs[..n], from);
      if rs[n].number < from {
        assert rs[..n] + [rs[n]] == rs;
      } else {
        assert rs[..n][..from - 1] == rs[..from - 1];
      }
    }
  }

  lemma {:induction false} MaxNumberIsLength(rs: seq<Round>)
    requires Numbered(rs)
    ensures MaxNumber(rs) == |rs|
  {
    if |rs| > 1 { MaxNumberIsLength(rs[..|rs| - 1]); }
  }

  /** Round i is accepted and none after it is. */
  ghost predicate IsLatestAccepted(rs: seq<Round>, i: int) {
    0 <= i < |rs| && rs[i].status == Accepted && forall j :: i < j < |rs| ==> rs[j].status != Accepted
  }

  /** ORDER BY round_number DESC LIMIT 1 finds the accepted round with the highest number. */
  lemma {:induction false} LatestAcceptedIsLatest(rs: seq<Round>)
    requires Numbered(rs)
    ensures var r := LatestAccepted(rs);
      && (r.None? ==> forall i :: 0 <= i < |rs| ==> rs[i].status != Accepted)
      && (r.Some? ==> exists i :: IsLatestAccepted(rs, i) && rs[i] == r.value)
  {
    if rs != [] {
      var n := |rs| - 1;
      LatestAcceptedIsLatest(rs[..n]);
      if rs[n].status == Accepted {
        assert IsLatestAccepted(rs, n);
      } else if LatestAccepted(rs[..n]).Some? {
        var i :| IsLatestAccepted(rs[..n], i) && rs[..n][i] == LatestAccepted(rs[..n]).value;
        assert IsLatestAccepted(rs, i);
      }
    }
  }

  lemma {:induction false} TextAfterIsLatestShipped(seed: string, rs: seq<Round>)
    requires Numbered(rs)
    ensures var r := LatestAccepted(rs); TextAfter(seed, rs) == if r.Some? then ShippedText(r.value) else seed
  {
    if rs != [] {
      TextAfterIsLatestShipped(seed, rs[..|rs| - 1]);
      LatestAcceptedIsLatest(rs[..|rs| - 1]);
    }
  }

  /** The Go rule and the SQL rule ship the same bytes exactly when no blank edit hides behind a
      wider space, or the edit is the AI's text anyway. */
  lemma ShippedTextsAgreeIff(r: Round)
    ensures ShippedText(r) == SqlShippedText(r) <==>
      (r.editedText.Some? && Blank(r.editedText.value) && !All(r.editedText.value, IsSqlSpace) ==>
        r.editedText.value == r.outputText)
  {
    if r.editedText.Some? {
      TrimEmptyIffAll(r.editedText.value, IsSpace);
      TrimEmptyIffAll(r.editedText.value, IsSqlSpace);
    }
  }

  /** A round that accept can produce ships the same text under both rules, and never a blank one. */
  lemma ShippedTextsAgree(r: Round)
    requires RoundOk(r)
    ensures ShippedText(r) == SqlShippedText(r) && !Blank(ShippedText(r))
    ensures ShippedText(r) == if r.editedText.Some? then r.editedText.value else r.outputText
  {
    ShippedTextsAgreeIff(r);
    if r.editedText.Some? { BlankIffTrimsAway(r.editedText.value); }
  }

  /** The agreement does not hang on what the SQL trims: whatever its character set p is, a CHECK that
      refuses edits it would trim away makes the SQL rule ship every stored edit, as the Go rule does. */
  lemma ShippedTextsAgreeUnderCheck(r: Round, p: char -> bool)
    requires RoundOk(r) && (r.editedText.Some? ==> Trim(r.editedText.value, p) != "")
    ensures ShippedText(r) ==
      if r.editedText.Some? && Trim(r.editedText.value, p) != "" then r.editedText.value else r.outputText
  {
    if r.editedText.Some? { BlankIffTrimsAway(r.editedText.value); }
  }

  // ----- every row function keeps the invariant -----

  lemma HistoryAppend(seed: string, rs: seq<Round>, r: Round)
    requires History(seed, rs) && !HasPending(rs)
    requires r.number == |rs| + 1 && r.inputText == TextAfter(seed, rs) && RoundOk(r)
    ensures History(seed, rs + [r])
    ensures TextAfter(seed, rs + [r]) == if r.status == Accepted then ShippedText(r) else TextAfter(seed, rs)
  {
    var rs' := rs + [r];
    assert rs'[..|rs|] == rs;
    forall i | 0 <= i < |rs'| ensures rs'[i].inputText == TextAfter(seed, rs'[..i]) {
      assert i < |rs| ==> rs'[..i] == rs[..i];
    }
  }

  lemma OrderAppend(rs: seq<Round>, r: Round, now: Time)
    requires IdsGrow(rs, r.id) && DecidedInOrder(rs, now) && (r.decidedAt.Some? ==> r.decidedAt.value == now)
    ensures IdsGrow(rs + [r], r.id + 1) && DecidedInOrder(rs + [r], now)
  {
  }

  lemma InsertKeeps(d: Debate, id: nat, s: Suggestion, snapshot: string, now: Time)
    requires RowInv(d, id, now) && !Blank(s.outputText)
    ensures var r := InsertRow(d, id, s, snapshot); r.Success? ==>
      && RowInv(r.value, id + 1, now)
      && |r.value.rounds| == |d.rounds| + 1 && r.value.rounds[..|d.rounds|] == d.rounds
      && r.value.rounds[|d.rounds|].inputText == d.currentText
  {
    var r := InsertRow(d, id, s, snapshot);
    if r.Success? {
      MaxNumberIsLength(d.rounds);
      AppendKeeps(d, r.value, r.value.rounds[|d.rounds|], now);
    }
  }

  lemma AppendKeeps(d: Debate, d': Debate, x: Round, now: Time)
    requires RowInv(d, x.id, now) && !HasPending(d.rounds) && RoundOk(x) && x.status == InReview
    requires x.number == |d.rounds| + 1 && x.inputText == d.currentText
    requires d'.rounds == d.rounds + [x] && d'.seed == d.seed && d'.currentText == d.currentText
    requires d'.status == d.status && d'.approvedText == d.approvedText
    ensures RowInv(d', x.id + 1, now)
  {
    HistoryAppend(d.seed, d.rounds, x);
    OrderAppend(d.rounds, x, now);
  }

  /** Deciding the pending round: it is the last one, and the rounds before it stay as they were. */
  lemma PendingIsLast(d: Debate, id: nat)
    requires OnlyLastPending(d.rounds)
    ensures var at := FindRound(d.rounds, id);
      at.Some? && d.rounds[at.value].status == InReview ==> at.value == |d.rounds| - 1
  {
  }

  lemma DecideKeeps(d: Debate, r': Round, nextId: nat, now: Time)
    requires RowInv(d, nextId, now) && |d.rounds| > 0
    requires var r := d.rounds[|d.rounds| - 1];
      && r.status == InReview && r'.status != InReview && r'.decidedAt == Some(now) && RoundOk(r')
      && r'.id == r.id && r'.number == r.number && r'.inputText == r.inputText
    ensures var rs := d.rounds[|d.rounds| - 1 := r'];
      && History(d.seed, rs) && IdsGrow(rs, nextId) && DecidedInOrder(rs, now)
      && TextAfter(d.seed, rs) == if r'.status == Accepted then ShippedText(r') else d.currentText
  {
    var n := |d.rounds| - 1;
    assert d.rounds[n := r'] == d.rounds[..n] + [r'];
    PrefixKeeps(d.seed, d.rounds, n);
    HistoryAppend(d.seed, d.rounds[..n], r');
    DecideOrder(d.rounds, r', nextId, now);
  }

  lemma DecideOrder(rs: seq<Round>, r': Round, nextId: nat, now: Time)
    requires IdsGrow(rs, nextId) && DecidedInOrder(rs, now) && |rs| > 0
    requires r'.id == rs[|rs| - 1].id && r'.decidedAt == Some(now)
    ensures IdsGrow(rs[|rs| - 1 := r'], nextId) && DecidedInOrder(rs[|rs| - 1 := r'], now)
  {
  }

  lemma AcceptKeeps(d: Debate, id: nat, edited: Option<string>, nextId: nat, now: Time)
    requires RowInv(d, nextId, now)
    ensures var r := AcceptRow(d, id, edited, now); r.Success? ==> RowInv(r.value, nextId, now)
  {
    PendingIsLast(d, id);
    var r := AcceptRow(d, id, edited, now);
    if r.Success? {
      var n := |d.rounds| - 1;
      var r' := r.value.rounds[n];
      if r'.editedText.Some? { BlankIffTrimsAway(r'.editedText.value); }
      ShippedTextsAgree(r');
      DecideKeeps(d, r', nextId, now);
    }
  }

  lemma RejectKeeps(d: Debate, id: nat, nextId: nat, now: Time)
    requires RowInv(d, nextId, now)
    ensures var r := RejectRow(d, id, now); r.Success? ==> RowInv(r.value, nextId, now)
  {
    PendingIsLast(d, id);
    var r := RejectRow(d, id, now);
    if r.Success? { DecideKeeps(d, r.value.rounds[|d.rounds| - 1], nextId, now); }
  }

  /** Any prefix of a history is a history. */
  lemma PrefixKeeps(seed: string, rs: seq<Round>, n: nat)
    requires History(seed, rs) && n <= |rs|
    ensures History(seed, rs[..n])
    ensures n < |rs| ==> TextAfter(seed, rs[..n]) == rs[n].inputText
    ensures n < |rs| ==> !HasPending(rs[..n])
  {
    forall i | 0 <= i < n ensures rs[..n][i].inputText == TextAfter(seed, rs[..n][..i]) {
      assert rs[..n][..i] == rs[..i];
    }
  }

  /** What undo reads back out of the kept rounds is their text. */
  lemma RecomputeIsTextAfter(seed: string, rs: seq<Round>)
    requires History(seed, rs)
    ensures var r := LatestAccepted(rs); TextAfter(seed, rs) == if r.Some? then SqlShippedText(r.value) else seed
  {
    TextAfterIsLatestShipped(seed, rs);
    LatestAcceptedIsLatest(rs);
    var latest := LatestAccepted(rs);
    if latest.Some? { ShippedTextsAgree(latest.value); }
  }

  /** Undo from N keeps rounds 1..N-1 as they are, leaves nothing pending, and puts back the very
      text round N was given. It refuses exactly when the debate is closed or has no round N. */
  lemma UndoIsExactInverse(d: Debate, from: int, nextId: nat, now: Time)
    requires RowInv(d, nextId, now) && 1 <= from
    ensures var r := UndoRow(d, from);
      && (r.Success? <==> d.status == Active && from <= |d.rounds|)
      && (d.status == Active && |d.rounds| < from ==> r == Failure(NoRoundsToUndo))
      && (r.Success? ==>
        && r.value.rounds == d.rounds[..from - 1]
        && !HasPending(r.value.rounds)
        && r.value.currentText == d.rounds[from - 1].inputText
        && r.value.seed == d.seed
        && RowInv(r.value, nextId, now))
  {
    UndoTouchesNothingElse(d, from);
    if d.status == Active && from <= |d.rounds| { PrefixInv(d, UndoRow(d, from).value, from - 1, nextId, now); }
  }

  lemma PrefixInv(d: Debate, d': Debate, n: nat, nextId: nat, now: Time)
    requires RowInv(d, nextId, now) && n < |d.rounds|
    requires d'.rounds == d.rounds[..n] && d'.seed == d.seed && d'.currentText == TextAfter(d.seed, d.rounds[..n])
    requires d'.status == d.status && d'.approvedText == d.approvedText && d.status != Approved
    ensures RowInv(d', nextId, now) && d'.currentText == d.rounds[n].inputText && !HasPending(d'.rounds)
  {
    PrefixKeeps(d.seed, d.rounds, n);
    OrderPrefix(d.rounds, n, nextId, now);
  }

  /** What undo reads back from the rows it keeps. */
  lemma RecomputePrefix(seed: string, rs: seq<Round>, from: int)
    requires History(seed, rs) && 1 <= from <= |rs|
    ensures var kept := Below(rs, from);
      && kept == rs[..from - 1]
      && TextAfter(seed, kept) == var r := LatestAccepted(kept); if r.Some? then SqlShippedText(r.value) else seed
  {
    BelowIsPrefix(rs, from);
    PrefixKeeps(seed, rs, from - 1);
    RecomputeIsTextAfter(seed, rs[..from - 1]);
  }

  /** Undo moves rounds, text and the shown score; seed, bill, reservation and lease stay. */
  lemma UndoTouchesNothingElse(d: Debate, from: int)
    requires History(d.seed, d.rounds) && 1 <= from
    ensures var r := UndoRow(d, from);
      if d.status != Active then r == Failure(DebateNotActive)
      else if |d.rounds| < from then r == Failure(NoRoundsToUndo)
      else r == Success(d.(
        rounds := d.rounds[..from - 1],
        currentText := TextAfter(d.seed, d.rounds[..from - 1]),
        effort := Effort(None, None, None, None, d.effort.provider, d.effort.model),
        lastScored := None))
  {
    BelowIsPrefix(d.rounds, from);
    if from <= |d.rounds| { RecomputePrefix(d.seed, d.rounds, from); }
  }

  lemma OrderPrefix(rs: seq<Round>, n: nat, nextId: nat, now: Time)
    requires IdsGrow(rs, nextId) && DecidedInOrder(rs, now) && n <= |rs|
    ensures IdsGrow(rs[..n], nextId) && DecidedInOrder(rs[..n], now)
  {
  }

  lemma CoresFixHistory(seed: string, a: seq<Round>, b: seq<Round>)
    requires History(seed, a) && SameCores(a, b)
    ensures History(seed, b)
  {
    forall i | 0 <= i < |b|
      ensures Core(a[i]) == Core(b[i]) && b[i].inputText == TextAfter(seed, b[..i])
    {
      assert Core(a[i]) == Core(b[i]);
      CoresFixText(seed, a[..i], b[..i]);
    }
  }

  lemma CoresFixOrder(a: seq<Round>, b: seq<Round>, nextId: nat, now: Time)
    requires IdsGrow(a, nextId) && DecidedInOrder(a, now) && SameCores(a, b)
    ensures IdsGrow(b, nextId) && DecidedInOrder(b, now)
  {
    assert forall i :: 0 <= i < |b| ==> a[i].id == b[i].id && a[i].decidedAt == b[i].decidedAt by {
      forall i | 0 <= i < |b| ensures a[i].id == b[i].id && a[i].decidedAt == b[i].decidedAt {
        assert Core(a[i]) == Core(b[i]);
      }
    }
  }

  /** Changing only what the scorer cost leaves every text property alone. */
  lemma CoresKeep(d: Debate, d': Debate, nextId: nat, now: Time)
    requires RowInv(d, nextId, now) && SameCores(d.rounds, d'.rounds)
    requires d'.seed == d.seed && d'.currentText == d.currentText
    requires d'.status == d.status && d'.approvedText == d.approvedText
    ensures RowInv(d', nextId, now)
  {
    CoresFixText(d.seed, d.rounds, d'.rounds);
    CoresFixHistory(d.seed, d.rounds, d'.rounds);
    CoresFixOrder(d.rounds, d'.rounds, nextId, now);
  }

  lemma ScoreKeeps(d: Debate, id: nat, res: ScoreResult, nextId: nat, now: Time)
    requires RowInv(d, nextId, now)
    ensures var r := ScoreRow(d, id, res, now); r.Success? ==>
      RowInv(r.value, nextId, now) && SameCores(d.rounds, r.value.rounds)
  {
    var r := ScoreRow(d, id, res, now);
    if r.Success? { CoresKeep(d, r.value, nextId, now); }
  }

  lemma InvGrows(d: Debate, nextId: nat, now: Time, nextId': nat, now': Time)
    requires RowInv(d, nextId, now) && nextId <= nextId' && now <= now'
    ensures RowInv(d, nextId', now')
  {
  }

  /** One event keeps the invariant of every row it meets. */
  lemma RowAfterKeeps(cfg: Config, w: World, e: Event, k: nat)
    requires k < |w.db.debates| && RowInv(w.db.debates[k], w.nextId, w.now)
    ensures var w' := Step(cfg, w, e); RowInv(RowAfter(cfg, w, e, k), w'.nextId, w'.now)
  {
    var d := w.db.debates[k];
    if e.RefinerReturns? {
      ReplyKeeps(cfg, w, e, k);
    } else {
      InvGrows(d, w.nextId, w.now, Step(cfg, w, e).nextId, Step(cfg, w, e).now);
      if e.Accept? {
        AcceptKeeps(d, e.round, e.edited, w.nextId, w.now);
      } else if e.Reject? {
        RejectKeeps(d, e.round, w.nextId, w.now);
      } else if e.Undo? {
        if 1 <= e.from { UndoIsExactInverse(d, e.from, w.nextId, w.now); }
      } else if e.ScorerReturns? {
        ScoreKeeps(d, e.job.round, e.result, w.nextId, w.now);
      } else {
        QuietKeeps(cfg, w, e, k);
        InvGrows(RowAfter(cfg, w, e, k), w.nextId, w.now, Step(cfg, w, e).nextId, Step(cfg, w, e).now);
      }
    }
  }

  /** The events that leave the rounds alone. */
  lemma QuietKeeps(cfg: Config, w: World, e: Event, k: nat)
    requires k < |w.db.debates| && RowInv(w.db.debates[k], w.nextId, w.now)
    requires !e.RefinerReturns? && !e.Accept? && !e.Reject? && !e.Undo? && !e.ScorerReturns?
    ensures RowInv(RowAfter(cfg, w, e, k), w.nextId, w.now)
  {
    if e.EditSeed? {
      if e.debate == k { SeedKeeps(w.db.debates[k], e.text, cfg.maxTextLen, w.nextId, w.now); }
    } else {
      QuietFields(cfg, w, e, k);
    }
  }

  lemma SeedKeeps(d: Debate, text: string, maxLen: nat, nextId: nat, now: Time)
    requires RowInv(d, nextId, now)
    ensures var r := EditSeedRow(d, text, maxLen); r.Success? ==> RowInv(r.value, nextId, now)
  {
  }

  lemma QuietFields(cfg: Config, w: World, e: Event, k: nat)
    requires k < |w.db.debates|
    requires !e.RefinerReturns? && !e.Accept? && !e.Reject? && !e.Undo? && !e.ScorerReturns? && !e.EditSeed?
    ensures var d, d' := w.db.debates[k], RowAfter(cfg, w, e, k);
      && d'.rounds == d.rounds && d'.seed == d.seed && d'.currentText == d.currentText
      && ((d'.status == d.status && d'.approvedText == d.approvedText) ||
          (d.status == Active && d'.status == Approved && d'.approvedText == Some(d.currentText)) ||
          (d.status == Active && d'.status == Abandoned && d'.approvedText == d.approvedText))
  {
  }

  lemma UsableIsNotBlank(cfg: Config, reply: Reply)
    requires Usable(cfg, reply)
    ensures !Blank(SuggestionOf(reply).outputText)
  {
    BlankIffTrimsAway(TrimSpace(reply.text));
    TrimIdempotent(reply.text);
  }

  /** The row of a reply: an insert on the debate of its request, nothing elsewhere. */
  lemma ReplyRow(cfg: Config, w: World, e: Event, k: nat)
    requires e.RefinerReturns? && k < |w.db.debates|
    ensures var d, d', w' := w.db.debates[k], RowAfter(cfg, w, e, k), Step(cfg, w, e);
      && w'.now == w.now && w.nextId <= w'.nextId
      && (d' == d ||
          (e.request in w.requests && Usable(cfg, e.reply) && w'.nextId == w.nextId + 1 &&
           InsertRow(d, w.nextId, SuggestionOf(e.reply), w.requests[e.request].snapshot) == Success(d')))
  {
  }

  lemma ReplyKeeps(cfg: Config, w: World, e: Event, k: nat)
    requires e.RefinerReturns?
    requires k < |w.db.debates| && RowInv(w.db.debates[k], w.nextId, w.now)
    ensures var w' := Step(cfg, w, e); RowInv(RowAfter(cfg, w, e, k), w'.nextId, w'.now)
  {
    var d, w' := w.db.debates[k], Step(cfg, w, e);
    ReplyRow(cfg, w, e, k);
    InvGrows(d, w.nextId, w.now, w'.nextId, w'.now);
    if RowAfter(cfg, w, e, k) != d {
      UsableIsNotBlank(cfg, e.reply);
      InsertKeeps(d, w.nextId, SuggestionOf(e.reply), w.requests[e.request].snapshot, w.now);
    }
  }

  /** What was submitted: the edit, or the AI's text when nothing was edited. */
  function Submitted(r: Round, edited: Option<string>): string {
    if edited.Some? then edited.value else r.outputText
  }

  /** Accept decides exactly the pending round of an active debate, whatever its id was sent with,
      and only a blank edit stops it. The document then reads what was submitted, byte for byte,
      unless that is the AI's text with other space around it: then it reads the AI's text. */
  lemma AcceptIsExact(d: Debate, i: nat, edited: Option<string>, nextId: nat, now: Time)
    requires RowInv(d, nextId, now) && i < |d.rounds|
    ensures var x, r := d.rounds[i], AcceptRow(d, d.rounds[i].id, edited, now);
      && (r.Success? <==> d.status == Active && x.status == InReview && (edited.Some? ==> !Blank(edited.value)))
      && (r == Failure(DebateNotActive) <==> d.status != Active)
      && (r == Failure(RoundNotInReview) <==> d.status == Active && x.status != InReview)
      && (r == Failure(EmptyEdit) <==>
        d.status == Active && x.status == InReview && edited.Some? && Blank(edited.value))
      && (r.Success? ==>
        && i == |d.rounds| - 1 && |r.value.rounds| == |d.rounds| && r.value.rounds[..i] == d.rounds[..i]
        && var y := r.value.rounds[i];
          && r.value == d.(rounds := d.rounds[i := y], currentText := r.value.currentText)
          && y == x.(
            status := Accepted, decidedAt := Some(now),
            editedText := if TrimSpace(Submitted(x, edited)) == TrimSpace(x.outputText) then None else edited)
          && r.value.currentText == ShippedText(y) == SqlShippedText(y)
          && TrimSpace(r.value.currentText) == TrimSpace(Submitted(x, edited))
          && r.value.currentText ==
               if TrimSpace(Submitted(x, edited)) == TrimSpace(x.outputText) then x.outputText else Submitted(x, edited))
  {
    FindOwn(d.rounds, nextId, i);
    if edited.Some? { BlankIffTrimsAway(edited.value); }
    var r := AcceptRow(d, d.rounds[i].id, edited, now);
    if r.Success? {
      AcceptKeeps(d, d.rounds[i].id, edited, nextId, now);
      assert RoundOk(d.rounds[i]) && RoundOk(r.value.rounds[i]);
      ShippedTextsAgree(r.value.rounds[i]);
    }
  }

  /** Reject decides exactly the pending round of an active debate and leaves the text alone. */
  lemma RejectIsExact(d: Debate, i: nat, nextId: nat, now: Time)
    requires RowInv(d, nextId, now) && i < |d.rounds|
    ensures var x, r := d.rounds[i], RejectRow(d, d.rounds[i].id, now);
      && (r.Success? <==> d.status == Active && x.status == InReview)
      && (r == Failure(DebateNotActive) <==> d.status != Active)
      && (r == Failure(RoundNotInReview) <==> d.status == Active && x.status != InReview)
      && (r.Success? ==>
        && i == |d.rounds| - 1
        && r.value == d.(rounds := d.rounds[i := x.(status := Rejected, decidedAt := Some(now))])
        && r.value.currentText == x.inputText)
  {
    FindOwn(d.rounds, nextId, i);
  }

  lemma FindOwn(rs: seq<Round>, nextId: nat, i: nat)
    requires IdsGrow(rs, nextId) && i < |rs|
    ensures FindRound(rs, rs[i].id) == Some(i)
  {
  }

  ghost predicate RowsInv(w: World) {
    forall k :: 0 <= k < |w.db.debates| ==> RowInv(w.db.debates[k], w.nextId, w.now)
  }

  lemma StepKeepsRows(cfg: Config, w: World, e: Event)
    requires RowsInv(w)
    ensures RowsInv(Step(cfg, w, e))
  {
    var w' := Step(cfg, w, e);
    StepOnRows(cfg, w, e);
    forall k | 0 <= k < |w'.db.debates| ensures RowInv(w'.db.debates[k], w'.nextId, w'.now) {
      if k < |w.db.debates| { RowAfterKeeps(cfg, w, e, k); }
    }
  }

  /** The main theorem: in every reachable state, under every interleaving of reservations, slow
      refiner calls, inserts, decisions, undos, seed edits, scores, sweeps and crashes, round
      numbers are 1..n, only the last round may be pending, every input is the text the earlier
      rounds shipped, and current_text is the text all of them shipped. */
  lemma {:induction false} RunKeepsRows(cfg: Config, w: World, es: seq<Event>)
    requires RowsInv(w)
    ensures RowsInv(Run(cfg, w, es))
  {
    if es != [] {
      RunKeepsRows(cfg, w, es[..|es| - 1]);
      StepKeepsRows(cfg, Run(cfg, w, es[..|es| - 1]), es[|es| - 1]);
    }
  }

  lemma LineageHolds(cfg: Config, tickets: map<nat, string>, now: Time, es: seq<Event>, k: nat)
    requires k < |Run(cfg, Genesis(tickets, now), es).db.debates|
    ensures var d := Run(cfg, Genesis(tickets, now), es).db.debates[k];
      && (forall i :: 0 <= i < |d.rounds| ==> d.rounds[i].number == i + 1)
      && (forall i :: 0 <= i < |d.rounds| ==> d.rounds[i].inputText == TextAfter(d.seed, d.rounds[..i]))
      && (forall i :: 0 <= i < |d.rounds| && d.rounds[i].status == InReview ==> i == |d.rounds| - 1)
      && d.currentText == TextAfter(d.seed, d.rounds)
      && (forall i :: 0 <= i < |d.rounds| && d.rounds[i].status == Accepted ==>
        ShippedText(d.rounds[i]) == SqlShippedText(d.rounds[i]) && !Blank(ShippedText(d.rounds[i])))
      && (d.status == Approved ==> d.approvedText == Some(TextAfter(d.seed, d.rounds)))
  {
    RunKeepsRows(cfg, Genesis(tickets, now), es);
    var d := Run(cfg, Genesis(tickets, now), es).db.debates[k];
    assert RowInv(d, Run(cfg, Genesis(tickets, now), es).nextId, Run(cfg, Genesis(tickets, now), es).now);
    forall i | 0 <= i < |d.rounds|
      ensures ShippedText(d.rounds[i]) == SqlShippedText(d.rounds[i]) && !Blank(ShippedText(d.rounds[i]))
    {
      ShippedTextsAgree(d.rounds[i]);
    }
  }
}
