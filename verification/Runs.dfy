/**
 What a run of events can and cannot do to the rounds it starts from: decided rounds are
 never rewritten, deleted rounds never come back, closed debates never change, and undo
 rewinds any run to the text and rounds it began with.
 */
module Runs {
  import opened Prelude
  import opened Debates
  import opened Protocol
  import opened Lineage

  /** What a round carries from its insert on: everything but its decision and scorer price. */
  function Born(r: Round): Round {
    r.(status := InReview, decidedAt := None, editedText := None, scorerCostMicros := None)
  }

  /** Every round of b whose id was already handed out by `nextId` is a round of a, in its old
      place, as it was born, and as it was decided if a decision had been taken. */
  ghost predicate Evolves(a: seq<Round>, b: seq<Round>, nextId: nat) {
    forall j :: 0 <= j < |b| && b[j].id < nextId ==>
      && j < |a| && a[j].id == b[j].id && Born(a[j]) == Born(b[j])
      && (a[j].status != InReview ==> a[j].status == b[j].status && Core(a[j]) == Core(b[j]))
  }

  ghost predicate Appended(rs: seq<Round>, rs': seq<Round>, id: nat) {
    |rs'| == |rs| + 1 && rs'[..|rs|] == rs && rs'[|rs|].id == id
  }

  ghost predicate Truncated(rs: seq<Round>, rs': seq<Round>) {
    |rs'| <= |rs| && rs' == rs[..|rs'|]
  }

  ghost predicate JustDecided(rs: seq<Round>, rs': seq<Round>) {
    && |rs'| == |rs| > 0 && rs'[..|rs| - 1] == rs[..|rs| - 1]
    && rs[|rs| - 1].status == InReview && Born(rs'[|rs| - 1]) == Born(rs[|rs| - 1])
  }

  /** The only things an event does to the rounds of a debate. */
  ghost predicate RoundsMove(rs: seq<Round>, rs': seq<Round>, id: nat) {
    SameCores(rs, rs') || Appended(rs, rs', id) || Truncated(rs, rs') || JustDecided(rs, rs')
  }

  lemma StepMoves(cfg: Config, w: World, e: Event, k: nat)
    requires k < |w.db.debates| && RowInv(w.db.debates[k], w.nextId, w.now)
    ensures var rs, rs' := w.db.debates[k].rounds, RowAfter(cfg, w, e, k).rounds;
      && RoundsMove(rs, rs', w.nextId)
      && (Truncated(rs, rs') ==> rs' == rs || (e.Undo? && e.debate == k && e.from == |rs'| + 1))
  {
    var d := w.db.debates[k];
    if e.Undo? {
      if 1 <= e.from { UndoIsExactInverse(d, e.from, w.nextId, w.now); }
    } else if e.Accept? || e.Reject? {
      DecisionMoves(cfg, w, e, k);
    } else if e.RefinerReturns? {
      ReplyMoves(cfg, w, e, k);
    } else {
      OtherMoves(cfg, w, e, k);
    }
  }

  lemma ReplyMoves(cfg: Config, w: World, e: Event, k: nat)
    requires e.RefinerReturns? && k < |w.db.debates|
    ensures var rs, rs' := w.db.debates[k].rounds, RowAfter(cfg, w, e, k).rounds;
      rs' == rs || Appended(rs, rs', w.nextId)
  {
  }

  lemma OtherMoves(cfg: Config, w: World, e: Event, k: nat)
    requires !e.Undo? && !e.Accept? && !e.Reject? && !e.RefinerReturns? && k < |w.db.debates|
    ensures SameCores(w.db.debates[k].rounds, RowAfter(cfg, w, e, k).rounds)
    ensures !e.ScorerReturns? ==> w.db.debates[k].rounds == RowAfter(cfg, w, e, k).rounds
    ensures Truncated(w.db.debates[k].rounds, RowAfter(cfg, w, e, k).rounds) ==>
      w.db.debates[k].rounds == RowAfter(cfg, w, e, k).rounds
  {
  }

  lemma DecisionMoves(cfg: Config, w: World, e: Event, k: nat)
    requires e.Accept? || e.Reject?
    requires k < |w.db.debates| && OnlyLastPending(w.db.debates[k].rounds)
    ensures var rs, rs' := w.db.debates[k].rounds, RowAfter(cfg, w, e, k).rounds; rs' == rs || JustDecided(rs, rs')
  {
  }

  lemma MoveEvolves(rs: seq<Round>, rs': seq<Round>, id: nat)
    requires RoundsMove(rs, rs', id)
    ensures Evolves(rs, rs', id)
  {
    forall j | 0 <= j < |rs'| && rs'[j].id < id
      ensures j < |rs| && rs[j].id == rs'[j].id && Born(rs[j]) == Born(rs'[j])
      ensures rs[j].status != InReview ==> rs[j].status == rs'[j].status && Core(rs[j]) == Core(rs'[j])
    {
      if SameCores(rs, rs') {
        CoreParts(rs[j], rs'[j]);
      } else if Appended(rs, rs', id) {
        assert rs'[..|rs|][j] == rs[j];
      } else if Truncated(rs, rs') {
      } else if j < |rs| - 1 {
        assert rs'[..|rs| - 1][j] == rs[..|rs| - 1][j];
      } else {
        assert Born(rs[j]).id == rs[j].id && Born(rs'[j]).id == rs'[j].id;
      }
    }
  }

  lemma CoreParts(a: Round, b: Round)
    requires Core(a) == Core(b)
    ensures a.id == b.id && a.status == b.status && Born(a) == Born(b) && ShippedText(a) == ShippedText(b)
    ensures a.decidedAt == b.decidedAt && a.costMicros == b.costMicros
  {
  }

  lemma StepEvolves(cfg: Config, w: World, e: Event, k: nat)
    requires k < |w.db.debates| && RowInv(w.db.debates[k], w.nextId, w.now)
    ensures Evolves(w.db.debates[k].rounds, RowAfter(cfg, w, e, k).rounds, w.nextId)
  {
    StepMoves(cfg, w, e, k);
    MoveEvolves(w.db.debates[k].rounds, RowAfter(cfg, w, e, k).rounds, w.nextId);
  }

  lemma StepGrows(cfg: Config, w: World, e: Event)
    ensures w.nextId <= Step(cfg, w, e).nextId
    ensures |w.db.debates| <= |Step(cfg, w, e).db.debates|
    ensures w.now <= Step(cfg, w, e).now
  {
    StepOnRows(cfg, w, e);
  }

  lemma {:induction false} RunGrows(cfg: Config, w: World, es: seq<Event>)
    ensures w.nextId <= Run(cfg, w, es).nextId
    ensures |w.db.debates| <= |Run(cfg, w, es).db.debates|
    ensures w.now <= Run(cfg, w, es).now
  {
    if es != [] {
      RunGrows(cfg, w, es[..|es| - 1]);
      StepGrows(cfg, Run(cfg, w, es[..|es| - 1]), es[|es| - 1]);
    }
  }

  /** Decided rounds never change, pending ones change only by their decision, and an id that is
      gone never names a round again, even though round numbers are reused after an undo. */
  lemma {:induction false} RunEvolves(cfg: Config, w: World, es: seq<Event>, k: nat)
    requires RowsInv(w) && k < |w.db.debates|
    ensures k < |Run(cfg, w, es).db.debates|
    ensures Evolves(w.db.debates[k].rounds, Run(cfg, w, es).db.debates[k].rounds, w.nextId)
  {
    if es != [] {
      var before, e := es[..|es| - 1], es[|es| - 1];
      var v := Run(cfg, w, before);
      RunEvolves(cfg, w, before, k);
      RunKeepsRows(cfg, w, before);
      RunGrows(cfg, w, before);
      StepOnRows(cfg, v, e);
      StepEvolves(cfg, v, e, k);
      EvolvesChains(w.db.debates[k].rounds, v.db.debates[k].rounds, RowAfter(cfg, v, e, k).rounds, w.nextId, v.nextId);
    }
  }

  lemma EvolvesChains(a: seq<Round>, b: seq<Round>, c: seq<Round>, nextId: nat, later: nat)
    requires Evolves(a, b, nextId) && Evolves(b, c, later) && nextId <= later
    ensures Evolves(a, c, nextId)
  {
    forall j | 0 <= j < |c| && c[j].id < nextId
      ensures j < |a| && a[j].id == c[j].id && Born(a[j]) == Born(c[j])
      ensures a[j].status != InReview ==> a[j].status == c[j].status && Core(a[j]) == Core(c[j])
    {
      assert b[j].id == c[j].id;
    }
  }

  // ----- a round id has one home -----

  /** No id names rounds of two debates, so looking a round up inside its own debate finds the one row
      that a query by id alone would. */
  ghost predicate OneHome(w: World) {
    forall j, k, a, b ::
      0 <= j < k < |w.db.debates| && 0 <= a < |w.db.debates[j].rounds| && 0 <= b < |w.db.debates[k].rounds| ==>
        w.db.debates[j].rounds[a].id != w.db.debates[k].rounds[b].id
  }

  ghost predicate OldIds(rs: seq<Round>, nextId: nat) {
    forall i :: 0 <= i < |rs| ==> rs[i].id < nextId
  }

  /** Only the reply to a debate's own request gives it a round with a new id. */
  lemma NewIdsComeFromReplies(cfg: Config, w: World, e: Event, k: nat)
    requires k < |w.db.debates| && RowInv(w.db.debates[k], w.nextId, w.now)
    requires e.RefinerReturns? && e.request in w.requests ==> w.requests[e.request].debate != k
    ensures OldIds(RowAfter(cfg, w, e, k).rounds, w.nextId)
  {
    var rs, rs' := w.db.debates[k].rounds, RowAfter(cfg, w, e, k).rounds;
    if e.RefinerReturns? {
      assert rs' == rs;
    } else {
      OldIdsMove(cfg, w, e, k);
    }
  }

  lemma OldIdsMove(cfg: Config, w: World, e: Event, k: nat)
    requires k < |w.db.debates| && RowInv(w.db.debates[k], w.nextId, w.now) && !e.RefinerReturns?
    ensures OldIds(RowAfter(cfg, w, e, k).rounds, w.nextId)
  {
    var rs, rs' := w.db.debates[k].rounds, RowAfter(cfg, w, e, k).rounds;
    if e.Undo? {
      if 1 <= e.from { UndoIsExactInverse(w.db.debates[k], e.from, w.nextId, w.now); }
    } else if e.Accept? || e.Reject? {
      DecisionMoves(cfg, w, e, k);
      if rs' != rs { DecidedIds(rs, rs'); }
    } else {
      OtherMoves(cfg, w, e, k);
      forall i | 0 <= i < |rs'| ensures rs'[i].id == rs[i].id { CoreParts(rs[i], rs'[i]); }
    }
  }

  lemma DecidedIds(rs: seq<Round>, rs': seq<Round>)
    requires JustDecided(rs, rs')
    ensures forall i :: 0 <= i < |rs| ==> rs'[i].id == rs[i].id
  {
    var n := |rs| - 1;
    assert Born(rs[n]).id == rs[n].id && Born(rs'[n]).id == rs'[n].id;
    forall i | 0 <= i < n ensures rs'[i].id == rs[i].id {
      assert rs'[..n][i] == rs[..n][i];
    }
  }

  lemma OneHomeOfTwo(a: seq<Round>, b: seq<Round>, a': seq<Round>, b': seq<Round>, nextId: nat)
    requires Evolves(a, a', nextId) && Evolves(b, b', nextId) && (OldIds(a', nextId) || OldIds(b', nextId))
    requires forall i, j :: 0 <= i < |a| && 0 <= j < |b| ==> a[i].id != b[j].id
    ensures forall i, j :: 0 <= i < |a'| && 0 <= j < |b'| ==> a'[i].id != b'[j].id
  {
  }

  lemma StepKeepsOneHome(cfg: Config, w: World, e: Event)
    requires RowsInv(w) && OneHome(w)
    ensures OneHome(Step(cfg, w, e))
  {
    StepOnRows(cfg, w, e);
    var ds, ds' := w.db.debates, Step(cfg, w, e).db.debates;
    forall j, k | 0 <= j < k < |ds|
      ensures forall a, b :: 0 <= a < |ds'[j].rounds| && 0 <= b < |ds'[k].rounds| ==> ds'[j].rounds[a].id != ds'[k].rounds[b].id
    {
      PairKeepsOneHome(cfg, w, e, j, k);
    }
  }

  lemma PairKeepsOneHome(cfg: Config, w: World, e: Event, j: nat, k: nat)
    requires RowsInv(w) && OneHome(w) && j < k < |w.db.debates|
    ensures var a, b := RowAfter(cfg, w, e, j).rounds, RowAfter(cfg, w, e, k).rounds;
      forall i, i' :: 0 <= i < |a| && 0 <= i' < |b| ==> a[i].id != b[i'].id
  {
    StepEvolves(cfg, w, e, j);
    StepEvolves(cfg, w, e, k);
    if e.RefinerReturns? && e.request in w.requests && w.requests[e.request].debate == j {
      NewIdsComeFromReplies(cfg, w, e, k);
    } else {
      NewIdsComeFromReplies(cfg, w, e, j);
    }
    OneHomeOfTwo(w.db.debates[j].rounds, w.db.debates[k].rounds,
                 RowAfter(cfg, w, e, j).rounds, RowAfter(cfg, w, e, k).rounds, w.nextId);
  }

  lemma {:induction false} RunKeepsOneHome(cfg: Config, w: World, es: seq<Event>)
    requires RowsInv(w) && OneHome(w)
    ensures OneHome(Run(cfg, w, es))
  {
    if es != [] {
      RunKeepsOneHome(cfg, w, es[..|es| - 1]);
      RunKeepsRows(cfg, w, es[..|es| - 1]);
      StepKeepsOneHome(cfg, Run(cfg, w, es[..|es| - 1]), es[|es| - 1]);
    }
  }

  // ----- closed debates -----

  /** Nothing a reader of the debate sees has changed; only charges and scores may have arrived. */
  ghost predicate SameStory(d: Debate, d': Debate) {
    && d'.status == d.status && d'.seed == d.seed && d'.currentText == d.currentText
    && d'.originalDescription == d.originalDescription && d'.approvedText == d.approvedText
    && d'.ticket == d.ticket && SameCores(d.rounds, d'.rounds)
  }

  lemma ClosedStep(cfg: Config, w: World, e: Event, k: nat)
    requires k < |w.db.debates| && w.db.debates[k].status != Active
    ensures SameStory(w.db.debates[k], RowAfter(cfg, w, e, k))
  {
  }

  /** After approve or abandon, status, texts and rounds never change again. */
  lemma {:induction false} ClosedForever(cfg: Config, w: World, es: seq<Event>, k: nat)
    requires k < |w.db.debates| && w.db.debates[k].status != Active
    ensures k < |Run(cfg, w, es).db.debates|
    ensures SameStory(w.db.debates[k], Run(cfg, w, es).db.debates[k])
  {
    if es != [] {
      var before, e := es[..|es| - 1], es[|es| - 1];
      var v := Run(cfg, w, before);
      ClosedForever(cfg, w, before, k);
      StepOnRows(cfg, v, e);
      ClosedStep(cfg, v, e, k);
      var a, b, c := w.db.debates[k].rounds, v.db.debates[k].rounds, RowAfter(cfg, v, e, k).rounds;
      forall i | 0 <= i < |a| ensures Core(a[i]) == Core(c[i]) {
        assert Core(a[i]) == Core(b[i]) && Core(b[i]) == Core(c[i]);
      }
    }
  }

  // ----- undo rewinds a run -----

  /** No event of the run undoes one of the first n rounds of debate k, or edits its bare seed. */
  ghost predicate KeepsFirst(es: seq<Event>, k: nat, n: nat) {
    forall i :: 0 <= i < |es| ==>
      && (es[i].Undo? && es[i].debate == k ==> n < es[i].from)
      && (es[i].EditSeed? && es[i].debate == k ==> 0 < n)
  }

  /** The first n rounds are still there, decided as they were, over the same seed. */
  ghost predicate HoldsFirst(d: Debate, d': Debate, n: nat)
    requires n <= |d.rounds|
  {
    n <= |d'.rounds| && d'.seed == d.seed && SameCores(d.rounds[..n], d'.rounds[..n])
  }

  lemma MoveHoldsFirst(rs: seq<Round>, rs': seq<Round>, id: nat, n: nat)
    requires RoundsMove(rs, rs', id) && n <= |rs| && !HasPending(rs[..n])
    requires Truncated(rs, rs') ==> n <= |rs'|
    ensures n <= |rs'| && SameCores(rs[..n], rs'[..n])
  {
    assert JustDecided(rs, rs') && n == |rs| ==> HasPending(rs[..n]) by {
      if JustDecided(rs, rs') && n == |rs| { assert rs[..n] == rs; }
    }
    forall i | 0 <= i < n ensures Core(rs[..n][i]) == Core(rs'[..n][i]) {
      if Appended(rs, rs', id) {
        assert rs'[..|rs|][i] == rs[i];
      } else if JustDecided(rs, rs') {
        assert rs'[..|rs| - 1][i] == rs[..|rs| - 1][i];
      }
    }
  }

  lemma StepHoldsFirst(cfg: Config, w: World, e: Event, k: nat, n: nat)
    requires k < |w.db.debates| && RowInv(w.db.debates[k], w.nextId, w.now) && KeepsFirst([e], k, n)
    requires n <= |w.db.debates[k].rounds| && !HasPending(w.db.debates[k].rounds[..n])
    ensures HoldsFirst(w.db.debates[k], RowAfter(cfg, w, e, k), n)
  {
    assert [e][0] == e;
    StepMoves(cfg, w, e, k);
    MoveHoldsFirst(w.db.debates[k].rounds, RowAfter(cfg, w, e, k).rounds, w.nextId, n);
    SeedMoves(cfg, w, e, k);
  }

  /** Only a seed edit changes the seed, and only before the first round. */
  lemma SeedMoves(cfg: Config, w: World, e: Event, k: nat)
    requires k < |w.db.debates|
    ensures var d, d' := w.db.debates[k], RowAfter(cfg, w, e, k);
      d'.seed != d.seed ==> e.EditSeed? && e.debate == k && d.rounds == []
  {
  }

  lemma CoresKeepDecided(a: seq<Round>, b: seq<Round>)
    requires SameCores(a, b) && !HasPending(a)
    ensures !HasPending(b)
  {
    forall i | 0 <= i < |b| ensures b[i].status != InReview {
      assert a[i].status != InReview;
      CoreParts(a[i], b[i]);
    }
  }

  lemma {:induction false} RunHoldsFirst(cfg: Config, w: World, es: seq<Event>, k: nat, n: nat)
    requires RowsInv(w) && k < |w.db.debates| && KeepsFirst(es, k, n)
    requires n <= |w.db.debates[k].rounds| && !HasPending(w.db.debates[k].rounds[..n])
    ensures k < |Run(cfg, w, es).db.debates|
    ensures HoldsFirst(w.db.debates[k], Run(cfg, w, es).db.debates[k], n)
  {
    if es != [] {
      var before, e := es[..|es| - 1], es[|es| - 1];
      var v := Run(cfg, w, before);
      RunHoldsFirst(cfg, w, before, k, n);
      RunKeepsRows(cfg, w, before);
      StepOnRows(cfg, v, e);
      var a, b, c := w.db.debates[k].rounds[..n], v.db.debates[k].rounds[..n], RowAfter(cfg, v, e, k).rounds;
      CoresKeepDecided(a, b);
      StepHoldsFirst(cfg, v, e, k, n);
      forall i | 0 <= i < n ensures Core(a[i]) == Core(c[..n][i]) {
        assert Core(a[i]) == Core(b[i]) && Core(b[i]) == Core(c[..n][i]);
      }
    }
  }

  /** Whatever happens after a moment at which nothing was pending, undoing the rounds added since
      puts back that moment's text and rounds exactly; with no such rounds, they are there already. */
  lemma UndoRewindsAnyRun(cfg: Config, w: World, es: seq<Event>, k: nat)
    requires RowsInv(w) && k < |w.db.debates| && !HasPending(w.db.debates[k].rounds)
    requires KeepsFirst(es, k, |w.db.debates[k].rounds|)
    ensures k < |Run(cfg, w, es).db.debates|
    ensures var d, d' := w.db.debates[k], Run(cfg, w, es).db.debates[k];
      var undone := UndoRow(d', |d.rounds| + 1);
      && (undone.Success? ==> SameCores(d.rounds, undone.value.rounds) && undone.value.currentText == d.currentText)
      && (undone == Failure(NoRoundsToUndo) ==> SameCores(d.rounds, d'.rounds) && d'.currentText == d.currentText)
      && (undone.Failure? ==> undone.error == NoRoundsToUndo || d'.status != Active)
  {
    var v := Run(cfg, w, es);
    var d := w.db.debates[k];
    var n := |d.rounds|;
    assert d.rounds[..n] == d.rounds;
    RunHoldsFirst(cfg, w, es, k, n);
    RunKeepsRows(cfg, w, es);
    var d' := v.db.debates[k];
    UndoIsExactInverse(d', n + 1, v.nextId, v.now);
    CoresFixText(d.seed, d.rounds, d'.rounds[..n]);
    assert |d'.rounds| == n ==> d'.rounds[..n] == d'.rounds;
    assert n < |d'.rounds| ==> d'.rounds[n].inputText == TextAfter(d.seed, d'.rounds[..n]);
  }
}
