/**
 The read side: the versions rail, the read-only view of an older version, and the effort chip.
 The methods loop as the handlers do; the lemmas say that what they show agrees with what
 undo, a seed edit and the retry sweep would do.
 */
module View {
  import opened Prelude
  import opened Text
  import opened Debates
  import opened Protocol
  import opened Lineage
  import opened Runs

  datatype VersionEntry = VersionEntry(
    roundId: nat,
    roundNumber: int,
    versionLabel: nat,
    restoreFrom: int,
    provider: string,
    feedback: string,
    model: string,
    costMicros: int,
    accepted: bool,
    decidedAt: Option<Time>,
    isCurrent: bool)

  datatype Pending = Pending(roundId: nat, provider: string, inputText: string, outputText: string, nextVersion: nat)

  /** The latest accepted round, as the head of the document names it. */
  datatype Current = Current(roundId: nat, provider: string, decidedAt: Option<Time>)

  datatype DebateView = DebateView(
    pending: Option<Pending>,
    currentVersionLabel: nat,
    current: Option<Current>,
    versions: seq<VersionEntry>,
    canEditSeed: bool)

  datatype ViewTarget = Original | Version(roundId: nat)

  datatype ViewingVersion = ViewingVersion(number: nat, text: string, restoreFrom: int)

  datatype EffortChip = EffortChip(rescoring: bool, poll: bool)

  // ----- what the rail means -----

  /** The label of a version counts the accepted rounds up to it. */
  function AcceptedCount(rs: seq<Round>): nat {
    if rs == [] then 0 else AcceptedCount(rs[..|rs| - 1]) + if rs[|rs| - 1].status == Accepted then 1 else 0
  }

  /** The positions of the decided rounds, oldest first. */
  function DecidedAt(rs: seq<Round>): seq<nat> {
    if rs == [] then []
    else if rs[|rs| - 1].status == InReview then DecidedAt(rs[..|rs| - 1])
    else DecidedAt(rs[..|rs| - 1]) + [|rs| - 1]
  }

  /** The entry of round i, leaving open whether it is the current version. */
  ghost predicate Describes(e: VersionEntry, rs: seq<Round>, i: nat, isStaff: bool) {
    && i < |rs|
    && var r := rs[i];
    && e.roundId == r.id && e.roundNumber == r.number && e.restoreFrom == r.number + 1
    && e.provider == r.provider && e.decidedAt == r.decidedAt
    && e.accepted == (r.status == Accepted)
    && e.versionLabel == (if e.accepted then AcceptedCount(rs[..i + 1]) else 0)
    && e.feedback == (if r.feedback.Some? then r.feedback.value else "")
    && e.model == (if isStaff then r.model else "")
    && e.costMicros == (if isStaff then r.costMicros else 0)
  }

  lemma {:induction false} DecidedAtInRange(rs: seq<Round>)
    ensures forall j :: 0 <= j < |DecidedAt(rs)| ==> DecidedAt(rs)[j] < |rs| && rs[DecidedAt(rs)[j]].status != InReview
    ensures forall j, k :: 0 <= j < k < |DecidedAt(rs)| ==> DecidedAt(rs)[j] < DecidedAt(rs)[k]
    ensures forall i :: 0 <= i < |rs| && rs[i].status != InReview ==> i in DecidedAt(rs)
  {
    if rs != [] {
      var n := |rs| - 1;
      DecidedAtInRange(rs[..n]);
      if rs[n].status != InReview { assert DecidedAt(rs)[|DecidedAt(rs)| - 1] == n; }
      forall i | 0 <= i < |rs| && rs[i].status != InReview ensures i in DecidedAt(rs) {
        if i < n { assert rs[..n][i] == rs[i]; }
      }
    }
  }

  /** The entries of all decided rounds, oldest first, none of them marked current yet. */
  ghost predicate RailOf(rs: seq<Round>, isStaff: bool, es: seq<VersionEntry>) {
    && |es| == |DecidedAt(rs)|
    && forall j :: 0 <= j < |es| ==> Describes(es[j], rs, DecidedAt(rs)[j], isStaff) && !es[j].isCurrent
  }

  function CurrentOf(r: Round): Current {
    Current(r.id, r.provider, r.decidedAt)
  }

  predicate Names(latest: Option<Current>, e: VersionEntry) {
    latest.Some? && latest.value.roundId == e.roundId
  }

  ghost predicate LatestIs(rs: seq<Round>, latest: Option<Current>) {
    if latest.None? then forall i :: 0 <= i < |rs| ==> rs[i].status != Accepted
    else exists i :: IsLatestAccepted(rs, i) && CurrentOf(rs[i]) == latest.value
  }

  ghost predicate PendingIs(rs: seq<Round>, p: Option<Pending>) {
    && (p.Some? <==> HasPending(rs))
    && (p.Some? ==> exists i :: 0 <= i < |rs| && rs[i].status == InReview && Shows(p.value, rs[i]))
  }

  ghost predicate Shows(p: Pending, r: Round) {
    p.roundId == r.id && p.provider == r.provider && p.inputText == r.inputText && p.outputText == r.outputText
  }

  /** What the loop of BuildDebateView has gathered from these rounds. */
  ghost predicate Gathered(
    rs: seq<Round>, isStaff: bool, es: seq<VersionEntry>, accepted: nat, latest: Option<Current>, p: Option<Pending>)
  {
    RailOf(rs, isStaff, es) && accepted == AcceptedCount(rs) && LatestIs(rs, latest) && PendingIs(rs, p)
  }

  lemma RailExtends(rs: seq<Round>, r: Round, isStaff: bool, es: seq<VersionEntry>)
    requires RailOf(rs, isStaff, es)
    ensures |es| == |DecidedAt(rs)| <= |DecidedAt(rs + [r])|
    ensures forall j :: 0 <= j < |es| ==> Describes(es[j], rs + [r], DecidedAt(rs + [r])[j], isStaff)
    ensures AcceptedCount(rs + [r]) == AcceptedCount(rs) + if r.status == Accepted then 1 else 0
  {
    var rs' := rs + [r];
    assert rs'[..|rs|] == rs;
    forall j | 0 <= j < |es| ensures Describes(es[j], rs', DecidedAt(rs')[j], isStaff) {
      var i := DecidedAt(rs)[j];
      assert rs'[..i + 1] == rs[..i + 1];
    }
  }

  lemma LatestExtends(rs: seq<Round>, r: Round, latest: Option<Current>)
    requires LatestIs(rs, latest)
    ensures LatestIs(rs + [r], if r.status == Accepted then Some(CurrentOf(r)) else latest)
  {
    var rs' := rs + [r];
    if r.status == Accepted {
      assert IsLatestAccepted(rs', |rs|);
    } else if latest.Some? {
      var i :| IsLatestAccepted(rs, i) && CurrentOf(rs[i]) == latest.value;
      assert IsLatestAccepted(rs', i);
    }
  }

  lemma PendingExtends(rs: seq<Round>, r: Round, p: Option<Pending>, p': Option<Pending>)
    requires PendingIs(rs, p)
    requires if r.status == InReview then p'.Some? && Shows(p'.value, r) else p' == p
    ensures PendingIs(rs + [r], p')
  {
    var rs' := rs + [r];
    if r.status == InReview {
      assert rs'[|rs|].status == InReview && Shows(p'.value, rs'[|rs|]);
    } else if p.Some? {
      var i :| 0 <= i < |rs| && rs[i].status == InReview && Shows(p.value, rs[i]);
      assert rs'[i] == rs[i];
    }
  }

  /** The entry the loop makes of a decided round. */
  function EntryOf(r: Round, accepted: nat, isStaff: bool): VersionEntry {
    VersionEntry(
      r.id, r.number, if r.status == Accepted then accepted else 0, r.number + 1, r.provider,
      if r.feedback.Some? then r.feedback.value else "",
      if isStaff then r.model else "", if isStaff then r.costMicros else 0,
      r.status == Accepted, r.decidedAt, false)
  }

  lemma GatherPending(
      rs: seq<Round>, r: Round, isStaff: bool, es: seq<VersionEntry>, accepted: nat, latest: Option<Current>,
      p: Option<Pending>, p': Pending)
    requires Gathered(rs, isStaff, es, accepted, latest, p) && r.status == InReview && Shows(p', r)
    ensures Gathered(rs + [r], isStaff, es, accepted, latest, Some(p'))
  {
    assert (rs + [r])[..|rs|] == rs;
    RailExtends(rs, r, isStaff, es);
    LatestExtends(rs, r, latest);
    PendingExtends(rs, r, p, Some(p'));
  }

  lemma GatherDecided(
      rs: seq<Round>, r: Round, isStaff: bool, es: seq<VersionEntry>, accepted: nat, latest: Option<Current>,
      p: Option<Pending>)
    requires Gathered(rs, isStaff, es, accepted, latest, p) && r.status != InReview
    ensures var accepted' := if r.status == Accepted then accepted + 1 else accepted;
      Gathered(rs + [r], isStaff, es + [EntryOf(r, accepted', isStaff)], accepted',
               if r.status == Accepted then Some(CurrentOf(r)) else latest, p)
  {
    var rs' := rs + [r];
    assert rs'[..|rs|] == rs && rs'[..|rs| + 1] == rs';
    RailExtends(rs, r, isStaff, es);
    LatestExtends(rs, r, latest);
    PendingExtends(rs, r, p, p);
    var e := EntryOf(r, if r.status == Accepted then accepted + 1 else accepted, isStaff);
    assert Describes(e, rs', |rs|, isStaff) && DecidedAt(rs') == DecidedAt(rs) + [|rs|];
    var es' := es + [e];
    forall j | 0 <= j < |es'| ensures Describes(es'[j], rs', DecidedAt(rs')[j], isStaff) && !es'[j].isCurrent {
      if j < |es| { assert es'[j] == es[j] && Describes(es[j], rs', DecidedAt(rs')[j], isStaff); }
    }
  }

  /** The rail, newest first, and nothing marked current but the latest accepted round. */
  ghost predicate NewestFirst(rs: seq<Round>, isStaff: bool, es: seq<VersionEntry>) {
    && |es| == |DecidedAt(rs)|
    && forall j :: 0 <= j < |es| ==>
      var i := DecidedAt(rs)[|es| - 1 - j];
      Describes(es[j], rs, i, isStaff) && (es[j].isCurrent <==> IsLatestAccepted(rs, i))
  }

  /** What the page shows of a debate: the rail, the current version, the pending suggestion, and
      whether the seed may be edited. */
  ghost predicate IsViewOf(d: Debate, rs: seq<Round>, isStaff: bool, v: DebateView) {
    && NewestFirst(rs, isStaff, v.versions)
    && v.currentVersionLabel == AcceptedCount(rs) && LatestIs(rs, v.current)
    && PendingIs(rs, v.pending)
    && (v.pending.Some? ==> v.pending.value.nextVersion == v.currentVersionLabel + 1)
    && (v.canEditSeed <==> rs == [] && d.inFlight.None?)
  }

  method BuildDebateView(d: Debate, rs: seq<Round>, isStaff: bool) returns (v: DebateView)
    ensures IsViewOf(d, rs, isStaff, v)
  {
    var pending: Option<Pending> := None;
    var latest: Option<Current> := None;
    var accepted: nat := 0;
    var entries: seq<VersionEntry> := [];
    for i := 0 to |rs|
      invariant Gathered(rs[..i], isStaff, entries, accepted, latest, pending)
    {
      var r := rs[i];
      assert rs[..i + 1] == rs[..i] + [r];
      if r.status == InReview {
        var p := Pending(r.id, r.provider, r.inputText, r.outputText, 0);
        GatherPending(rs[..i], r, isStaff, entries, accepted, latest, pending, p);
        pending := Some(p);
        continue;
      }
      GatherDecided(rs[..i], r, isStaff, entries, accepted, latest, pending);
      if r.status == Accepted {
        accepted := accepted + 1;
        latest := Some(CurrentOf(r));
      }
      entries := entries + [EntryOf(r, accepted, isStaff)];
    }
    assert rs[..|rs|] == rs;
    var versions := NewestFirstOf(entries, rs, latest, isStaff);
    if pending.Some? {
      pending := Some(pending.value.(nextVersion := accepted + 1));
    }
    v := DebateView(pending, accepted, latest, versions, |rs| == 0 && d.inFlight.None?);
  }

  /** The tail of the function: reverse the slice in place, then flag the current version. */
  method NewestFirstOf(entries: seq<VersionEntry>, ghost rs: seq<Round>, latest: Option<Current>, ghost isStaff: bool)
    returns (versions: seq<VersionEntry>)
    requires RailOf(rs, isStaff, entries) && LatestIs(rs, latest)
    ensures NewestFirst(rs, isStaff, versions)
  {
    ghost var reversed;
    versions, reversed := ReverseAndMark(entries, latest);
    MarkedRail(entries, reversed, versions, rs, latest, isStaff);
  }

  method ReverseAndMark(entries: seq<VersionEntry>, latest: Option<Current>)
    returns (versions: seq<VersionEntry>, ghost reversed: seq<VersionEntry>)
    requires forall j :: 0 <= j < |entries| ==> !entries[j].isCurrent
    ensures |versions| == |reversed| == |entries|
    ensures forall j :: 0 <= j < |entries| ==> reversed[j] == entries[|entries| - 1 - j]
    ensures forall j :: 0 <= j < |entries| ==> versions[j] == reversed[j].(isCurrent := versions[j].isCurrent)
    ensures forall j :: 0 <= j < |entries| ==> (versions[j].isCurrent <==> IsMarked(reversed, latest, j))
  {
    var rail := new VersionEntry[|entries|](i requires 0 <= i < |entries| => entries[i]);
    assert rail[..] == entries;
    ReverseInPlace(rail);
    reversed := rail[..];
    assert forall j :: 0 <= j < |entries| ==> reversed[j] == entries[|entries| - 1 - j];
    assert forall j :: 0 <= j < |entries| ==> !rail[j].isCurrent;
    MarkCurrent(rail, latest);
    versions := rail[..];
  }

  lemma MarkedRail(
      entries: seq<VersionEntry>, reversed: seq<VersionEntry>, es: seq<VersionEntry>,
      rs: seq<Round>, latest: Option<Current>, isStaff: bool)
    requires RailOf(rs, isStaff, entries) && LatestIs(rs, latest)
    requires |reversed| == |es| == |entries|
    requires forall j :: 0 <= j < |es| ==> reversed[j] == entries[|es| - 1 - j]
    requires forall j :: 0 <= j < |es| ==> es[j] == reversed[j].(isCurrent := es[j].isCurrent)
    requires forall j :: 0 <= j < |es| ==> (es[j].isCurrent <==> IsMarked(reversed, latest, j))
    ensures NewestFirst(rs, isStaff, es)
  {
    forall j | 0 <= j < |es| ensures Describes(reversed[j], rs, DecidedAt(rs)[|es| - 1 - j], isStaff) {
      assert Describes(entries[|es| - 1 - j], rs, DecidedAt(rs)[|es| - 1 - j], isStaff);
    }
    MarkedIsLatest(reversed, rs, latest, isStaff);
    forall j | 0 <= j < |es|
      ensures Describes(es[j], rs, DecidedAt(rs)[|es| - 1 - j], isStaff)
      ensures es[j].isCurrent <==> IsLatestAccepted(rs, DecidedAt(rs)[|es| - 1 - j])
    {
      assert Describes(reversed[j], rs, DecidedAt(rs)[|es| - 1 - j], isStaff);
      assert IsMarked(reversed, latest, j) <==> IsLatestAccepted(rs, DecidedAt(rs)[|es| - 1 - j]);
    }
  }

  /** Newest first, the first entry with the latest accepted id is the latest accepted round. */
  lemma MarkedIsLatest(es: seq<VersionEntry>, rs: seq<Round>, latest: Option<Current>, isStaff: bool)
    requires |es| == |DecidedAt(rs)| && LatestIs(rs, latest)
    requires forall j :: 0 <= j < |es| ==> Describes(es[j], rs, DecidedAt(rs)[|es| - 1 - j], isStaff)
    ensures forall j :: 0 <= j < |es| ==> (IsMarked(es, latest, j) <==> IsLatestAccepted(rs, DecidedAt(rs)[|es| - 1 - j]))
  {
    DecidedAtInRange(rs);
    if latest.None? {
      forall j | 0 <= j < |es| ensures IsMarked(es, latest, j) <==> IsLatestAccepted(rs, DecidedAt(rs)[|es| - 1 - j]) {
        assert Describes(es[j], rs, DecidedAt(rs)[|es| - 1 - j], isStaff);
      }
    } else {
      var i :| IsLatestAccepted(rs, i) && CurrentOf(rs[i]) == latest.value;
      var p :| 0 <= p < |es| && DecidedAt(rs)[p] == i;
      forall j | 0 <= j < |es| ensures IsMarked(es, latest, j) <==> IsLatestAccepted(rs, DecidedAt(rs)[|es| - 1 - j]) {
        MarkedAt(es, rs, latest, isStaff, p, j);
      }
    }
  }

  lemma MarkedAt(es: seq<VersionEntry>, rs: seq<Round>, latest: Option<Current>, isStaff: bool, p: nat, j: nat)
    requires |es| == |DecidedAt(rs)| && p < |es| && j < |es|
    requires forall k :: 0 <= k < |es| ==> Describes(es[k], rs, DecidedAt(rs)[|es| - 1 - k], isStaff)
    requires forall a, b :: 0 <= a < b < |DecidedAt(rs)| ==> DecidedAt(rs)[a] < DecidedAt(rs)[b]
    requires IsLatestAccepted(rs, DecidedAt(rs)[p]) && latest == Some(CurrentOf(rs[DecidedAt(rs)[p]]))
    ensures IsMarked(es, latest, j) <==> j == |es| - 1 - p
    ensures IsLatestAccepted(rs, DecidedAt(rs)[|es| - 1 - j]) <==> j == |es| - 1 - p
  {
    var n, at := |es|, DecidedAt(rs);
    var k := n - 1 - p;
    assert Describes(es[k], rs, at[n - 1 - k], isStaff);
    forall m | 0 <= m < k ensures !es[m].accepted {
      assert Describes(es[m], rs, at[n - 1 - m], isStaff);
      assert at[p] < at[n - 1 - m];
    }
    if k < j {
      assert at[n - 1 - j] < at[p];
    }
  }

  /** The slice is reversed by swapping from both ends. */
  method ReverseInPlace(a: array<VersionEntry>)
    modifies a
    ensures forall j :: 0 <= j < a.Length ==> a[j] == old(a[a.Length - 1 - j])
  {
    var i, j := 0, a.Length - 1;
    while i < j
      invariant 0 <= i <= j + 1 && i + j == a.Length - 1
      invariant forall m :: 0 <= m < a.Length && (m < i || j < m) ==> a[m] == old(a[a.Length - 1 - m])
      invariant forall m :: i <= m <= j ==> a[m] == old(a[m])
    {
      a[i], a[j] := a[j], a[i];
      i, j := i + 1, j - 1;
    }
  }

  /** Flag the first entry that is accepted and carries the latest accepted id. */
  method MarkCurrent(a: array<VersionEntry>, latest: Option<Current>)
    modifies a
    ensures forall j :: 0 <= j < a.Length ==> a[j] == old(a[j]).(isCurrent := a[j].isCurrent)
    ensures forall j :: 0 <= j < a.Length && !old(a[j].isCurrent) ==>
      (a[j].isCurrent <==> IsMarked(old(a[..]), latest, j))
  {
    for i := 0 to a.Length
      invariant a[..] == old(a[..])
      invariant forall j :: 0 <= j < i ==> !(a[j].accepted && Names(latest, a[j]))
    {
      if a[i].accepted && Names(latest, a[i]) {
        a[i] := a[i].(isCurrent := true);
        break;
      }
    }
  }

  ghost predicate IsMarked(es: seq<VersionEntry>, latest: Option<Current>, j: int) {
    && 0 <= j < |es| && es[j].accepted && Names(latest, es[j])
    && forall k :: 0 <= k < j ==> !(es[k].accepted && Names(latest, es[k]))
  }

  // ----- viewing an older version -----

  /** What ShowVersion displays: the seed, or the shipped text of an accepted round. */
  ghost predicate IsViewing(d: Debate, rs: seq<Round>, target: ViewTarget, v: ViewingVersion) {
    match target
    case Original => v == ViewingVersion(0, d.seed, 1)
    case Version(id) => exists i :: IsVersion(rs, i, v) && rs[i].id == id
  }

  ghost predicate IsVersion(rs: seq<Round>, i: int, v: ViewingVersion) {
    && 0 <= i < |rs| && rs[i].status == Accepted
    && v == ViewingVersion(AcceptedCount(rs[..i + 1]), ShippedText(rs[i]), rs[i].number + 1)
  }

  method ShowVersion(d: Debate, rs: seq<Round>, target: ViewTarget) returns (v: Option<ViewingVersion>)
    ensures v.Some? ==> IsViewing(d, rs, target, v.value)
    ensures v.None? <==> target.Version? && forall i :: 0 <= i < |rs| ==> rs[i].id != target.roundId || rs[i].status != Accepted
  {
    if target.Original? {
      return Some(ViewingVersion(0, d.seed, 1));
    }
    var number := 0;
    for i := 0 to |rs|
      invariant number == AcceptedCount(rs[..i])
      invariant forall j :: 0 <= j < i ==> rs[j].id != target.roundId || rs[j].status != Accepted
    {
      assert rs[..i + 1][..i] == rs[..i];
      if rs[i].status == Accepted {
        number := number + 1;
        if rs[i].id == target.roundId {
          v := Some(ViewingVersion(number, ShippedText(rs[i]), rs[i].number + 1));
          assert IsVersion(rs, i, v.value);
          return;
        }
      }
    }
    return None;
  }

  /** Restoring a displayed version brings back exactly the displayed text; if undo finds nothing to
      undo, the document already reads that way. */
  lemma RestoreShowsTheDisplayedText(d: Debate, target: ViewTarget, v: ViewingVersion, nextId: nat, now: Time)
    requires RowInv(d, nextId, now) && d.status == Active && IsViewing(d, d.rounds, target, v)
    ensures var r := UndoRow(d, v.restoreFrom);
      if r.Success? then r.value.currentText == v.text
      else r.error == NoRoundsToUndo && d.currentText == v.text
  {
    match target {
      case Original =>
        RestoreFromPrefix(d, 0, nextId, now);
      case Version(id) =>
        var i :| IsVersion(d.rounds, i, v) && d.rounds[i].id == id;
        RestoreFromPrefix(d, i + 1, nextId, now);
        TextUpTo(d.seed, d.rounds, i);
    }
  }

  lemma TextUpTo(seed: string, rs: seq<Round>, i: nat)
    requires i < |rs| && rs[i].status == Accepted
    ensures TextAfter(seed, rs[..i + 1]) == ShippedText(rs[i])
  {
  }

  lemma RestoreFromPrefix(d: Debate, n: nat, nextId: nat, now: Time)
    requires RowInv(d, nextId, now) && d.status == Active && n <= |d.rounds|
    ensures var r, text := UndoRow(d, n + 1), TextAfter(d.seed, d.rounds[..n]);
      if r.Success? then r.value.currentText == text else r.error == NoRoundsToUndo && d.currentText == text
  {
    UndoIsExactInverse(d, n + 1, nextId, now);
    if n < |d.rounds| {
      PrefixKeeps(d.seed, d.rounds, n);
    } else {
      assert d.rounds[..n] == d.rounds;
    }
  }

  /** The version an accepted entry of the rail, for round i, stands for. */
  function VersionOf(d: Debate, e: VersionEntry, i: nat): ViewingVersion
    requires i < |d.rounds|
  {
    ViewingVersion(e.versionLabel, ShippedText(d.rounds[i]), e.restoreFrom)
  }

  /** Opening an accepted entry of the rail shows that version, under the same label and restore target. */
  lemma RailEntryIsVersion(d: Debate, isStaff: bool, versions: seq<VersionEntry>, j: nat)
    requires NewestFirst(d.rounds, isStaff, versions) && j < |versions| && versions[j].accepted
    ensures var i := DecidedAt(d.rounds)[|versions| - 1 - j];
      && i < |d.rounds| && versions[j].roundId == d.rounds[i].id
      && IsViewing(d, d.rounds, Version(versions[j].roundId), VersionOf(d, versions[j], i))
  {
    var i := DecidedAt(d.rounds)[|versions| - 1 - j];
    assert Describes(versions[j], d.rounds, i, isStaff);
    assert IsVersion(d.rounds, i, VersionOf(d, versions[j], i));
  }

  /** The rail's own restore links do the same, and its current version is the current text. */
  lemma RailEntriesRestore(d: Debate, isStaff: bool, versions: seq<VersionEntry>, j: nat, nextId: nat, now: Time)
    requires RowInv(d, nextId, now) && d.status == Active
    requires NewestFirst(d.rounds, isStaff, versions) && j < |versions| && versions[j].accepted
    ensures var r, i := UndoRow(d, versions[j].restoreFrom), DecidedAt(d.rounds)[|versions| - 1 - j];
      && i < |d.rounds|
      && (r.Success? ==> r.value.currentText == ShippedText(d.rounds[i]))
      && (r.Failure? ==> d.currentText == ShippedText(d.rounds[i]))
      && (versions[j].isCurrent ==> d.currentText == ShippedText(d.rounds[i]))
  {
    var i := DecidedAt(d.rounds)[|versions| - 1 - j];
    RailEntryIsVersion(d, isStaff, versions, j);
    RestoreShowsTheDisplayedText(d, Version(d.rounds[i].id), VersionOf(d, versions[j], i), nextId, now);
    if versions[j].isCurrent { CurrentIsLatest(d.seed, d.rounds, i); }
  }

  // ----- restoring later than it was shown -----

  /** What was displayed is still there: the same round, or the same seed. */
  ghost predicate StillThere(d: Debate, target: ViewTarget, v: ViewingVersion) {
    match target
    case Original => d.seed == v.text
    case Version(id) => exists i :: 0 <= i < |d.rounds| && d.rounds[i].id == id
  }

  /** Whatever happens between showing a version and restoring it, the restore gives the displayed text,
      or refuses and the text already reads that way, as long as the round that was shown is still there. */
  lemma LateRestoreShowsTheDisplayedText(
    cfg: Config, w: World, es: seq<Event>, k: nat, target: ViewTarget, v: ViewingVersion)
    requires RowsInv(w) && k < |w.db.debates| && k < |Run(cfg, w, es).db.debates|
    requires IsViewing(w.db.debates[k], w.db.debates[k].rounds, target, v)
    requires var d' := Run(cfg, w, es).db.debates[k]; d'.status == Active && StillThere(d', target, v)
    ensures var d' := Run(cfg, w, es).db.debates[k];
      var r := UndoRow(d', v.restoreFrom);
      if r.Success? then r.value.currentText == v.text else r.error == NoRoundsToUndo && d'.currentText == v.text
  {
    var u := Run(cfg, w, es);
    RunKeepsRows(cfg, w, es);
    RunEvolves(cfg, w, es, k);
    assert RowInv(w.db.debates[k], w.nextId, w.now);
    EvolvedStillReads(w.db.debates[k].rounds, w.db.debates[k], u.db.debates[k], target, v, w.nextId);
    assert RowInv(u.db.debates[k], u.nextId, u.now);
    LateRestoreIff(u.db.debates[k], v, u.nextId, u.now);
  }

  /** The text that the restore of v would go back to in a later row. */
  function RestoredText(d: Debate, v: ViewingVersion): string
    requires 1 <= v.restoreFrom
  {
    TextAfter(d.seed, d.rounds[..Min(v.restoreFrom - 1, |d.rounds|)])
  }

  /** The restore of a page shown earlier, at any later row of the debate: it gives the displayed text,
      or refuses over it, exactly when the rounds now under its number still read that way. */
  lemma LateRestoreIff(d: Debate, v: ViewingVersion, nextId: nat, now: Time)
    requires RowInv(d, nextId, now) && d.status == Active && 1 <= v.restoreFrom
    ensures var r := UndoRow(d, v.restoreFrom);
      (if r.Success? then r.value.currentText == v.text else r.error == NoRoundsToUndo && d.currentText == v.text)
      <==> RestoredText(d, v) == v.text
  {
    UndoTouchesNothingElse(d, v.restoreFrom);
    assert |d.rounds| < v.restoreFrom ==> d.rounds[..Min(v.restoreFrom - 1, |d.rounds|)] == d.rounds;
  }

  lemma EvolvedStillReads(rs: seq<Round>, d: Debate, d': Debate, target: ViewTarget, v: ViewingVersion, nextId: nat)
    requires Numbered(rs) && IdsGrow(rs, nextId) && Evolves(rs, d'.rounds, nextId)
    requires IsViewing(d, rs, target, v) && StillThere(d', target, v)
    ensures 1 <= v.restoreFrom && RestoredText(d', v) == v.text
  {
    match target
    case Original =>
      assert d'.rounds[..0] == [];
    case Version(id) =>
      var i :| IsVersion(rs, i, v) && rs[i].id == id;
      var j :| 0 <= j < |d'.rounds| && d'.rounds[j].id == id;
      VersionStillReads(rs, d'.seed, d'.rounds, i, j, v, nextId);
  }

  lemma VersionStillReads(
    rs: seq<Round>, seed: string, rs': seq<Round>, i: nat, j: nat, v: ViewingVersion, nextId: nat)
    requires Numbered(rs) && IdsGrow(rs, nextId) && Evolves(rs, rs', nextId)
    requires IsVersion(rs, i, v) && j < |rs'| && rs'[j].id == rs[i].id
    ensures v.restoreFrom == i + 2 && i < |rs'| && TextAfter(seed, rs'[..i + 1]) == v.text
  {
    SameRoundStays(rs, rs', i, j, nextId);
    TextUpTo(seed, rs', i);
  }

  lemma SameRoundStays(rs: seq<Round>, rs': seq<Round>, i: nat, j: nat, nextId: nat)
    requires IdsGrow(rs, nextId) && Evolves(rs, rs', nextId)
    requires i < |rs| && rs[i].status == Accepted && j < |rs'| && rs'[j].id == rs[i].id
    ensures j == i && rs'[i].status == Accepted && ShippedText(rs'[i]) == ShippedText(rs[i])
  {
    CoreParts(rs[j], rs'[j]);
  }

  /** The round must be there, not only its number. Show the last version, undo it, take another
      suggestion under the same number: the restore of the old page finds nothing to undo, and the
      document reads as the new suggestion. */
  lemma ReusedNumberMisleads(d: Debate, s: Suggestion, v: ViewingVersion, nextId: nat, now: Time)
    requires RowInv(d, nextId, now) && d.status == Active && !Blank(s.outputText)
    requires d.rounds != [] && IsVersion(d.rounds, |d.rounds| - 1, v)
    ensures var undone := UndoRow(d, |d.rounds|);
      && undone.Success?
      && var inserted := InsertRow(undone.value, nextId, s, undone.value.currentText);
        && inserted.Success?
        && var accepted := AcceptRow(inserted.value, nextId, None, now);
          && accepted.Success? && accepted.value.currentText == s.outputText
          && UndoRow(accepted.value, v.restoreFrom) == Failure(NoRoundsToUndo)
  {
    var n := |d.rounds|;
    UndoIsExactInverse(d, n, nextId, now);
    TakesAnother(UndoRow(d, n).value, s, nextId, now);
  }

  /** A debate with nothing pending takes one more suggestion; undo past it has nothing to undo. */
  lemma TakesAnother(d: Debate, s: Suggestion, nextId: nat, now: Time)
    requires RowInv(d, nextId, now) && d.status == Active && !HasPending(d.rounds) && !Blank(s.outputText)
    ensures var inserted := InsertRow(d, nextId, s, d.currentText);
      && inserted.Success?
      && var accepted := AcceptRow(inserted.value, nextId, None, now);
        && accepted.Success? && accepted.value.currentText == s.outputText
        && UndoRow(accepted.value, |d.rounds| + 2) == Failure(NoRoundsToUndo)
  {
    MaxNumberIsLength(d.rounds);
    InsertKeeps(d, nextId, s, d.currentText, now);
    AcceptsLast(InsertRow(d, nextId, s, d.currentText).value, nextId + 1, now);
  }

  /** The undecided last round of an active debate can be accepted as it is. */
  lemma AcceptsLast(d: Debate, nextId: nat, now: Time)
    requires RowInv(d, nextId, now) && d.status == Active
    requires d.rounds != [] && d.rounds[|d.rounds| - 1].status == InReview
    ensures var x := d.rounds[|d.rounds| - 1];
      var r := AcceptRow(d, x.id, None, now);
      && r.Success? && r.value.currentText == x.outputText
      && UndoRow(r.value, |d.rounds| + 1) == Failure(NoRoundsToUndo)
  {
    var x := d.rounds[|d.rounds| - 1];
    AcceptIsExact(d, |d.rounds| - 1, None, nextId, now);
    AcceptKeeps(d, x.id, None, nextId, now);
    UndoTouchesNothingElse(AcceptRow(d, x.id, None, now).value, |d.rounds| + 1);
  }

  lemma {:induction false} CurrentIsLatest(seed: string, rs: seq<Round>, i: nat)
    requires IsLatestAccepted(rs, i)
    ensures TextAfter(seed, rs) == ShippedText(rs[i])
  {
    if i < |rs| - 1 { CurrentIsLatest(seed, rs[..|rs| - 1], i); }
  }

  lemma {:induction false} CountGrows(rs: seq<Round>, i: nat, j: nat)
    requires i <= j <= |rs|
    ensures AcceptedCount(rs[..i]) <= AcceptedCount(rs[..j])
  {
    if i < j {
      assert rs[..j][..j - 1] == rs[..j - 1];
      CountGrows(rs, i, j - 1);
    }
  }

  /** Labels grow with the rounds, so a label names one version. */
  lemma LabelsFollowRounds(rs: seq<Round>, i: nat, j: nat)
    requires i < j < |rs| && rs[i].status == Accepted && rs[j].status == Accepted
    ensures 1 <= AcceptedCount(rs[..i + 1]) < AcceptedCount(rs[..j + 1])
  {
    CountStep(rs, i);
    CountStep(rs, j);
    CountGrows(rs, i + 1, j);
  }

  lemma CountStep(rs: seq<Round>, i: nat)
    requires i < |rs|
    ensures AcceptedCount(rs[..i + 1]) == AcceptedCount(rs[..i]) + if rs[i].status == Accepted then 1 else 0
  {
    assert rs[..i + 1][..i] == rs[..i];
  }

  /** The page of an active debate offers the edit exactly when a well-formed edit would be taken. */
  lemma EditOfferedIffTaken(d: Debate, isStaff: bool, v: DebateView, text: string, maxLen: nat)
    requires IsViewOf(d, d.rounds, isStaff, v) && d.status == Active
    requires !Blank(text) && |TrimSpace(text)| <= maxLen
    ensures var r := EditSeedRow(d, text, maxLen);
      && (v.canEditSeed <==> r.Success?)
      && (r.Success? ==> r.value.currentText == TrimSpace(text) == r.value.seed)
  {
    BlankIffTrimsAway(text);
  }

  // ----- the effort chip -----

  ghost predicate ChipOf(d: Debate, rs: seq<Round>, now: Time, pollWindow: Time, chip: EffortChip) {
    && ((forall i :: 0 <= i < |rs| ==> rs[i].status != Accepted) ==> chip == EffortChip(false, false))
    && forall i :: IsLatestAccepted(rs, i) ==>
      && (chip.rescoring <==> d.lastScored != Some(rs[i].id))
      && (chip.poll <==> chip.rescoring && d.status == Active && rs[i].decidedAt.Some? &&
                         now - rs[i].decidedAt.value < pollWindow)
  }

  method BuildEffortChip(d: Debate, rs: seq<Round>, now: Time, pollWindow: Time) returns (chip: EffortChip)
    ensures ChipOf(d, rs, now, pollWindow, chip)
  {
    var latest: Option<nat> := None;
    for i := 0 to |rs|
      invariant latest.None? ==> forall j :: 0 <= j < i ==> rs[j].status != Accepted
      invariant latest.Some? ==> latest.value < i && IsLatestAccepted(rs[..i], latest.value)
    {
      if rs[i].status == Accepted {
        latest := Some(i);
      }
    }
    assert rs[..|rs|] == rs;
    if latest.None? {
      return EffortChip(false, false);
    }
    var r := rs[latest.value];
    var rescoring := d.lastScored != Some(r.id);
    chip := EffortChip(
      rescoring,
      rescoring && d.status == Active && r.decidedAt.Some? && now - r.decidedAt.value < pollWindow);
  }

  lemma {:induction false} LastDecidedIsLatest(rs: seq<Round>, now: Time, i: nat)
    requires DecidedInOrder(rs, now) && IsLatestAccepted(rs, i)
    requires forall j :: 0 <= j < |rs| && rs[j].status == Accepted ==> rs[j].decidedAt.Some?
    ensures LastDecided(rs) == rs[i].decidedAt
  {
    var n := |rs| - 1;
    if i < n {
      OrderPrefixDecided(rs, n, now);
      LastDecidedIsLatest(rs[..n], now, i);
    } else {
      EarlierDecided(rs[..n], rs[n].decidedAt.value);
    }
  }

  lemma OrderPrefixDecided(rs: seq<Round>, n: nat, now: Time)
    requires DecidedInOrder(rs, now) && n <= |rs|
    ensures DecidedInOrder(rs[..n], now)
  {
  }

  lemma {:induction false} EarlierDecided(rs: seq<Round>, t: Time)
    requires forall j :: 0 <= j < |rs| && rs[j].decidedAt.Some? ==> rs[j].decidedAt.value <= t
    ensures LastDecided(rs).Some? ==> LastDecided(rs).value <= t
  {
    if rs != [] { EarlierDecided(rs[..|rs| - 1], t); }
  }

  /** Chip and sweep agree: a debate can be claimed exactly when it shows "rescoring", is not
      abandoned, its latest accept is old enough and its lease has run out. */
  lemma ClaimableIffRescoringAndDue(
    cfg: Config, d: Debate, i: nat, chip: EffortChip, at: Time, pollWindow: Time, nextId: nat, now: Time)
    requires RowInv(d, nextId, now) && IsLatestAccepted(d.rounds, i) && ChipOf(d, d.rounds, at, pollWindow, chip)
    ensures d.rounds[i].decidedAt.Some?
    ensures Claimable(cfg, d, at) <==>
      && chip.rescoring && d.status != Abandoned
      && d.rounds[i].decidedAt.value <= at - cfg.retryMinAge
      && (d.retryNextAt.None? || d.retryNextAt.value <= at)
    ensures chip.poll && pollWindow <= cfg.retryMinAge ==> !Claimable(cfg, d, at)
  {
    assert RoundOk(d.rounds[i]);
    LastDecidedIsLatest(d.rounds, now, i);
    LatestAcceptedIsLatest(d.rounds);
    var j :| IsLatestAccepted(d.rounds, j) && d.rounds[j] == LatestAccepted(d.rounds).value;
    assert i == j;
  }

  /** With nothing accepted the chip is quiet and the sweep has nothing to claim. */
  lemma NothingToScore(cfg: Config, d: Debate, chip: EffortChip, at: Time, pollWindow: Time)
    requires forall i :: 0 <= i < |d.rounds| ==> d.rounds[i].status != Accepted
    requires ChipOf(d, d.rounds, at, pollWindow, chip)
    ensures !chip.rescoring && !chip.poll && !Claimable(cfg, d, at)
  {
    NoneDecided(d.rounds);
  }

  lemma {:induction false} NoneDecided(rs: seq<Round>)
    requires forall i :: 0 <= i < |rs| ==> rs[i].status != Accepted
    ensures LastDecided(rs).None?
  {
    if rs != [] { NoneDecided(rs[..|rs| - 1]); }
  }
}
