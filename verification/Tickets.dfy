/**
 Walks over the ticket tree: widening the dates of ancestors with an early exit, and archiving
 or restoring a subtree. parent_id is arbitrary data here; cycles are not excluded.
 */
module Tickets {
  import opened Prelude

  type Time = int

  datatype Ticket = Ticket(parent: Option<nat>, start: Option<Time>, end: Option<Time>, archivedAt: Option<Time>)

  type Table = map<nat, Ticket>

  // ----- date ranges -----

  function Earlier(a: Option<Time>, b: Option<Time>): Option<Time> {
    if a.None? then b else if b.None? then a else Some(Min(a.value, b.value))
  }

  function Later(a: Option<Time>, b: Option<Time>): Option<Time> {
    if a.None? then b else if b.None? then a else Some(Max(a.value, b.value))
  }

  /** The hull of a ticket's range and [s, e], either end of which may be missing. */
  function Hull(t: Ticket, s: Option<Time>, e: Option<Time>): Ticket {
    t.(start := Earlier(t.start, s), end := Later(t.end, e))
  }

  predicate Contains(t: Ticket, s: Option<Time>, e: Option<Time>) {
    && (s.Some? ==> t.start.Some? && t.start.value <= s.value)
    && (e.Some? ==> t.end.Some? && e.value <= t.end.value)
  }

  lemma HullContains(t: Ticket, s: Option<Time>, e: Option<Time>)
    ensures Contains(Hull(t, s, e), s, e) && Contains(Hull(t, s, e), t.start, t.end)
    ensures Hull(t, s, e) == t <==> Contains(t, s, e)
  {
  }

  /** The hull is the least range around both: whatever contains them contains it. */
  lemma HullIsLeast(t: Ticket, s: Option<Time>, e: Option<Time>, u: Ticket)
    ensures Contains(u, Hull(t, s, e).start, Hull(t, s, e).end) <==> Contains(u, t.start, t.end) && Contains(u, s, e)
  {
  }

  /** The first n tickets on the way up from p. */
  function Path(rows: Table, p: Option<nat>, n: nat): (path: seq<nat>)
    ensures |path| <= n && forall i :: 0 <= i < |path| ==> path[i] in rows
    decreases n
  {
    if n == 0 || p.None? || p.value !in rows then []
    else [p.value] + Path(rows, rows[p.value].parent, n - 1)
  }

  /** The walk: widen each ancestor, at most n of them, and stop at the first that needs nothing. */
  function Expand(rows: Table, s: Option<Time>, e: Option<Time>, p: Option<nat>, n: nat): Table
    decreases n
  {
    if n == 0 || p.None? || p.value !in rows then rows
    else
      var t := rows[p.value];
      if Contains(t, s, e) then rows
      else Expand(rows[p.value := Hull(t, s, e)], s, e, t.parent, n - 1)
  }

  /** The same tickets with the same parents. */
  ghost predicate SameTree(a: Table, b: Table) {
    a.Keys == b.Keys && forall id :: id in a ==> a[id].parent == b[id].parent
  }

  lemma {:induction false} PathFollowsTree(a: Table, b: Table, p: Option<nat>, n: nat)
    requires SameTree(a, b)
    ensures Path(a, p, n) == Path(b, p, n)
    decreases n
  {
    if n > 0 && p.Some? && p.value in a { PathFollowsTree(a, b, a[p.value].parent, n - 1); }
  }

  /** On any data, cyclic or not: nothing changes but dates, and only on the next n ancestors, each
      of which is left alone or takes exactly its hull with the child. */
  lemma {:induction false} ExpandTouchesOnlyAncestors(rows: Table, s: Option<Time>, e: Option<Time>, p: Option<nat>, n: nat)
    ensures var r := Expand(rows, s, e, p, n);
      && SameTree(rows, r)
      && forall id :: id in rows ==>
        r[id] == rows[id] || (id in Path(rows, p, n) && r[id] == Hull(rows[id], s, e))
    decreases n
  {
    if n > 0 && p.Some? && p.value in rows && !Contains(rows[p.value], s, e) {
      var t := rows[p.value];
      var rows' := rows[p.value := Hull(t, s, e)];
      ExpandTouchesOnlyAncestors(rows', s, e, t.parent, n - 1);
      PathFollowsTree(rows, rows', t.parent, n - 1);
      HullContains(t, s, e);
      HullContains(Hull(t, s, e), s, e);
    }
  }

  /** The full walk: every ticket of a path takes its hull. */
  function HullAlong(rows: Table, path: seq<nat>, s: Option<Time>, e: Option<Time>): Table {
    map id | id in rows :: if id in path then Hull(rows[id], s, e) else rows[id]
  }

  ghost predicate Distinct(path: seq<nat>) {
    forall i, j :: 0 <= i < j < |path| ==> path[i] != path[j]
  }

  /** Where the walk stops: the first ticket of the path that already contains the child. */
  function Stop(rows: Table, path: seq<nat>, s: Option<Time>, e: Option<Time>): (k: nat)
    ensures k <= |path|
  {
    if path == [] then 0
    else if path[0] in rows && Contains(rows[path[0]], s, e) then 0
    else 1 + Stop(rows, path[1..], s, e)
  }

  lemma {:induction false} StopIsFirst(rows: Table, path: seq<nat>, s: Option<Time>, e: Option<Time>)
    requires forall i :: 0 <= i < |path| ==> path[i] in rows
    ensures var k := Stop(rows, path, s, e);
      && (forall i :: 0 <= i < k ==> !Contains(rows[path[i]], s, e))
      && (k < |path| ==> Contains(rows[path[k]], s, e))
  {
    if path != [] && !Contains(rows[path[0]], s, e) {
      StopIsFirst(rows, path[1..], s, e);
      assert forall i :: 0 < i < |path| ==> path[1..][i - 1] == path[i];
    }
  }

  lemma {:induction false} StopSeesOnlyPath(a: Table, b: Table, path: seq<nat>, s: Option<Time>, e: Option<Time>)
    requires forall i :: 0 <= i < |path| ==> path[i] in a && path[i] in b && a[path[i]] == b[path[i]]
    ensures Stop(a, path, s, e) == Stop(b, path, s, e)
  {
    if path != [] { StopSeesOnlyPath(a, b, path[1..], s, e); }
  }

  lemma HullCons(rows: Table, p: nat, tail: seq<nat>, s: Option<Time>, e: Option<Time>)
    requires p in rows && p !in tail
    ensures HullAlong(rows[p := Hull(rows[p], s, e)], tail, s, e) == HullAlong(rows, [p] + tail, s, e)
  {
  }

  lemma HullNone(rows: Table, s: Option<Time>, e: Option<Time>)
    ensures HullAlong(rows, [], s, e) == rows
  {
  }

  /** Widening the first ticket of a path, then the prefix of the rest, widens the whole prefix. */
  lemma PrefixGrows(rows: Table, path: seq<nat>, s: Option<Time>, e: Option<Time>)
    requires Distinct(path) && path != [] && forall i :: 0 <= i < |path| ==> path[i] in rows
    requires !Contains(rows[path[0]], s, e)
    ensures var tail, rows' := path[1..], rows[path[0] := Hull(rows[path[0]], s, e)];
      HullAlong(rows', tail[..Stop(rows', tail, s, e)], s, e) == HullAlong(rows, path[..Stop(rows, path, s, e)], s, e)
  {
    var tail, rows' := path[1..], rows[path[0] := Hull(rows[path[0]], s, e)];
    TailIsDistinct(path);
    assert forall i :: 0 <= i < |tail| ==> tail[i] == path[i + 1];
    StopSeesOnlyPath(rows, rows', tail, s, e);
    var k := Stop(rows, tail, s, e);
    HullCons(rows, path[0], tail[..k], s, e);
    assert path[..k + 1] == [path[0]] + tail[..k];
  }

  lemma FirstStep(rows: Table, s: Option<Time>, e: Option<Time>, p: Option<nat>, n: nat)
    requires Path(rows, p, n) != [] && !Contains(rows[Path(rows, p, n)[0]], s, e)
    ensures n > 0 && p.Some? && p.value in rows
    ensures var rows' := rows[p.value := Hull(rows[p.value], s, e)];
      && Path(rows, p, n) == [p.value] + Path(rows, rows[p.value].parent, n - 1)
      && Expand(rows, s, e, p, n) == Expand(rows', s, e, rows[p.value].parent, n - 1)
  {
  }

  /** Without repeats on the path, the walk widens exactly the tickets before its stop. */
  lemma {:induction false} ExpandIsPrefix(rows: Table, s: Option<Time>, e: Option<Time>, p: Option<nat>, n: nat)
    requires Distinct(Path(rows, p, n))
    ensures var path := Path(rows, p, n);
      Expand(rows, s, e, p, n) == HullAlong(rows, path[..Stop(rows, path, s, e)], s, e)
    decreases n
  {
    var path := Path(rows, p, n);
    if path == [] || Contains(rows[path[0]], s, e) {
      assert path[..Stop(rows, path, s, e)] == [];
      HullNone(rows, s, e);
    } else {
      FirstStep(rows, s, e, p, n);
      var up, rows' := rows[p.value].parent, rows[p.value := Hull(rows[p.value], s, e)];
      assert path[1..] == Path(rows, up, n - 1);
      TailIsDistinct(path);
      PathFollowsTree(rows, rows', up, n - 1);
      ExpandIsPrefix(rows', s, e, up, n - 1);
      PrefixGrows(rows, path, s, e);
    }
  }

  lemma TailIsDistinct(path: seq<nat>)
    requires Distinct(path) && path != []
    ensures Distinct(path[1..]) && path[0] !in path[1..]
  {
    forall i | 0 <= i < |path| - 1 ensures path[1..][i] != path[0] {
      assert path[1..][i] == path[i + 1];
    }
  }

  // ----- early exit against the full walk -----

  lemma {:induction false} LongerLooksTheSame(rows: Table, p: Option<nat>, n: nat, m: nat)
    requires |Path(rows, p, n)| < n <= m
    ensures Path(rows, p, m) == Path(rows, p, n)
    decreases n
  {
    if p.Some? && p.value in rows {
      LongerLooksTheSame(rows, rows[p.value].parent, n - 1, m - 1);
    }
  }

  lemma {:induction false} SuffixIsPath(rows: Table, p: Option<nat>, n: nat, i: nat)
    requires |Path(rows, p, n)| < n && i < |Path(rows, p, n)|
    ensures Path(rows, Some(Path(rows, p, n)[i]), n) == Path(rows, p, n)[i..]
    decreases n
  {
    var path := Path(rows, p, n);
    var up := rows[p.value].parent;
    if i > 0 {
      SuffixIsPath(rows, up, n - 1, i - 1);
      assert path[1..][i - 1..] == path[i..];
      LongerLooksTheSame(rows, Some(path[i]), n - 1, n);
    }
  }

  /** A chain that ends has no repeats: a repeated ticket would have two distances to the end. */
  lemma EndingChainIsDistinct(rows: Table, p: Option<nat>, n: nat)
    requires |Path(rows, p, n)| < n
    ensures Distinct(Path(rows, p, n))
  {
    var path := Path(rows, p, n);
    forall i, j | 0 <= i < j < |path| ensures path[i] != path[j] {
      SuffixIsPath(rows, p, n, i);
      SuffixIsPath(rows, p, n, j);
      assert |path[i..]| != |path[j..]|;
    }
  }

  /** Each ticket of the path lies inside the range of the next one up. */
  ghost predicate NestedAlong(rows: Table, path: seq<nat>) {
    forall i :: 0 <= i < |path| - 1 ==> NestedAt(rows, path, i)
  }

  ghost predicate NestedAt(rows: Table, path: seq<nat>, i: nat)
    requires i < |path| - 1
  {
    path[i] in rows && path[i + 1] in rows && Contains(rows[path[i + 1]], rows[path[i]].start, rows[path[i]].end)
  }

  lemma {:induction false} NestedContainsAll(rows: Table, path: seq<nat>, s: Option<Time>, e: Option<Time>, i: nat, j: nat)
    requires NestedAlong(rows, path) && i <= j < |path| && path[i] in rows && path[j] in rows
    requires Contains(rows[path[i]], s, e)
    ensures Contains(rows[path[j]], s, e)
  {
    if i < j {
      assert NestedAt(rows, path, j - 1);
      NestedContainsAll(rows, path, s, e, i, j - 1);
    }
  }

  lemma PrefixIsEnoughIff(rows: Table, path: seq<nat>, k: nat, s: Option<Time>, e: Option<Time>)
    requires Distinct(path) && k <= |path| && forall i :: 0 <= i < |path| ==> path[i] in rows
    ensures HullAlong(rows, path[..k], s, e) == HullAlong(rows, path, s, e) <==>
      forall i :: k <= i < |path| ==> Contains(rows[path[i]], s, e)
  {
    var a, b := HullAlong(rows, path[..k], s, e), HullAlong(rows, path, s, e);
    if a == b {
      forall i | k <= i < |path| ensures Contains(rows[path[i]], s, e) {
        assert path[i] !in path[..k];
        assert a[path[i]] == rows[path[i]] && b[path[i]] == Hull(rows[path[i]], s, e);
        HullContains(rows[path[i]], s, e);
      }
    }
    if forall i :: k <= i < |path| ==> Contains(rows[path[i]], s, e) {
      forall id | id in rows ensures a[id] == b[id] {
        if id in path && id !in path[..k] {
          var i :| 0 <= i < |path| && path[i] == id;
          HullContains(rows[id], s, e);
        }
      }
    }
  }

  lemma {:induction false} ShorterIsPrefix(rows: Table, p: Option<nat>, n: nat, m: nat)
    requires n <= m
    ensures var long := Path(rows, p, m); Path(rows, p, n) == long[..Min(n, |long|)]
    decreases n
  {
    if n > 0 && p.Some? && p.value in rows { ShorterIsPrefix(rows, rows[p.value].parent, n - 1, m - 1); }
  }

  lemma {:induction false} StopInPrefix(rows: Table, path: seq<nat>, n: nat, s: Option<Time>, e: Option<Time>)
    requires n <= |path|
    ensures Stop(rows, path[..n], s, e) == Min(Stop(rows, path, s, e), n)
    decreases n
  {
    if n > 0 {
      assert path[..n][1..] == path[1..][..n - 1];
      StopInPrefix(rows, path[1..], n - 1, s, e);
    }
  }

  /** On any chain that ends, the walk widens all of it exactly when every ancestor beyond its stop,
      and beyond the fifth, contains the child already. */
  lemma EarlyExitIsFullWalkIff(rows: Table, s: Option<Time>, e: Option<Time>, p: Option<nat>, n: nat)
    requires |Path(rows, p, n)| < n && 5 <= n
    ensures var path := Path(rows, p, n);
      Expand(rows, s, e, p, 5) == HullAlong(rows, path, s, e) <==>
        forall i :: Min(Stop(rows, path, s, e), 5) <= i < |path| ==> Contains(rows[path[i]], s, e)
  {
    var path := Path(rows, p, n);
    EndingChainIsDistinct(rows, p, n);
    ShorterIsPrefix(rows, p, 5, n);
    var five := path[..Min(5, |path|)];
    var k := Min(Stop(rows, path, s, e), 5);
    ExpandIsPrefix(rows, s, e, p, 5);
    StopInPrefix(rows, path, |five|, s, e);
    assert five[..k] == path[..k];
    PrefixIsEnoughIff(rows, path, k, s, e);
  }

  lemma HullKeepsNesting(a: Ticket, b: Ticket, s: Option<Time>, e: Option<Time>)
    requires Contains(b, a.start, a.end)
    ensures Contains(Hull(b, s, e), Hull(a, s, e).start, Hull(a, s, e).end)
  {
  }

  lemma HullsAreNested(rows: Table, path: seq<nat>, s: Option<Time>, e: Option<Time>)
    requires NestedAlong(rows, path) && forall i :: 0 <= i < |path| ==> path[i] in rows
    ensures NestedAlong(HullAlong(rows, path, s, e), path)
    ensures forall i :: 0 <= i < |path| ==> Contains(HullAlong(rows, path, s, e)[path[i]], s, e)
  {
    var r := HullAlong(rows, path, s, e);
    forall i | 0 <= i < |path| ensures Contains(r[path[i]], s, e) {
      HullContains(rows[path[i]], s, e);
    }
    forall i | 0 <= i < |path| - 1 ensures NestedAt(r, path, i) {
      assert NestedAt(rows, path, i);
      HullKeepsNesting(rows[path[i]], rows[path[i + 1]], s, e);
    }
  }

  /** If the ancestors are nested and at most five, the early exit does the full walk: every ancestor ends up with the
      hull of its old range and the child's, the whole path is nested again with the child inside,
      and no other ticket changes. */
  lemma EarlyExitRefinesFullWalk(rows: Table, s: Option<Time>, e: Option<Time>, p: Option<nat>)
    requires |Path(rows, p, 6)| <= 5 && NestedAlong(rows, Path(rows, p, 6))
    ensures var path, r := Path(rows, p, 6), Expand(rows, s, e, p, 5);
      && r == HullAlong(rows, path, s, e)
      && NestedAlong(r, path)
      && forall i :: 0 <= i < |path| ==> Contains(r[path[i]], s, e)
  {
    var path := Path(rows, p, 6);
    var k := Stop(rows, path, s, e);
    StopIsFirst(rows, path, s, e);
    forall i | k <= i < |path| ensures Contains(rows[path[i]], s, e) {
      NestedContainsAll(rows, path, s, e, k, i);
    }
    EarlyExitIsFullWalkIff(rows, s, e, p, 6);
    HullsAreNested(rows, path, s, e);
  }

  /** Nesting is needed: a parent that already contains the child hides a grandparent that does not. */
  lemma EarlyExitCanStopTooSoon()
    ensures exists rows: Table, s: Option<Time>, e: Option<Time>, p: Option<nat> ::
      |Path(rows, p, 6)| <= 5 && Expand(rows, s, e, p, 5) != HullAlong(rows, Path(rows, p, 6), s, e)
  {
    var parent := Ticket(Some(1), Some(0), Some(10), None);
    var grand := Ticket(None, Some(5), Some(6), None);
    var rows: Table := map[0 := parent, 1 := grand];
    var s, e, p: Option<nat> := Some(2), Some(3), Some(0);
    assert Path(rows, Some(1), 5) == [1] by { assert Path(rows, None, 4) == []; }
    assert Path(rows, p, 6) == [0, 1];
    assert Expand(rows, s, e, p, 5) == rows;
    assert HullAlong(rows, [0, 1], s, e)[1].start == Some(2);
  }

  // ----- subtrees -----

  /** id is n steps below root. */
  ghost predicate Below(rows: Table, root: nat, id: nat, n: nat)
    decreases n
  {
    id in rows && if n == 0 then id == root else rows[id].parent.Some? && Below(rows, root, rows[id].parent.value, n - 1)
  }

  ghost predicate Descends(rows: Table, root: nat, id: nat) {
    exists n: nat :: Below(rows, root, id, n)
  }

  ghost predicate ClosedDownward(rows: Table, ids: set<nat>) {
    forall id :: id in rows && rows[id].parent.Some? && rows[id].parent.value in ids ==> id in ids
  }

  lemma {:induction false} ClosedHoldsDescendants(rows: Table, root: nat, ids: set<nat>, id: nat, n: nat)
    requires root in ids && ClosedDownward(rows, ids) && Below(rows, root, id, n)
    ensures id in ids
    decreases n
  {
    if n > 0 { ClosedHoldsDescendants(rows, root, ids, rows[id].parent.value, n - 1); }
  }

  lemma ChildDescends(rows: Table, root: nat, id: nat)
    requires id in rows && rows[id].parent.Some? && Descends(rows, root, rows[id].parent.value)
    ensures Descends(rows, root, id)
  {
    var n: nat :| Below(rows, root, rows[id].parent.value, n);
    assert Below(rows, root, id, n + 1);
  }

  /** What a subtree update leaves: the stamp on every descendant of root, and nothing else touched. */
  ghost predicate Stamped(rows: Table, rows': Table, root: nat, stamp: Option<Time>) {
    && rows'.Keys == rows.Keys
    && forall id :: id in rows ==>
      rows'[id] == if Descends(rows, root, id) then rows[id].(archivedAt := stamp) else rows[id]
  }

  class TicketTable {
    var rows: Table

    constructor (initial: Table)
      ensures rows == initial
    {
      rows := initial;
    }

    method ExpandParentDates(childStart: Option<Time>, childEnd: Option<Time>, parentId: Option<nat>)
      modifies this
      ensures rows == Expand(old(rows), childStart, childEnd, parentId, 5)
    {
      if parentId.None? || (childStart.None? && childEnd.None?) { return; }
      var up := parentId;
      var i := 0;
      while i < 5 && up.Some?
        invariant 0 <= i <= 5
        invariant Expand(rows, childStart, childEnd, up, 5 - i) == Expand(old(rows), childStart, childEnd, parentId, 5)
      {
        if up.value !in rows { return; }
        var parent := rows[up.value];
        var changed := false;
        if childStart.Some? {
          if parent.start.None? || childStart.value < parent.start.value {
            parent := parent.(start := childStart);
            changed := true;
          }
        }
        if childEnd.Some? {
          if parent.end.None? || parent.end.value < childEnd.value {
            parent := parent.(end := childEnd);
            changed := true;
          }
        }
        if !changed { return; }
        assert parent == Hull(rows[up.value], childStart, childEnd);
        rows := rows[up.value := parent];
        up := parent.parent;
        i := i + 1;
      }
    }

    /** WITH RECURSIVE ... UNION: each pass joins the new rows with their children and drops those
        already seen, until a pass adds nothing. */
    method Subtree(root: nat) returns (seen: set<nat>)
      ensures forall id :: id in seen <==> Descends(rows, root, id)
    {
      var added: set<nat> := if root in rows then {root} else {};
      seen := added;
      assert root in rows ==> Below(rows, root, root, 0);
      while added != {}
        invariant added <= seen <= rows.Keys && (root in rows ==> root in seen)
        invariant forall id :: id in seen ==> Descends(rows, root, id)
        invariant forall id :: id in rows && rows[id].parent.Some? && rows[id].parent.value in seen - added ==> id in seen
        decreases rows.Keys - seen, added
      {
        var children := set id | id in rows.Keys && rows[id].parent.Some? && rows[id].parent.value in added;
        forall id | id in children ensures Descends(rows, root, id) {
          ChildDescends(rows, root, id);
        }
        var found := children - seen;
        assert found != {} ==> rows.Keys - (seen + found) < rows.Keys - seen;
        seen, added := seen + found, found;
      }
      forall id, n: nat | Below(rows, root, id, n) ensures id in seen {
        RootExists(rows, root, id, n);
        ClosedHoldsDescendants(rows, root, seen, id, n);
      }
    }

    method ArchiveTicket(id: nat, now: Time)
      modifies this
      ensures Stamped(old(rows), rows, id, Some(now))
    {
      var subtree := Subtree(id);
      rows := map t | t in rows.Keys :: if t in subtree then rows[t].(archivedAt := Some(now)) else rows[t];
    }

    method RestoreTicket(id: nat)
      modifies this
      ensures Stamped(old(rows), rows, id, None)
    {
      var subtree := Subtree(id);
      rows := map t | t in rows.Keys :: if t in subtree then rows[t].(archivedAt := None) else rows[t];
    }
  }

  lemma {:induction false} RootExists(rows: Table, root: nat, id: nat, n: nat)
    requires Below(rows, root, id, n)
    ensures root in rows
    decreases n
  {
    if n > 0 { RootExists(rows, root, rows[id].parent.value, n - 1); }
  }

  lemma {:induction false} BelowFollowsTree(a: Table, b: Table, root: nat, id: nat, n: nat)
    requires SameTree(a, b)
    ensures Below(a, root, id, n) <==> Below(b, root, id, n)
    decreases n
  {
    if n > 0 && id in a && a[id].parent.Some? { BelowFollowsTree(a, b, root, a[id].parent.value, n - 1); }
  }

  /** Archiving and then restoring a ticket leaves its whole subtree unarchived and the rest alone;
      that is the table it started from exactly when nothing below the ticket was archived before. */
  lemma RestoreUndoesArchiveIff(rows: Table, archived: Table, restored: Table, root: nat, now: Time)
    requires Stamped(rows, archived, root, Some(now)) && Stamped(archived, restored, root, None)
    ensures Stamped(rows, restored, root, None)
    ensures restored == rows <==> forall id :: Descends(rows, root, id) ==> rows[id].archivedAt.None?
  {
    assert SameTree(rows, archived);
    forall id, n: nat ensures Below(rows, root, id, n) <==> Below(archived, root, id, n) {
      BelowFollowsTree(rows, archived, root, id, n);
    }
    assert forall id :: Descends(rows, root, id) <==> Descends(archived, root, id);
    assert forall id :: Descends(rows, root, id) ==> id in rows;
    if restored == rows {
      forall id | Descends(rows, root, id) ensures rows[id].archivedAt.None? {
        assert restored[id] == rows[id];
      }
    }
  }
}
