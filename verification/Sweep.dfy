/**
 The retry sweep. Any number of replicas claim stale debates, each with its own clock; the
 lease stored in the row spaces the claims of one debate exponentially, and nothing else does.
 */
module Sweep {
  import opened Prelude
  import opened Debates
  import opened Protocol
  import opened Lineage
  import opened Runs
  import opened Scores

  predicate Claims(cfg: Config, w: World, e: Event, k: nat) {
    e.Sweep? && ClaimableBatch(cfg, w.db, e.at, e.claimed) && k in e.claimed
  }

  /** The clock readings at which a run's sweeps claimed debate k. */
  function ClaimTimes(cfg: Config, w: World, es: seq<Event>, k: nat): seq<Time> {
    if es == [] then []
    else
      var ts, e := ClaimTimes(cfg, w, es[..|es| - 1], k), es[|es| - 1];
      if Claims(cfg, Run(cfg, w, es[..|es| - 1]), e, k) then ts + [e.at] else ts
  }

  /** A claim at this time: the lease has run out, and the next one is longer. */
  ghost predicate TakesLease(cfg: Config, d: Debate, d': Debate, at: Time) {
    && d'.retryAttempts == d.retryAttempts + 1
    && d'.retryNextAt == Some(at + Backoff(cfg, d.retryAttempts))
    && (d.retryNextAt.Some? ==> d.retryNextAt.value <= at)
  }

  ghost predicate KeepsLease(d: Debate, d': Debate) {
    d'.retryAttempts == d.retryAttempts && d'.retryNextAt == d.retryNextAt
  }

  lemma LeaseMoves(cfg: Config, w: World, e: Event, k: nat)
    requires k < |w.db.debates|
    ensures var d, d' := w.db.debates[k], RowAfter(cfg, w, e, k);
      if Claims(cfg, w, e, k) then TakesLease(cfg, d, d', e.at) else KeepsLease(d, d')
  {
  }

  /** Consecutive claims are at least the backoff of the earlier one apart. */
  ghost predicate Spaced(cfg: Config, ts: seq<Time>) {
    forall j :: 0 <= j < |ts| - 1 ==> ts[j] + Backoff(cfg, j) <= ts[j + 1]
  }

  /** The row remembers its claims: how many there were, and when the last one lets go. */
  ghost predicate LeaseRemembers(cfg: Config, d: Debate, ts: seq<Time>) {
    && d.retryAttempts == |ts|
    && d.retryNextAt == if ts == [] then None else Some(ts[|ts| - 1] + Backoff(cfg, |ts| - 1))
  }

  lemma ClaimExtends(cfg: Config, d: Debate, d': Debate, ts: seq<Time>, at: Time)
    requires Spaced(cfg, ts) && LeaseRemembers(cfg, d, ts) && TakesLease(cfg, d, d', at)
    ensures Spaced(cfg, ts + [at]) && LeaseRemembers(cfg, d', ts + [at])
  {
  }

  /** Across any number of replicas and any interleaving, claims j and j+1 of a debate are at least
      min(base * 2^min(j, 30), max) apart, j counting from 0. */
  lemma {:induction false} ClaimsAreSpaced(cfg: Config, tickets: map<nat, string>, now: Time, es: seq<Event>, k: nat)
    ensures var w := Genesis(tickets, now);
      var v, ts := Run(cfg, w, es), ClaimTimes(cfg, w, es, k);
      && Spaced(cfg, ts)
      && (if k < |v.db.debates| then LeaseRemembers(cfg, v.db.debates[k], ts) else ts == [])
  {
    if es != [] {
      var w, before, e := Genesis(tickets, now), es[..|es| - 1], es[|es| - 1];
      var v := Run(cfg, w, before);
      ClaimsAreSpaced(cfg, tickets, now, before, k);
      StepOnRows(cfg, v, e);
      if k < |v.db.debates| {
        var ts, d := ClaimTimes(cfg, w, before, k), v.db.debates[k];
        LeaseMoves(cfg, v, e, k);
        if Claims(cfg, v, e, k) { ClaimExtends(cfg, d, RowAfter(cfg, v, e, k), ts, e.at); }
      }
    }
  }

  // ----- how many claims fit in a window -----

  lemma {:induction false} PowersGrow(i: nat, j: nat)
    requires i <= j
    ensures 1 <= Pow2(i) <= Pow2(j)
  {
    if i < j { PowersGrow(i, j - 1); } else if 0 < i { PowersGrow(i - 1, i - 1); }
  }

  lemma MulGrows(x: int, a: int, b: int)
    requires 0 <= x && a <= b
    ensures x * a <= x * b
  {
  }

  lemma BackoffGrows(cfg: Config, i: nat, j: nat)
    requires i <= j && 0 <= cfg.baseBackoff
    ensures Backoff(cfg, i) <= Backoff(cfg, j)
  {
    var m, n := Min(i, 30), Min(j, 30);
    PowersGrow(m, n);
    MulGrows(cfg.baseBackoff, Pow2(m), Pow2(n));
  }

  /** A closed bound: n further claims after claim i take at least n backoffs of claim i. So a window
      of length L holds at most 1 + L / Backoff(i) of them, and 1 + L / max once the cap is reached. */
  lemma {:induction false} ClaimsInWindow(cfg: Config, ts: seq<Time>, i: nat, n: nat)
    requires Spaced(cfg, ts) && 0 <= cfg.baseBackoff && i + n < |ts|
    ensures ts[i] + n * Backoff(cfg, i) <= ts[i + n]
  {
    if n > 0 {
      ClaimsInWindow(cfg, ts, i, n - 1);
      BackoffGrows(cfg, i, i + n - 1);
      assert n * Backoff(cfg, i) == (n - 1) * Backoff(cfg, i) + Backoff(cfg, i);
    }
  }

  /** Before the cap bites, n claims take base * (2^n - 1): only logarithmically many fit. */
  lemma {:induction false} SpacingIsGeometric(cfg: Config, ts: seq<Time>, n: nat)
    requires Spaced(cfg, ts) && n < |ts| && n <= 31
    requires n > 0 ==> cfg.baseBackoff * Pow2(n - 1) <= cfg.maxBackoff
    requires 0 <= cfg.baseBackoff
    ensures ts[0] + cfg.baseBackoff * (Pow2(n) - 1) <= ts[n]
  {
    if n > 0 {
      var a := Pow2(n - 1);
      if n > 1 {
        PowersGrow(n - 2, n - 1);
        MulGrows(cfg.baseBackoff, Pow2(n - 2), a);
      }
      SpacingIsGeometric(cfg, ts, n - 1);
      assert Backoff(cfg, n - 1) == cfg.baseBackoff * a;
      Doubling(cfg.baseBackoff, a);
    }
  }

  lemma Doubling(base: int, a: int)
    ensures base * (a - 1) + base * a == base * (2 * a - 1)
  {
  }

  lemma BackoffIsPositive(cfg: Config, a: nat)
    requires 0 < cfg.baseBackoff && 0 < cfg.maxBackoff
    ensures 0 < Backoff(cfg, a)
  {
    PowersGrow(Min(a, 30), Min(a, 30));
    assert 0 < cfg.baseBackoff * Pow2(Min(a, 30));
  }

  /** The backoff doubles with each earlier claim, from the base, and stays at the cap once it is reached;
      after thirty claims it no longer doubles. */
  lemma BackoffIsExact(cfg: Config, a: nat)
    requires 0 < cfg.baseBackoff && 0 < cfg.maxBackoff
    ensures cfg.baseBackoff <= cfg.maxBackoff ==> Backoff(cfg, 0) == cfg.baseBackoff
    ensures Backoff(cfg, a) <= cfg.maxBackoff
    ensures a < 30 && 2 * Backoff(cfg, a) <= cfg.maxBackoff ==> Backoff(cfg, a + 1) == 2 * Backoff(cfg, a)
    ensures a < 30 && cfg.maxBackoff <= 2 * Backoff(cfg, a) ==> Backoff(cfg, a + 1) == cfg.maxBackoff
    ensures 30 <= a ==> Backoff(cfg, a) == Backoff(cfg, 30)
  {
    if a < 30 {
      var x := cfg.baseBackoff * Pow2(a);
      assert cfg.baseBackoff * Pow2(a + 1) == 2 * x;
      BackoffIsPositive(cfg, a);
    }
  }

  // ----- any window -----

  /** The claims from a to b, both included. */
  function ClaimsBetween(ts: seq<Time>, a: Time, b: Time): nat {
    if ts == [] then 0
    else ClaimsBetween(ts[..|ts| - 1], a, b) + if a <= ts[|ts| - 1] <= b then 1 else 0
  }

  function ClaimsBefore(ts: seq<Time>, a: Time): nat {
    if ts == [] then 0 else ClaimsBefore(ts[..|ts| - 1], a) + if ts[|ts| - 1] < a then 1 else 0
  }

  ghost predicate Ascending(ts: seq<Time>) {
    forall i, j :: 0 <= i < j < |ts| ==> ts[i] < ts[j]
  }

  lemma {:induction false} SpacedAscends(cfg: Config, ts: seq<Time>)
    requires Spaced(cfg, ts) && 0 < cfg.baseBackoff && 0 < cfg.maxBackoff
    ensures Ascending(ts)
  {
    if |ts| > 1 {
      var n := |ts| - 1;
      SpacedAscends(cfg, ts[..n]);
      BackoffIsPositive(cfg, n - 1);
      forall i | 0 <= i < n ensures ts[i] < ts[n] {
        assert ts[..n][i] == ts[i] && ts[..n][n - 1] == ts[n - 1];
      }
      forall i, j | 0 <= i < j < n ensures ts[i] < ts[j] {
        assert ts[..n][i] == ts[i] && ts[..n][j] == ts[j];
      }
    }
  }

  /** The claims of a window stand side by side. */
  lemma {:induction false} WindowIsSlice(ts: seq<Time>, a: Time, b: Time)
    requires Ascending(ts) && a <= b
    ensures var i, n := ClaimsBefore(ts, a), ClaimsBetween(ts, a, b);
      && i + n <= |ts|
      && (forall j :: 0 <= j < |ts| ==> (ts[j] < a <==> j < i))
      && (forall j :: 0 <= j < |ts| ==> (ts[j] <= b <==> j < i + n))
  {
    if ts != [] {
      var m := |ts| - 1;
      var i, n := ClaimsBefore(ts[..m], a), ClaimsBetween(ts[..m], a, b);
      WindowIsSlice(ts[..m], a, b);
      assert forall j :: 0 <= j < m ==> ts[..m][j] == ts[j];
      if m > 0 {
        assert ts[m - 1] < ts[m];
        assert ts[m - 1] < a ==> i == m;
        assert ts[m - 1] <= b ==> i + n == m;
      }
    }
  }

  lemma AtMostQuotient(m: nat, b: int, len: int)
    requires 0 < b && m * b <= len
    ensures m <= len / b
  {
    var q := len / b;
    assert len < b * (q + 1);
    if q < m { MulGrows(b, q + 1, m); }
  }

  /** In any window of a run, starting at a claim or not, a debate is claimed at most once more often
      than the backoff it has reached by then fits into the window. */
  lemma ClaimsInAnyWindow(
    cfg: Config, tickets: map<nat, string>, now: Time, es: seq<Event>, k: nat, from: Time, len: nat)
    requires 0 < cfg.baseBackoff && 0 < cfg.maxBackoff
    ensures var ts := ClaimTimes(cfg, Genesis(tickets, now), es, k);
      var b := Backoff(cfg, ClaimsBefore(ts, from));
      0 < b && ClaimsBetween(ts, from, from + len) <= 1 + len / b
  {
    var ts := ClaimTimes(cfg, Genesis(tickets, now), es, k);
    ClaimsAreSpaced(cfg, tickets, now, es, k);
    WindowHoldsFew(cfg, ts, from, len);
  }

  lemma WindowHoldsFew(cfg: Config, ts: seq<Time>, from: Time, len: nat)
    requires Spaced(cfg, ts) && 0 < cfg.baseBackoff && 0 < cfg.maxBackoff
    ensures var b := Backoff(cfg, ClaimsBefore(ts, from));
      0 < b && ClaimsBetween(ts, from, from + len) <= 1 + len / b
  {
    var i, n := ClaimsBefore(ts, from), ClaimsBetween(ts, from, from + len);
    var b := Backoff(cfg, i);
    BackoffIsPositive(cfg, i);
    SpacedAscends(cfg, ts);
    WindowIsSlice(ts, from, from + len);
    if n > 0 {
      ClaimsInWindow(cfg, ts, i, n - 1);
      assert from <= ts[i] && ts[i + n - 1] <= from + len;
      AtMostQuotient(n - 1, b, len);
    }
  }

  /** A lease ends after its claim, at most maxBackoff later, and after the base backoff at first. */
  lemma LeaseIsBounded(cfg: Config, tickets: map<nat, string>, now: Time, es: seq<Event>, k: nat)
    requires 0 < cfg.baseBackoff <= cfg.maxBackoff
    requires k < |Run(cfg, Genesis(tickets, now), es).db.debates|
    ensures var d, ts := Run(cfg, Genesis(tickets, now), es).db.debates[k], ClaimTimes(cfg, Genesis(tickets, now), es, k);
      && (ts == [] <==> d.retryNextAt.None?)
      && (ts != [] ==> ts[|ts| - 1] < d.retryNextAt.value <= ts[|ts| - 1] + cfg.maxBackoff)
      && (|ts| == 1 ==> d.retryNextAt.value == ts[0] + cfg.baseBackoff)
  {
    var ts := ClaimTimes(cfg, Genesis(tickets, now), es, k);
    ClaimsAreSpaced(cfg, tickets, now, es, k);
    if ts != [] { BackoffIsPositive(cfg, |ts| - 1); }
  }

  /** A lease only ever moves forward. */
  lemma {:induction false} LeaseOnlyMovesForward(cfg: Config, w: World, es: seq<Event>, k: nat)
    requires 0 < cfg.baseBackoff && 0 < cfg.maxBackoff
    requires k < |w.db.debates| && w.db.debates[k].retryNextAt.Some?
    ensures k < |Run(cfg, w, es).db.debates|
    ensures var d' := Run(cfg, w, es).db.debates[k];
      d'.retryNextAt.Some? && w.db.debates[k].retryNextAt.value <= d'.retryNextAt.value
  {
    if es != [] {
      var v, e := Run(cfg, w, es[..|es| - 1]), es[|es| - 1];
      LeaseOnlyMovesForward(cfg, w, es[..|es| - 1], k);
      StepOnRows(cfg, v, e);
      LeaseMoves(cfg, v, e, k);
      BackoffIsPositive(cfg, v.db.debates[k].retryAttempts);
    }
  }

  /** Two sweeps that read the same instant never claim the same debate, whatever happens between. */
  lemma SimultaneousSweepsAreDisjoint(cfg: Config, w: World, at: Time, a: set<nat>, es: seq<Event>, b: set<nat>)
    requires 0 < cfg.baseBackoff && 0 < cfg.maxBackoff
    requires ClaimableBatch(cfg, w.db, at, a)
    requires ClaimableBatch(cfg, Run(cfg, Step(cfg, w, Sweep(at, a)), es).db, at, b)
    ensures a !! b
  {
    var w' := Step(cfg, w, Sweep(at, a));
    forall k | k in a && k in b ensures false {
      LeaseMoves(cfg, w, Sweep(at, a), k);
      StepOnRows(cfg, w, Sweep(at, a));
      BackoffIsPositive(cfg, w.db.debates[k].retryAttempts);
      LeaseOnlyMovesForward(cfg, w', es, k);
    }
  }

  // ----- what a claim hands out -----

  /** The job of a claimed debate: its latest accepted round, and the text that round ships. */
  ghost predicate IsJobOf(d: Debate, k: nat, job: Job) {
    exists i :: IsLatestAccepted(d.rounds, i) && job == Job(k, d.rounds[i].id, ShippedText(d.rounds[i]))
  }

  /** Every claimed debate gets its job, only claimed debates do, and no debate gets two. */
  lemma EveryClaimGetsItsJob(cfg: Config, w: World, at: Time, claimed: set<nat>)
    requires RowsInv(w) && ClaimableBatch(cfg, w.db, at, claimed)
    ensures |claimed| <= cfg.batchSize
    ensures forall k :: k in claimed ==>
      k < |w.db.debates| && exists job :: job in ClaimedJobs(w.db, claimed) && IsJobOf(w.db.debates[k], k, job)
    ensures forall job :: job in ClaimedJobs(w.db, claimed) ==>
      job.debate in claimed && IsJobOf(w.db.debates[job.debate], job.debate, job)
    ensures forall a, b :: a in ClaimedJobs(w.db, claimed) && b in ClaimedJobs(w.db, claimed) && a.debate == b.debate ==>
      a == b
  {
    forall k | k in claimed
      ensures exists job :: job in ClaimedJobs(w.db, claimed) && IsJobOf(w.db.debates[k], k, job)
    {
      var d := w.db.debates[k];
      assert RowInv(d, w.nextId, w.now);
      ClaimableHasLatest(cfg, d, at);
      ShipsLatest(d, w.nextId, w.now, k);
      var r := LatestAccepted(d.rounds).value;
      assert Job(k, r.id, SqlShippedText(r)) in ClaimedJobs(w.db, claimed);
    }
    forall job | job in ClaimedJobs(w.db, claimed)
      ensures job.debate in claimed && IsJobOf(w.db.debates[job.debate], job.debate, job)
    {
      assert RowInv(w.db.debates[job.debate], w.nextId, w.now);
      ShipsLatest(w.db.debates[job.debate], w.nextId, w.now, job.debate);
    }
  }

  lemma ShipsLatest(d: Debate, nextId: nat, now: Time, k: nat)
    requires RowInv(d, nextId, now) && LatestAccepted(d.rounds).Some?
    ensures var r := LatestAccepted(d.rounds).value; IsJobOf(d, k, Job(k, r.id, SqlShippedText(r)))
  {
    LatestAcceptedIsLatest(d.rounds);
    var i :| IsLatestAccepted(d.rounds, i) && d.rounds[i] == LatestAccepted(d.rounds).value;
    ShippedTextsAgree(d.rounds[i]);
  }

  lemma ClaimableHasLatest(cfg: Config, d: Debate, at: Time)
    requires Claimable(cfg, d, at)
    ensures LatestAccepted(d.rounds).Some?
  {
    DecidedHasLatest(d.rounds);
  }

  lemma {:induction false} DecidedHasLatest(rs: seq<Round>)
    ensures LastDecided(rs).Some? ==> LatestAccepted(rs).Some?
  {
    if rs != [] { DecidedHasLatest(rs[..|rs| - 1]); }
  }

  // ----- a score that lands ends the retries -----

  lemma LatestIsHighest(rs: seq<Round>, nextId: nat, i: nat)
    requires Numbered(rs) && IdsGrow(rs, nextId) && i < |rs| && rs[i].status == Accepted
    ensures LatestAccepted(rs).Some? && rs[i].number <= LatestAccepted(rs).value.number
  {
    LatestAcceptedIsLatest(rs);
  }

  /** Scoring the latest accepted round takes the debate out of the sweep's reach. */
  lemma ScoredLatestIsNotClaimable(cfg: Config, d: Debate, res: ScoreResult, nextId: nat, now: Time, at: Time)
    requires RowInv(d, nextId, now) && ScoreNamesLiveRound(d) && LatestAccepted(d.rounds).Some? && d.status != Abandoned
    ensures var r := ScoreRow(d, LatestAccepted(d.rounds).value.id, res, now);
      r.Success? && r.value.lastScored == Some(LatestAccepted(d.rounds).value.id) && !Claimable(cfg, r.value, at)
  {
    var latest := LatestAccepted(d.rounds).value;
    var i :| 0 <= i < |d.rounds| && d.rounds[i] == latest;
    IdIsUnique(d.rounds, nextId, i);
    ScoreTakesLatest(d, i, nextId, now);
    var r := ScoreRow(d, latest.id, res, now);
    ScoreKeeps(d, latest.id, res, nextId, now);
    LatestCoresAgree(d.rounds, r.value.rounds);
  }

  lemma ScoreTakesLatest(d: Debate, i: nat, nextId: nat, now: Time)
    requires RowInv(d, nextId, now) && ScoreNamesLiveRound(d) && d.status != Abandoned
    requires i < |d.rounds| && LatestAccepted(d.rounds) == Some(d.rounds[i])
    ensures TakesScore(d, d.rounds[i].id) || d.lastScored == Some(d.rounds[i].id)
  {
    if d.lastScored.Some? {
      var j :| 0 <= j < |d.rounds| && d.rounds[j].id == d.lastScored.value && d.rounds[j].status == Accepted;
      LatestIsHighest(d.rounds, nextId, j);
      FresherIsHigher(d.rounds, nextId, j, i);
    }
  }

  lemma {:induction false} LatestCoresAgree(a: seq<Round>, b: seq<Round>)
    requires SameCores(a, b)
    ensures var x, y := LatestAccepted(a), LatestAccepted(b);
      && (x.None? <==> y.None?)
      && (x.Some? ==>
        Core(x.value) == Core(y.value) && x.value.id == y.value.id && x.value.number == y.value.number)
  {
    if a != [] {
      var n := |a| - 1;
      LatestCoresAgree(a[..n], b[..n]);
      CoreParts(a[n], b[n]);
      assert Core(a[n]).number == a[n].number && Core(b[n]).number == b[n].number;
    }
  }
}
