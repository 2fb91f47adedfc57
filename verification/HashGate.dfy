/**
 The gate that bounds concurrent Argon2id work: a buffered channel holding one token for every
 slot that is out. Callers, cancellations, releases and saturation interleave freely; resizing
 swaps in a new channel while older slots still drain into the channel they came from.
 */
module HashGate {
  import opened Prelude

  /** A buffered channel of empty values: only the number of values in it matters. */
  datatype Channel = Channel(capacity: nat, tokens: nat)

  datatype Phase = Filling | Holding | Releasing

  /** Whoever sent tokens into a channel and has not received all of them back. An acquired slot
      holds one token. A saturation fills the channel first, and its one release receives them all. */
  datatype Holder = Holder(channel: nat, held: nat, phase: Phase)

  /** `current` is hashSlots; `waiting` are the callers blocked in select, by channel. */
  datatype State = State(channels: seq<Channel>, current: Option<nat>, waiting: multiset<nat>, holders: seq<Holder>)

  datatype Event =
    | SetHashConcurrency(n: int)
    | Arrive(cancelled: bool)
    | Send(channel: nat)
    | Expire(channel: nat)
    | Saturate
    | Fill(holder: nat)
    | Release(holder: nat)
    | Receive(holder: nat)

  const DEFAULT_HASH_CONCURRENCY: nat := 2

  const UNSIZED := State([], None, multiset{}, [])

  function NewChannel(s: State, capacity: nat): State {
    s.(channels := s.channels + [Channel(capacity, 0)], current := Some(|s.channels|))
  }

  /** hashGate: build the default channel when none was configured. */
  function WithGate(s: State): (s': State)
    ensures s'.current.Some?
  {
    if s.current.Some? then s else NewChannel(s, DEFAULT_HASH_CONCURRENCY)
  }

  predicate HasRoom(s: State, c: nat) {
    c < |s.channels| && s.channels[c].tokens < s.channels[c].capacity
  }

  function PutToken(s: State, c: nat): State
    requires c < |s.channels|
  {
    s.(channels := s.channels[c := s.channels[c].(tokens := s.channels[c].tokens + 1)])
  }

  function TakeToken(s: State, c: nat): State
    requires c < |s.channels| && s.channels[c].tokens > 0
  {
    s.(channels := s.channels[c := s.channels[c].(tokens := s.channels[c].tokens - 1)])
  }

  function WithHolder(s: State, h: nat, held: nat, phase: Phase): State
    requires h < |s.holders|
  {
    s.(holders := s.holders[h := s.holders[h].(held := held, phase := phase)])
  }

  /** Whether a receive can happen: the release has begun and the channel is not empty. */
  predicate CanReceive(s: State, h: nat) {
    && h < |s.holders| && s.holders[h].phase == Releasing && s.holders[h].held > 0
    && s.holders[h].channel < |s.channels| && s.channels[s.holders[h].channel].tokens > 0
  }

  /** An event whose actor is blocked, or that has no actor, changes nothing. */
  function Step(s: State, e: Event): State {
    match e
    case SetHashConcurrency(n) => if n <= 0 then s else NewChannel(s, n)
    case Arrive(cancelled) =>
      if cancelled then s
      else
        var s' := WithGate(s);
        s'.(waiting := s'.waiting + multiset{s'.current.value})
    case Send(c) =>
      if c in s.waiting && HasRoom(s, c)
      then PutToken(s, c).(waiting := s.waiting - multiset{c}, holders := s.holders + [Holder(c, 1, Holding)])
      else s
    case Expire(c) => s.(waiting := s.waiting - multiset{c})
    case Saturate =>
      var s' := WithGate(s);
      s'.(holders := s'.holders + [Holder(s'.current.value, 0, Filling)])
    case Fill(h) =>
      if h < |s.holders| && s.holders[h].phase == Filling then
        if HasRoom(s, s.holders[h].channel)
        then WithHolder(PutToken(s, s.holders[h].channel), h, s.holders[h].held + 1, Filling)
        else WithHolder(s, h, s.holders[h].held, Holding)
      else s
    case Release(h) =>
      if h < |s.holders| && s.holders[h].phase == Holding then WithHolder(s, h, s.holders[h].held, Releasing) else s
    case Receive(h) =>
      if CanReceive(s, h)
      then WithHolder(TakeToken(s, s.holders[h].channel), h, s.holders[h].held - 1, Releasing)
      else s
  }

  function Run(s: State, es: seq<Event>): State {
    if es == [] then s else Step(Run(s, es[..|es| - 1]), es[|es| - 1])
  }

  // ----- tokens and holders -----

  function On(h: Holder, c: nat): nat {
    if h.channel == c then h.held else 0
  }

  /** The tokens that holders still have to give back to a channel. */
  function HeldOn(hs: seq<Holder>, c: nat): nat {
    if hs == [] then 0 else HeldOn(hs[..|hs| - 1], c) + On(hs[|hs| - 1], c)
  }

  lemma {:induction false} HeldAfterUpdate(hs: seq<Holder>, i: nat, h: Holder, c: nat)
    requires i < |hs|
    ensures HeldOn(hs[i := h], c) == HeldOn(hs, c) - On(hs[i], c) + On(h, c)
  {
    var n := |hs| - 1;
    if i == n {
      assert hs[i := h][..n] == hs[..n];
    } else {
      HeldAfterUpdate(hs[..n], i, h, c);
      assert hs[i := h][..n] == hs[..n][i := h];
    }
  }

  lemma HeldAfterAppend(hs: seq<Holder>, h: Holder, c: nat)
    ensures HeldOn(hs + [h], c) == HeldOn(hs, c) + On(h, c)
  {
  }

  lemma {:induction false} HeldAtLeast(hs: seq<Holder>, i: nat)
    requires i < |hs|
    ensures hs[i].held <= HeldOn(hs, hs[i].channel)
  {
    if i < |hs| - 1 { HeldAtLeast(hs[..|hs| - 1], i); }
  }

  lemma {:induction false} NothingHeldElsewhere(hs: seq<Holder>, c: nat)
    requires forall i :: 0 <= i < |hs| ==> hs[i].channel < c
    ensures HeldOn(hs, c) == 0
  {
    if hs != [] { NothingHeldElsewhere(hs[..|hs| - 1], c); }
  }

  /** In every channel: as many tokens as its holders have not given back, and no more than fit. */
  ghost predicate Balanced(s: State) {
    && (forall c :: 0 <= c < |s.channels| ==>
      HeldOn(s.holders, c) == s.channels[c].tokens <= s.channels[c].capacity && s.channels[c].capacity > 0)
    && (forall i :: 0 <= i < |s.holders| ==> s.holders[i].channel < |s.channels|)
    && (s.current.Some? ==> s.current.value < |s.channels|)
    && (s.current.None? ==> s.channels == [])
    && (forall c :: c in s.waiting ==> c < |s.channels|)
  }

  lemma NewChannelBalanced(s: State, n: nat)
    requires Balanced(s) && n > 0
    ensures Balanced(NewChannel(s, n))
  {
    NothingHeldElsewhere(s.holders, |s.channels|);
  }

  lemma NewHolderBalanced(s: State, s': State, h: Holder, c: nat)
    requires Balanced(s) && c < |s.channels| && h.channel == c
    requires s'.holders == s.holders + [h] && s'.current == s.current && s'.waiting <= s.waiting
    requires s.channels[c].tokens + h.held <= s.channels[c].capacity
    requires s'.channels == s.channels[c := Channel(s.channels[c].capacity, s.channels[c].tokens + h.held)]
    ensures Balanced(s')
  {
    forall d ensures HeldOn(s'.holders, d) == HeldOn(s.holders, d) + On(h, d) {
      HeldAfterAppend(s.holders, h, d);
    }
  }

  /** A holder and its channel gain or lose the same number of tokens. */
  lemma MoveBalanced(s: State, s': State, i: nat, h: Holder, tokens: nat)
    requires Balanced(s) && i < |s.holders| && h.channel == s.holders[i].channel
    requires var c := h.channel;
      && tokens <= s.channels[c].capacity && tokens - s.channels[c].tokens == h.held - s.holders[i].held
      && s'.channels == s.channels[c := Channel(s.channels[c].capacity, tokens)]
    requires s'.holders == s.holders[i := h] && s'.current == s.current && s'.waiting == s.waiting
    ensures Balanced(s')
  {
    forall d ensures HeldOn(s'.holders, d) == HeldOn(s.holders, d) - On(s.holders[i], d) + On(h, d) {
      HeldAfterUpdate(s.holders, i, h, d);
    }
  }

  lemma GateBalanced(s: State)
    requires Balanced(s)
    ensures Balanced(WithGate(s))
  {
  }

  lemma ArriveBalanced(s: State, cancelled: bool)
    requires Balanced(s)
    ensures Balanced(Step(s, Arrive(cancelled)))
  {
  }

  lemma SaturateBalanced(s: State)
    requires Balanced(s)
    ensures Balanced(Step(s, Saturate))
  {
    GateBalanced(s);
    var c := WithGate(s).current.value;
    NewHolderBalanced(WithGate(s), Step(s, Saturate), Holder(c, 0, Filling), c);
  }

  lemma SendBalanced(s: State, c: nat)
    requires Balanced(s)
    ensures Balanced(Step(s, Send(c)))
  {
    if c in s.waiting && HasRoom(s, c) {
      NewHolderBalanced(s, Step(s, Send(c)), Holder(c, 1, Holding), c);
    }
  }

  lemma FillBalanced(s: State, h: nat)
    requires Balanced(s)
    ensures Balanced(Step(s, Fill(h)))
  {
    if h < |s.holders| && s.holders[h].phase == Filling {
      var k, c := s.holders[h], s.holders[h].channel;
      if HasRoom(s, c) {
        MoveBalanced(s, Step(s, Fill(h)), h, k.(held := k.held + 1), s.channels[c].tokens + 1);
      } else {
        MoveBalanced(s, Step(s, Fill(h)), h, k.(phase := Holding), s.channels[c].tokens);
      }
    }
  }

  lemma ReleaseBalanced(s: State, h: nat)
    requires Balanced(s)
    ensures Balanced(Step(s, Release(h)))
  {
    if h < |s.holders| && s.holders[h].phase == Holding {
      var k := s.holders[h];
      MoveBalanced(s, Step(s, Release(h)), h, k.(phase := Releasing), s.channels[k.channel].tokens);
    }
  }

  lemma ReceiveBalanced(s: State, h: nat)
    requires Balanced(s)
    ensures Balanced(Step(s, Receive(h)))
  {
    if CanReceive(s, h) {
      var k := s.holders[h];
      MoveBalanced(s, Step(s, Receive(h)), h, k.(held := k.held - 1), s.channels[k.channel].tokens - 1);
    }
  }

  lemma StepBalanced(s: State, e: Event)
    requires Balanced(s)
    ensures Balanced(Step(s, e))
  {
    match e
    case SetHashConcurrency(n) => if n > 0 { NewChannelBalanced(s, n); }
    case Arrive(cancelled) => ArriveBalanced(s, cancelled);
    case Send(c) => SendBalanced(s, c);
    case Expire(c) => ExpireBalanced(s, c);
    case Saturate => SaturateBalanced(s);
    case Fill(h) => FillBalanced(s, h);
    case Release(h) => ReleaseBalanced(s, h);
    case Receive(h) => ReceiveBalanced(s, h);
  }

  lemma ExpireBalanced(s: State, c: nat)
    requires Balanced(s)
    ensures Balanced(Step(s, Expire(c)))
  {
  }

  /** In every interleaving each channel holds exactly the tokens its callers still hold. */
  lemma {:induction false} RunBalanced(s: State, es: seq<Event>)
    requires Balanced(s)
    ensures Balanced(Run(s, es))
  {
    if es != [] {
      RunBalanced(s, es[..|es| - 1]);
      StepBalanced(Run(s, es[..|es| - 1]), es[|es| - 1]);
    }
  }

  /** A release never blocks: the token it wants back is in the channel. */
  lemma ReleaseNeverBlocks(es: seq<Event>, h: nat)
    ensures var s := Run(UNSIZED, es);
      CanReceive(s, h) <==> h < |s.holders| && s.holders[h].phase == Releasing && s.holders[h].held > 0
  {
    var s := Run(UNSIZED, es);
    RunBalanced(UNSIZED, es);
    if h < |s.holders| { HeldAtLeast(s.holders, h); }
  }

  /** Nothing leaks: once every slot out of a channel has been given back, all of its capacity is free. */
  lemma GivenBackIsFree(es: seq<Event>, c: nat)
    requires var s := Run(UNSIZED, es);
      c < |s.channels| && forall i :: 0 <= i < |s.holders| && s.holders[i].channel == c ==> s.holders[i].held == 0
    ensures Run(UNSIZED, es).channels[c].tokens == 0 && HasRoom(Run(UNSIZED, es), c)
  {
    RunBalanced(UNSIZED, es);
    NothingHeldOn(Run(UNSIZED, es).holders, c);
  }

  lemma {:induction false} NothingHeldOn(hs: seq<Holder>, c: nat)
    requires forall i :: 0 <= i < |hs| && hs[i].channel == c ==> hs[i].held == 0
    ensures HeldOn(hs, c) == 0
  {
    if hs != [] { NothingHeldOn(hs[..|hs| - 1], c); }
  }

  // ----- the bound -----

  /** Slots out anywhere: how many Argon2id computations may be running. */
  function TotalHeld(hs: seq<Holder>): nat {
    if hs == [] then 0 else TotalHeld(hs[..|hs| - 1]) + hs[|hs| - 1].held
  }

  ghost predicate NeverResized(es: seq<Event>) {
    forall i :: 0 <= i < |es| && es[i].SetHashConcurrency? ==> es[i].n <= 0
  }

  lemma {:induction false} OneChannelHoldsAll(hs: seq<Holder>)
    requires forall i :: 0 <= i < |hs| ==> hs[i].channel == 0
    ensures TotalHeld(hs) == HeldOn(hs, 0)
  {
    if hs != [] { OneChannelHoldsAll(hs[..|hs| - 1]); }
  }

  /** At most one channel was ever made, of the given size. */
  ghost predicate OneChannel(s: State, size: nat) {
    && |s.channels| <= 1
    && (s.current.None? <==> s.channels == [])
    && (s.channels == [] ==> size == DEFAULT_HASH_CONCURRENCY)
    && (s.channels != [] ==> s.channels[0].capacity == size)
  }

  lemma StepKeepsOneChannel(s: State, size: nat, e: Event)
    requires OneChannel(s, size) && (e.SetHashConcurrency? ==> e.n <= 0)
    ensures OneChannel(Step(s, e), size)
  {
  }

  lemma {:induction false} RunKeepsOneChannel(s: State, size: nat, es: seq<Event>)
    requires NeverResized(es) && OneChannel(s, size)
    ensures OneChannel(Run(s, es), size)
  {
    if es != [] {
      RunKeepsOneChannel(s, size, es[..|es| - 1]);
      StepKeepsOneChannel(Run(s, es[..|es| - 1]), size, es[|es| - 1]);
    }
  }

  /** Sized once before serving, the gate never has more slots out than its size; a size that is not
      positive leaves the default bound in place. */
  lemma NeverMoreThanTheSize(n: int, es: seq<Event>)
    requires NeverResized(es)
    ensures var s := Run(Step(UNSIZED, SetHashConcurrency(n)), es);
      TotalHeld(s.holders) <= if n > 0 then n else DEFAULT_HASH_CONCURRENCY
  {
    var start := Step(UNSIZED, SetHashConcurrency(n));
    var s := Run(start, es);
    StepBalanced(UNSIZED, SetHashConcurrency(n));
    RunBalanced(start, es);
    RunKeepsOneChannel(start, if n > 0 then n else DEFAULT_HASH_CONCURRENCY, es);
    OneChannelHoldsAll(s.holders);
    if s.channels == [] { assert s.holders == []; }
  }

  lemma RunThen(s: State, es: seq<Event>, e: Event)
    ensures Run(s, es + [e]) == Step(Run(s, es), e)
  {
  }

  // ----- when a resize keeps the bound -----

  /** Nobody waits for the gate, holds a token of it or is filling it. */
  ghost predicate Idle(s: State) {
    && s.waiting == multiset{}
    && forall i :: 0 <= i < |s.holders| ==> s.holders[i].held == 0 && s.holders[i].phase != Filling
  }

  /** Nothing but channel c is in use or can be again. */
  ghost predicate OnlyUses(s: State, c: nat, size: nat) {
    && s.current == Some(c) && c < |s.channels| && s.channels[c].capacity == size
    && (forall d :: d in s.waiting ==> d == c)
    && forall i :: 0 <= i < |s.holders| ==>
      s.holders[i].channel == c || (s.holders[i].held == 0 && s.holders[i].phase != Filling)
  }

  lemma StepKeepsOnlyUses(s: State, c: nat, size: nat, e: Event)
    requires OnlyUses(s, c, size) && (e.SetHashConcurrency? ==> e.n <= 0)
    ensures OnlyUses(Step(s, e), c, size)
  {
    if e.Fill? || e.Release? || e.Receive? {
      HolderKeepsOnlyUses(s, c, size, e);
    }
  }

  lemma HolderKeepsOnlyUses(s: State, c: nat, size: nat, e: Event)
    requires OnlyUses(s, c, size) && (e.Fill? || e.Release? || e.Receive?)
    ensures OnlyUses(Step(s, e), c, size)
  {
    var s' := Step(s, e);
    assert s'.waiting == s.waiting && |s'.channels| == |s.channels| && s'.channels[c].capacity == s.channels[c].capacity;
  }

  lemma {:induction false} RunKeepsOnlyUses(s: State, c: nat, size: nat, es: seq<Event>)
    requires OnlyUses(s, c, size) && NeverResized(es)
    ensures OnlyUses(Run(s, es), c, size)
  {
    if es != [] {
      RunKeepsOnlyUses(s, c, size, es[..|es| - 1]);
      StepKeepsOnlyUses(Run(s, es[..|es| - 1]), c, size, es[|es| - 1]);
    }
  }

  lemma {:induction false} OnlyUsedHolds(hs: seq<Holder>, c: nat)
    requires forall i :: 0 <= i < |hs| ==> hs[i].channel == c || hs[i].held == 0
    ensures TotalHeld(hs) == HeldOn(hs, c)
  {
    if hs != [] { OnlyUsedHolds(hs[..|hs| - 1], c); }
  }

  lemma IdleResizeIsSafe(s: State, n: nat, es: seq<Event>)
    requires Balanced(s) && Idle(s) && n > 0 && NeverResized(es)
    ensures TotalHeld(Run(NewChannel(s, n), es).holders) <= n
  {
    var start := NewChannel(s, n);
    NewChannelBalanced(s, n);
    RunBalanced(start, es);
    RunKeepsOnlyUses(start, |s.channels|, n, es);
    OnlyUsedHolds(Run(start, es).holders, |s.channels|);
  }

  function Fills(h: nat, n: nat): seq<Event> {
    if n == 0 then [Saturate] else Fills(h, n - 1) + [Fill(h)]
  }

  lemma {:induction false} FillsNeverResize(h: nat, n: nat)
    ensures NeverResized(Fills(h, n))
  {
    if n > 0 { FillsNeverResize(h, n - 1); }
  }

  /** A new channel of size n, with k tokens in it from the holder that is filling it. */
  function PartlyFilled(s: State, n: nat, k: nat): State {
    State(s.channels + [Channel(n, k)], Some(|s.channels|), s.waiting, s.holders + [Holder(|s.channels|, k, Filling)])
  }

  lemma FillsOneMore(s: State, n: nat, k: nat)
    requires 0 < k <= n
    ensures Step(PartlyFilled(s, n, k - 1), Fill(|s.holders|)) == PartlyFilled(s, n, k)
  {
    var c, h := |s.channels|, |s.holders|;
    assert (s.channels + [Channel(n, k - 1)])[c := Channel(n, k)] == s.channels + [Channel(n, k)];
    assert (s.holders + [Holder(c, k - 1, Filling)])[h := Holder(c, k, Filling)] == s.holders + [Holder(c, k, Filling)];
  }

  lemma SaturateFresh(s: State, n: nat)
    ensures Run(NewChannel(s, n), Fills(|s.holders|, 0)) == PartlyFilled(s, n, 0)
  {
    RunThen(NewChannel(s, n), [], Saturate);
    assert [] + [Saturate] == Fills(|s.holders|, 0);
  }

  lemma {:induction false} SaturatesFresh(s: State, n: nat, k: nat)
    requires k <= n
    ensures Run(NewChannel(s, n), Fills(|s.holders|, k)) == PartlyFilled(s, n, k)
  {
    if k == 0 {
      SaturateFresh(s, n);
    } else {
      SaturatesFresh(s, n, k - 1);
      RunThen(NewChannel(s, n), Fills(|s.holders|, k - 1), Fill(|s.holders|));
      FillsOneMore(s, n, k);
    }
  }

  /** A run that breaks the bound of a resize made in s. */
  ghost predicate Exceeds(s: State, n: nat, es: seq<Event>) {
    NeverResized(es) && TotalHeld(Run(NewChannel(s, n), es).holders) > n
  }

  /** A token still out sits in an old channel, and the new one can be filled beside it. */
  lemma HeldResizeExceeds(s: State, n: nat)
    requires TotalHeld(s.holders) > 0
    ensures exists es :: Exceeds(s, n, es)
  {
    var es := Fills(|s.holders|, n);
    FillsNeverResize(|s.holders|, n);
    SaturatesFresh(s, n, n);
    assert PartlyFilled(s, n, n).holders[..|s.holders|] == s.holders;
    assert Exceeds(s, n, es);
  }

  lemma {:induction false} RunFrom(s: State, e: Event, es: seq<Event>)
    ensures Run(s, [e] + es) == Run(Step(s, e), es)
  {
    if es == [] {
      assert [e] + es == [] + [e];
      RunThen(s, [], e);
    } else {
      var n := |es| - 1;
      RunFrom(s, e, es[..n]);
      assert ([e] + es)[..n + 1] == [e] + es[..n];
    }
  }

  /** What can still take a token of an old channel does so just as well after the resize. */
  lemma LateTokenExceeds(s: State, n: nat, e: Event)
    requires (e.Send? && e.channel < |s.channels|) ||
             (e.Fill? && e.holder < |s.holders| && s.holders[e.holder].channel < |s.channels|)
    requires TotalHeld(Step(s, e).holders) > 0
    ensures exists es :: Exceeds(s, n, es)
  {
    HeldResizeExceeds(Step(s, e), n);
    var es :| Exceeds(Step(s, e), n, es);
    TakesTokenAnyway(s, n, e);
    RunFrom(NewChannel(s, n), e, es);
    assert Exceeds(s, n, [e] + es);
  }

  lemma TakesTokenAnyway(s: State, n: nat, e: Event)
    requires (e.Send? && e.channel < |s.channels|) ||
             (e.Fill? && e.holder < |s.holders| && s.holders[e.holder].channel < |s.channels|)
    ensures Step(NewChannel(s, n), e) == NewChannel(Step(s, e), n)
  {
    var c := if e.Send? then e.channel else s.holders[e.holder].channel;
    var full := s.channels[c].(tokens := s.channels[c].tokens + 1);
    assert (s.channels + [Channel(n, 0)])[c := full] == s.channels[c := full] + [Channel(n, 0)];
  }

  lemma {:induction false} SomethingHeld(hs: seq<Holder>, i: nat)
    requires i < |hs| && hs[i].held > 0
    ensures TotalHeld(hs) > 0
  {
    if i < |hs| - 1 { SomethingHeld(hs[..|hs| - 1], i); }
  }

  lemma BusyResizeExceeds(s: State, n: nat)
    requires Balanced(s) && !Idle(s)
    ensures exists es :: Exceeds(s, n, es)
  {
    if i :| 0 <= i < |s.holders| && s.holders[i].held > 0 {
      SomethingHeld(s.holders, i);
      HeldResizeExceeds(s, n);
    } else if i :| 0 <= i < |s.holders| && s.holders[i].phase == Filling {
      NothingHeldOn(s.holders, s.holders[i].channel);
      SomethingHeld(Step(s, Fill(i)).holders, i);
      LateTokenExceeds(s, n, Fill(i));
    } else {
      var c :| c in s.waiting;
      NothingHeldOn(s.holders, c);
      SomethingHeld(Step(s, Send(c)).holders, |s.holders|);
      LateTokenExceeds(s, n, Send(c));
    }
  }

  /** A resize keeps its bound, whatever runs afterwards, exactly when the gate is idle at that moment:
      nobody waits for it, nobody holds a slot and no saturation is filling it. */
  lemma ResizeIsSafeIffIdle(s: State, n: nat)
    requires Balanced(s) && n > 0
    ensures (forall es :: NeverResized(es) ==> TotalHeld(Run(Step(s, SetHashConcurrency(n)), es).holders) <= n) <==> Idle(s)
  {
    if Idle(s) {
      forall es | NeverResized(es) ensures TotalHeld(Run(Step(s, SetHashConcurrency(n)), es).holders) <= n {
        IdleResizeIsSafe(s, n, es);
      }
    } else {
      BusyResizeExceeds(s, n);
      var es :| Exceeds(s, n, es);
      assert NeverResized(es);
    }
  }

  lemma AcquireAlone(s: State)
    requires s.current.Some? && s.waiting == multiset{} && HasRoom(s, s.current.value)
    ensures var c := s.current.value;
      Step(Step(s, Arrive(false)), Send(c)) == PutToken(s, c).(holders := s.holders + [Holder(c, 1, Holding)])
  {
    var c := s.current.value;
    assert multiset{} + multiset{c} - multiset{c} == multiset{};
  }

  lemma AcquireIn(s: State, es: seq<Event>)
    requires var t := Run(s, es);
      && t.current.Some? && t.current.value < |t.channels| && t.waiting == multiset{} && HasRoom(t, t.current.value)
    ensures var t := Run(s, es); var c := t.current.value;
      Run(s, es + [Arrive(false)] + [Send(c)]) ==
        PutToken(t, c).(holders := t.holders + [Holder(c, 1, Holding)])
  {
    var c := Run(s, es).current.value;
    RunThen(s, es, Arrive(false));
    RunThen(s, es + [Arrive(false)], Send(c));
    AcquireAlone(Run(s, es));
  }

  /** Resizing while a slot is out does exceed the new size: the old slot is in the old channel. */
  lemma ResizingWhileServingExceedsTheSize()
    ensures exists es :: var s := Run(UNSIZED, es);
      s.current.Some? && s.current.value < |s.channels| && s.channels[s.current.value].capacity < TotalHeld(s.holders)
  {
    var sized := [] + [SetHashConcurrency(1)];
    RunThen(UNSIZED, [], SetHashConcurrency(1));
    AcquireIn(UNSIZED, sized);
    var serving := sized + [Arrive(false)] + [Send(0)];
    RunThen(UNSIZED, serving, SetHashConcurrency(1));
    var resized := serving + [SetHashConcurrency(1)];
    AcquireIn(UNSIZED, resized);
    var s := Run(UNSIZED, resized + [Arrive(false)] + [Send(1)]);
    assert s.channels[1].capacity == 1 && s.current == Some(1);
    assert s.holders == [Holder(0, 1, Holding)] + [Holder(1, 1, Holding)];
    assert s.holders[..1] == [Holder(0, 1, Holding)] && s.holders[..1][..0] == [];
    assert TotalHeld(s.holders[..1]) == 1;
  }

  // ----- waiting -----

  function Arrived(es: seq<Event>): nat {
    if es == [] then 0 else Arrived(es[..|es| - 1]) + if es[|es| - 1] == Arrive(false) then 1 else 0
  }

  /** How many callers a run answers: with a slot, or busy when their wait is over. */
  function Answered(s: State, es: seq<Event>): nat {
    if es == [] then 0
    else
      var before, e := es[..|es| - 1], es[|es| - 1];
      var v := Run(s, before);
      Answered(s, before) +
      if (e.Send? && e.channel in v.waiting && HasRoom(v, e.channel)) || (e.Expire? && e.channel in v.waiting) then 1
      else 0
  }

  lemma StepAnswers(s: State, e: Event)
    ensures var s' := Step(s, e);
      |s'.waiting| == |s.waiting| + (if e == Arrive(false) then 1 else 0)
        - if (e.Send? && e.channel in s.waiting && HasRoom(s, e.channel)) || (e.Expire? && e.channel in s.waiting) then 1
          else 0
  {
    if (e.Send? || e.Expire?) && e.channel in s.waiting {
      assert s.waiting == s.waiting - multiset{e.channel} + multiset{e.channel};
    }
  }

  /** Every caller that was not cancelled on arrival waits until it gets a slot or its wait is over, and
      no longer: nobody is answered twice or stays in the queue. */
  lemma {:induction false} CallersAreAccountedFor(es: seq<Event>)
    ensures Arrived(es) == |Run(UNSIZED, es).waiting| + Answered(UNSIZED, es)
  {
    if es != [] {
      CallersAreAccountedFor(es[..|es| - 1]);
      StepAnswers(Run(UNSIZED, es[..|es| - 1]), es[|es| - 1]);
    }
  }

  // ----- each release, once -----

  /** How many tokens a holder takes back during a run. */
  function Received(s: State, es: seq<Event>, h: nat): nat {
    if es == [] then 0
    else
      var before := es[..|es| - 1];
      var last := es[|es| - 1];
      Received(s, before, h) + if last == Receive(h) && CanReceive(Run(s, before), h) then 1 else 0
  }

  function Releases(es: seq<Event>, h: nat): nat {
    if es == [] then 0 else Releases(es[..|es| - 1], h) + if es[|es| - 1] == Release(h) then 1 else 0
  }

  /** However often a slot is released, and whatever else runs in between, it gives back the tokens it
      holds once each and never another's: an acquired slot frees exactly one. Unreleased, it gives
      back none. */
  lemma {:induction false} EachTokenIsFreedOnce(s: State, es: seq<Event>, h: nat)
    requires h < |s.holders| && s.holders[h].phase == Holding
    ensures var s' := Run(s, es);
      && h < |s'.holders| && s'.holders[h].channel == s.holders[h].channel
      && Received(s, es, h) + s'.holders[h].held == s.holders[h].held
      && s'.holders[h].phase == if Releases(es, h) == 0 then Holding else Releasing
    ensures Releases(es, h) == 0 ==> Received(s, es, h) == 0
  {
    if es != [] {
      EachTokenIsFreedOnce(s, es[..|es| - 1], h);
      OneStepOfAHolder(Run(s, es[..|es| - 1]), es[|es| - 1], h);
    }
  }

  lemma OneStepOfAHolder(s: State, e: Event, h: nat)
    requires h < |s.holders| && s.holders[h].phase != Filling
    ensures var s' := Step(s, e);
      && h < |s'.holders| && s'.holders[h].channel == s.holders[h].channel
      && s.holders[h].held - s'.holders[h].held == (if e == Receive(h) && CanReceive(s, h) then 1 else 0)
      && s'.holders[h].phase == if e == Release(h) then Releasing else s.holders[h].phase
  {
  }

  // ----- the functions of hashgate.go -----

  /** What a holder wants back is in its channel. */
  predicate Fits(s: State, h: nat) {
    && h < |s.holders| && s.holders[h].channel < |s.channels|
    && s.holders[h].held <= s.channels[s.holders[h].channel].tokens
  }

  lemma HeldFits(s: State, h: nat)
    requires Balanced(s) && h < |s.holders|
    ensures Fits(s, h)
  {
    HeldAtLeast(s.holders, h);
  }

  /** A state with the tokens of channel c and holder h set. */
  function With(s: State, c: nat, tokens: nat, h: nat, held: nat, phase: Phase): State
    requires c < |s.channels| && h < |s.holders|
  {
    s.(channels := s.channels[c := s.channels[c].(tokens := tokens)],
       holders := s.holders[h := Holder(s.holders[h].channel, held, phase)])
  }

  /** What one complete release leaves: the holder's tokens are out of its channel. */
  function Released(s: State, h: nat): State
    requires Fits(s, h)
  {
    var k := s.holders[h];
    if k.phase != Holding then s
    else With(s, k.channel, s.channels[k.channel].tokens - k.held, h, 0, Releasing)
  }

  function Drain(h: nat, n: nat): seq<Event> {
    if n == 0 then [Release(h)] else Drain(h, n - 1) + [Receive(h)]
  }

  lemma ReceiveOne(s: State, h: nat, tokens: nat, held: nat)
    requires h < |s.holders| && s.holders[h].channel < |s.channels| && 0 < held && 0 < tokens
    ensures var c := s.holders[h].channel;
      Step(With(s, c, tokens, h, held, Releasing), Receive(h)) == With(s, c, tokens - 1, h, held - 1, Releasing)
  {
  }

  lemma BeginRelease(s: State, h: nat)
    requires h < |s.holders| && s.holders[h].channel < |s.channels| && s.holders[h].phase == Holding
    ensures var c := s.holders[h].channel;
      Run(s, Drain(h, 0)) == With(s, c, s.channels[c].tokens, h, s.holders[h].held, Releasing)
  {
  }

  lemma DrainOneMore(s: State, h: nat, n: nat)
    requires n > 0
    ensures Run(s, Drain(h, n)) == Step(Run(s, Drain(h, n - 1)), Receive(h))
  {
  }

  /** A complete release is a run of the gate: the once, then one receive for each token held. */
  lemma {:induction false} DrainIsARun(s: State, h: nat, n: nat)
    requires h < |s.holders| && s.holders[h].phase == Holding && n <= s.holders[h].held
    requires s.holders[h].channel < |s.channels| && s.holders[h].held <= s.channels[s.holders[h].channel].tokens
    ensures var c := s.holders[h].channel;
      Run(s, Drain(h, n)) == With(s, c, s.channels[c].tokens - n, h, s.holders[h].held - n, Releasing)
  {
    var tokens, held := s.channels[s.holders[h].channel].tokens, s.holders[h].held;
    if n == 0 {
      BeginRelease(s, h);
    } else {
      DrainIsARun(s, h, n - 1);
      DrainOneMore(s, h, n);
      ReceiveOne(s, h, tokens - n + 1, held - n + 1);
    }
  }

  lemma ReleasedIsDrained(s: State, h: nat)
    requires Fits(s, h) && s.holders[h].phase == Holding
    ensures Released(s, h) == Run(s, Drain(h, s.holders[h].held))
  {
    DrainIsARun(s, h, s.holders[h].held);
  }

  lemma ReleasedIsARun(s: State, h: nat)
    requires Balanced(s) && h < |s.holders|
    ensures Fits(s, h)
    ensures s.holders[h].phase == Holding ==> Released(s, h) == Run(s, Drain(h, s.holders[h].held))
    ensures Balanced(Released(s, h))
  {
    HeldFits(s, h);
    if s.holders[h].phase == Holding {
      ReleasedIsDrained(s, h);
      RunBalanced(s, Drain(h, s.holders[h].held));
    }
  }

  /** The current channel filled to the brim by one new holder. */
  function Saturated(s: State): State
    requires Balanced(s)
  {
    GateBalanced(s);
    var g := WithGate(s);
    var c := g.current.value;
    var ch := g.channels[c];
    g.(channels := g.channels[c := ch.(tokens := ch.capacity)],
       holders := g.holders + [Holder(c, ch.capacity - ch.tokens, Holding)])
  }

  /** Saturating leaves no room, and its release hands back exactly the room there was. */
  lemma SaturationIsUndone(s: State)
    requires Balanced(s)
    ensures var t := Saturated(s);
      && Balanced(t) && !HasRoom(t, t.current.value)
      && Fits(t, |t.holders| - 1)
      && Released(t, |t.holders| - 1).channels == WithGate(s).channels
  {
    GateBalanced(s);
    var g := WithGate(s);
    var c := g.current.value;
    NewHolderBalanced(g, Saturated(s), Holder(c, g.channels[c].capacity - g.channels[c].tokens, Holding), c);
  }

  class HashSlots {
    var state: State

    constructor ()
      ensures state == UNSIZED
    {
      state := UNSIZED;
    }

    method SetHashConcurrency(n: int)
      modifies this
      ensures state == Step(old(state), Event.SetHashConcurrency(n))
    {
      if n <= 0 { return; }
      state := NewChannel(state, n);
    }

    method HashGate() returns (gate: nat)
      modifies this
      ensures state == WithGate(old(state)) && state.current == Some(gate)
    {
      if state.current.None? {
        state := NewChannel(state, DEFAULT_HASH_CONCURRENCY);
      }
      return state.current.value;
    }

    /** A caller on its own: busy when it is already cancelled, when the gate is full for as long as it
        may wait, or when its wait is over and the select picks that. */
    method AcquireHashSlot(cancelled: bool, waitIsOver: bool) returns (slot: Option<nat>)
      modifies this
      ensures var s := Step(old(state), Arrive(cancelled));
        if cancelled then slot.None? && state == s
        else
          var c := s.current.value;
          && (slot.Some? <==> HasRoom(s, c) && !waitIsOver)
          && (slot.Some? ==> slot.value == |s.holders|)
          && state == Step(s, if slot.Some? then Send(c) else Expire(c))
      ensures state.waiting == old(state).waiting
    {
      if cancelled { return None; }
      var gate := HashGate();
      state := state.(waiting := state.waiting + multiset{gate});
      var waited := state.waiting - multiset{gate};
      if HasRoom(state, gate) && !waitIsOver {
        slot := Some(|state.holders|);
        state := PutToken(state, gate).(waiting := waited, holders := state.holders + [Holder(gate, 1, Holding)]);
      } else {
        slot := None;
        state := state.(waiting := waited);
      }
    }

    /** once.Do: the first call receives one token for each one held, later calls do nothing. */
    method Release(h: nat)
      requires Balanced(state) && h < |state.holders|
      modifies this
      ensures Fits(old(state), h) && state == Released(old(state), h)
    {
      HeldFits(state, h);
      if state.holders[h].phase != Holding { return; }
      var gate := state.holders[h].channel;
      var held := state.holders[h].held;
      ghost var before := state;
      state := WithHolder(state, h, held, Releasing);
      for i := 0 to held
        invariant state == With(before, gate, before.channels[gate].tokens - i, h, held - i, Releasing)
      {
        state := WithHolder(TakeToken(state, gate), h, held - i - 1, Releasing);
      }
    }

    /** Sends until the channel is full, counting what it put in. */
    method SaturateForTest() returns (h: nat)
      requires Balanced(state)
      modifies this
      ensures state == Saturated(old(state)) && h == |state.holders| - 1
    {
      GateBalanced(state);
      var gate := HashGate();
      ghost var before := state;
      h := |state.holders|;
      state := state.(holders := state.holders + [Holder(gate, 0, Filling)]);
      ghost var start := state;
      var held := 0;
      while HasRoom(state, gate)
        invariant before.channels[gate].tokens + held <= before.channels[gate].capacity
        invariant state == With(start, gate, before.channels[gate].tokens + held, h, held, Filling)
        decreases before.channels[gate].capacity - held
      {
        held := held + 1;
        state := WithHolder(PutToken(state, gate), h, held, Filling);
      }
      state := WithHolder(state, h, held, Holding);
    }
  }
}
