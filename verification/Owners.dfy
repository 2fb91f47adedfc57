/**
 Organization memberships and the last-owner guard. A guarded mutation locks the owner rows of
 its org, decides on the owners it saw, and writes later; other transactions may run in between.
 */
module Owners {
  import opened Prelude

  datatype Seat = Seat(org: nat, user: nat)

  /** org_memberships: at most one role for a user in an org. */
  type Memberships = map<Seat, string>

  datatype OwnerError = LastOwner | MemberNotFound

  datatype Change = Remove(seat: Seat) | SetRole(seat: Seat, role: string)

  const OWNER_ROLE := "owner"

  function OwnersOf(m: Memberships, org: nat): set<nat> {
    set s | s in m && s.org == org && m[s] == OWNER_ROLE :: s.user
  }

  lemma OwnersAre(m: Memberships, org: nat)
    ensures forall u :: u in OwnersOf(m, org) <==> Seat(org, u) in m && m[Seat(org, u)] == OWNER_ROLE
  {
    forall u | Seat(org, u) in m && m[Seat(org, u)] == OWNER_ROLE
      ensures u in OwnersOf(m, org)
    {
      assert Seat(org, u).user == u;
    }
  }

  /** The guard and the write of a change, for the owners its transaction locked. */
  function Guarded(m: Memberships, c: Change, owners: set<nat>): Result<Memberships, OwnerError> {
    if (c.Remove? || c.role != OWNER_ROLE) && owners == {c.seat.user} then Failure(LastOwner)
    else if c.seat !in m then Failure(MemberNotFound)
    else Success(Unguarded(m, c))
  }

  /** The bare DELETE or UPDATE. */
  function Unguarded(m: Memberships, c: Change): Memberships {
    if c.Remove? then m - {c.seat} else if c.seat in m then m[c.seat := c.role] else m
  }

  lemma OwnersAfterWrite(m: Memberships, seat: Seat, role: string, org: nat)
    ensures var before, after := OwnersOf(m, org), OwnersOf(m[seat := role], org);
      after == if seat.org != org then before
               else if role == OWNER_ROLE then before + {seat.user} else before - {seat.user}
  {
  }

  lemma OwnersAfterDelete(m: Memberships, seat: Seat, org: nat)
    ensures OwnersOf(m - {seat}, org) == if seat.org != org then OwnersOf(m, org) else OwnersOf(m, org) - {seat.user}
  {
  }

  lemma OwnersAfter(m: Memberships, c: Change, org: nat)
    ensures var before, after := OwnersOf(m, org), OwnersOf(Unguarded(m, c), org);
      if c.seat.org != org then after == before
      else if c.SetRole? && c.role == OWNER_ROLE then before <= after
      else after == before - {c.seat.user}
  {
    OwnersAre(m, org);
    if c.Remove? {
      OwnersAfterDelete(m, c.seat, org);
    } else if c.seat in m {
      OwnersAfterWrite(m, c.seat, c.role, org);
    }
  }

  /** With the owners up to date, the guard refuses exactly the changes that would take an org from
      some owner to none. */
  lemma RefusedIffItWouldOrphan(m: Memberships, c: Change)
    ensures var owners := OwnersOf(m, c.seat.org);
      Guarded(m, c, owners) == Failure(LastOwner) <==> owners != {} && OwnersOf(Unguarded(m, c), c.seat.org) == {}
  {
    var owners := OwnersOf(m, c.seat.org);
    OwnersAfter(m, c, c.seat.org);
    if owners != {} && owners - {c.seat.user} == {} {
      assert owners == {c.seat.user};
    }
  }

  /** What a guarded change does to the table, seat by seat: a removal that goes through leaves no row, a
      role change the new role, and every other seat as it was; each refusal has its one reason. */
  lemma ChangeIsExact(m: Memberships, c: Change, owners: set<nat>)
    ensures var r := Guarded(m, c, owners);
      var lastOwner := owners == {c.seat.user} && (c.SetRole? ==> c.role != OWNER_ROLE);
      && (r == Failure(LastOwner) <==> lastOwner)
      && (r == Failure(MemberNotFound) <==> !lastOwner && c.seat !in m)
      && (r.Success? <==> !lastOwner && c.seat in m)
      && (r.Success? ==>
        && (c.Remove? ==> c.seat !in r.value)
        && (c.SetRole? ==> c.seat in r.value && r.value[c.seat] == c.role)
        && OnlySeat(m, r.value, c.seat))
  {
  }

  /** Nothing but one seat differs. */
  ghost predicate OnlySeat(m: Memberships, m': Memberships, seat: Seat) {
    forall s :: s != seat ==> (s in m' <==> s in m) && (s in m ==> m'[s] == m[s])
  }

  // ----- interleaved transactions -----

  /** A guarded mutation between its SELECT ... FOR UPDATE and its commit. */
  datatype Guard = Guard(change: Change, owners: set<nat>)

  datatype State = State(orgs: set<nat>, rows: Memberships, running: map<nat, Guard>)

  datatype Event =
    | CreateOrg(org: nat, user: nat)
    | Begin(tx: nat, change: Change)
    | Finish(tx: nat)
    | RollBack(tx: nat)
    | AcceptInvite(seat: Seat, role: string)

  /** Whether some owner row of the org is locked by a running transaction. */
  ghost predicate Locked(s: State, org: nat) {
    exists t :: t in s.running && s.running[t].change.seat.org == org && s.running[t].owners * OwnersOf(s.rows, org) != {}
  }

  /** An event that has to wait, or that has nothing to act on, changes nothing. */
  ghost function Step(s: State, e: Event): State {
    match e
    case CreateOrg(org, user) =>
      if org in s.orgs then s else s.(orgs := s.orgs + {org}, rows := s.rows[Seat(org, user) := OWNER_ROLE])
    case Begin(tx, c) =>
      if tx in s.running || c.seat.org !in s.orgs || Locked(s, c.seat.org) then s
      else s.(running := s.running[tx := Guard(c, OwnersOf(s.rows, c.seat.org))])
    case Finish(tx) =>
      if tx !in s.running then s
      else
        var r := Guarded(s.rows, s.running[tx].change, s.running[tx].owners);
        s.(rows := if r.Success? then r.value else s.rows, running := s.running - {tx})
    case RollBack(tx) => s.(running := s.running - {tx})
    case AcceptInvite(seat, role) =>
      if seat.org !in s.orgs || seat in s.rows then s else s.(rows := s.rows[seat := role])
  }

  /** What each event does to the memberships: a new org seats its creator as owner, an accepted invite
      seats whoever has no seat yet, with the invited role, and a commit makes its guarded change. */
  lemma StepOnSeats(s: State, e: Event)
    ensures var m, m' := s.rows, Step(s, e).rows;
      match e
      case CreateOrg(org, user) =>
        if org in s.orgs then m' == m
        else OnlySeat(m, m', Seat(org, user)) && Seat(org, user) in m' && m'[Seat(org, user)] == OWNER_ROLE
      case Begin(_, _) => m' == m
      case RollBack(_) => m' == m
      case AcceptInvite(seat, role) =>
        if seat.org !in s.orgs || seat in m then m' == m
        else OnlySeat(m, m', seat) && seat in m' && m'[seat] == role
      case Finish(tx) =>
        if tx !in s.running || Guarded(m, s.running[tx].change, s.running[tx].owners).Failure? then m' == m
        else
          var c := s.running[tx].change;
          && OnlySeat(m, m', c.seat) && (c.Remove? ==> c.seat !in m')
          && (c.SetRole? ==> c.seat in m' && m'[c.seat] == c.role)
  {
    if e.Finish? && e.tx in s.running { ChangeIsExact(s.rows, s.running[e.tx].change, s.running[e.tx].owners); }
  }

  /** Which transactions run: one enters with the owners of that moment unless another has an owner row
      of its org locked, and it ends by its commit or rollback only. */
  lemma StepOnGuards(s: State, e: Event, t: nat)
    ensures var g, g' := s.running, Step(s, e).running;
      var begins := e.Begin? && e.tx == t && t !in g && e.change.seat.org in s.orgs && !Locked(s, e.change.seat.org);
      var ends := (e.Finish? || e.RollBack?) && e.tx == t;
      && (t in g' <==> begins || (t in g && !ends))
      && (t in g && !ends ==> g'[t] == g[t])
      && (begins ==> g'[t] == Guard(e.change, OwnersOf(s.rows, e.change.seat.org)))
  {
  }

  ghost function Run(s: State, es: seq<Event>): State {
    if es == [] then s else Step(Run(s, es[..|es| - 1]), es[|es| - 1])
  }

  const NO_ORGS := State({}, map[], map[])

  /** Every org has an owner; a running guard saw owners that are still owners, and it is the only
      one running on its org. */
  ghost predicate Guarding(s: State) {
    && (forall o :: o in s.orgs ==> OwnersOf(s.rows, o) != {})
    && (forall t :: t in s.running ==>
      var g := s.running[t];
      && g.change.seat.org in s.orgs && g.owners != {} && g.owners <= OwnersOf(s.rows, g.change.seat.org))
    && (forall t, u :: t in s.running && u in s.running && t != u ==>
      s.running[t].change.seat.org != s.running[u].change.seat.org)
  }

  lemma NewSeat(m: Memberships, seat: Seat, role: string, org: nat)
    requires seat !in m || role == OWNER_ROLE
    ensures OwnersOf(m, org) <= OwnersOf(m[seat := role], org)
    ensures seat.org != org || role != OWNER_ROLE ==> OwnersOf(m, org) == OwnersOf(m[seat := role], org)
    ensures seat.org == org && role == OWNER_ROLE ==> seat.user in OwnersOf(m[seat := role], org)
  {
  }

  lemma NewSeatKeepsGuarding(s: State, s': State, seat: Seat, role: string)
    requires Guarding(s) && (seat !in s.rows || role == OWNER_ROLE)
    requires s'.running == s.running && s'.rows == s.rows[seat := role]
    requires s'.orgs == s.orgs || (s'.orgs == s.orgs + {seat.org} && role == OWNER_ROLE)
    ensures Guarding(s')
  {
    forall o
      ensures OwnersOf(s.rows, o) <= OwnersOf(s'.rows, o)
      ensures seat.org == o && role == OWNER_ROLE ==> seat.user in OwnersOf(s'.rows, o)
    {
      NewSeat(s.rows, seat, role, o);
    }
  }

  lemma FinishKeepsGuarding(s: State, tx: nat)
    requires Guarding(s) && tx in s.running
    ensures Guarding(Step(s, Finish(tx)))
  {
    var c := s.running[tx].change;
    var owners := s.running[tx].owners;
    forall o
      ensures c.seat.org != o ==> OwnersOf(Unguarded(s.rows, c), o) == OwnersOf(s.rows, o)
    {
      OwnersAfter(s.rows, c, o);
    }
    OwnersAfter(s.rows, c, c.seat.org);
    var before := OwnersOf(s.rows, c.seat.org);
    if Guarded(s.rows, c, owners).Success? && before - {c.seat.user} == {} {
      assert before <= {c.seat.user};
      assert owners == {c.seat.user};
    }
  }

  lemma BeginKeepsGuarding(s: State, tx: nat, c: Change)
    requires Guarding(s)
    ensures Guarding(Step(s, Begin(tx, c)))
  {
    var org := c.seat.org;
    forall t | t in s.running && s.running[t].change.seat.org == org
      ensures Locked(s, org)
    {
      var u :| u in s.running[t].owners;
      assert u in s.running[t].owners * OwnersOf(s.rows, org);
    }
  }

  lemma StepKeepsGuarding(s: State, e: Event)
    requires Guarding(s)
    ensures Guarding(Step(s, e))
  {
    match e
    case CreateOrg(org, user) =>
      if org !in s.orgs { NewSeatKeepsGuarding(s, Step(s, e), Seat(org, user), OWNER_ROLE); }
    case Begin(tx, c) => BeginKeepsGuarding(s, tx, c);
    case Finish(tx) => if tx in s.running { FinishKeepsGuarding(s, tx); }
    case RollBack(tx) =>
    case AcceptInvite(seat, role) =>
      if seat.org in s.orgs && seat !in s.rows { NewSeatKeepsGuarding(s, Step(s, e), seat, role); }
  }

  lemma {:induction false} RunKeepsGuarding(s: State, es: seq<Event>)
    requires Guarding(s)
    ensures Guarding(Run(s, es))
  {
    if es != [] {
      RunKeepsGuarding(s, es[..|es| - 1]);
      StepKeepsGuarding(Run(s, es[..|es| - 1]), es[|es| - 1]);
    }
  }

  /** An org is there once it was created, and stays. */
  lemma {:induction false} CreatedOrgsStay(es: seq<Event>, org: nat)
    ensures org in Run(NO_ORGS, es).orgs <==> exists i :: 0 <= i < |es| && es[i].CreateOrg? && es[i].org == org
  {
    if es != [] {
      var n := |es| - 1;
      var front := es[..n];
      CreatedOrgsStay(front, org);
      if org in Run(NO_ORGS, front).orgs {
        var i :| 0 <= i < |front| && front[i].CreateOrg? && front[i].org == org;
        assert es[i] == front[i];
      }
      if i :| 0 <= i < |es| && es[i].CreateOrg? && es[i].org == org && i < n {
        assert front[i] == es[i];
      }
    }
  }

  /** No interleaving of creations, guarded removals, demotions and promotions, rollbacks and
      invitation accepts leaves an org that was ever created without an owner. */
  lemma EveryOrgHasAnOwner(es: seq<Event>, org: nat)
    requires exists i :: 0 <= i < |es| && es[i].CreateOrg? && es[i].org == org
    ensures OwnersOf(Run(NO_ORGS, es).rows, org) != {}
  {
    CreatedOrgsStay(es, org);
    RunKeepsGuarding(NO_ORGS, es);
  }

  /** Invitations are made for members and admins only. */
  ghost predicate InvitesNoOwners(es: seq<Event>) {
    forall i :: 0 <= i < |es| && es[i].AcceptInvite? ==> es[i].role != OWNER_ROLE
  }

  ghost predicate SawAllOwners(s: State) {
    forall t :: t in s.running ==> s.running[t].owners == OwnersOf(s.rows, s.running[t].change.seat.org)
  }

  lemma StepKeepsSight(s: State, e: Event)
    requires Guarding(s) && SawAllOwners(s) && (e.AcceptInvite? ==> e.role != OWNER_ROLE)
    ensures SawAllOwners(Step(s, e))
  {
    forall t | t in Step(s, e).running && t in s.running
      ensures Step(s, e).running[t].owners == OwnersOf(Step(s, e).rows, Step(s, e).running[t].change.seat.org)
    {
      var org := s.running[t].change.seat.org;
      match e
      case CreateOrg(o, user) => NewSeat(s.rows, Seat(o, user), OWNER_ROLE, org);
      case Finish(tx) => if tx in s.running { OwnersAfter(s.rows, s.running[tx].change, org); }
      case AcceptInvite(seat, role) => if seat !in s.rows { NewSeat(s.rows, seat, role, org); }
      case _ =>
    }
  }

  lemma {:induction false} RunKeepsSight(es: seq<Event>)
    requires InvitesNoOwners(es)
    ensures SawAllOwners(Run(NO_ORGS, es))
  {
    if es != [] {
      var shorter := es[..|es| - 1];
      RunKeepsSight(shorter);
      RunKeepsGuarding(NO_ORGS, shorter);
      StepKeepsSight(Run(NO_ORGS, shorter), es[|es| - 1]);
    }
  }

  /** However the transactions interleave, the guard answers at commit time as it did at lock time:
      a change is refused exactly when carrying it out now would orphan its org. */
  lemma RefusalIsExactInAnyRun(es: seq<Event>, tx: nat)
    requires InvitesNoOwners(es) && tx in Run(NO_ORGS, es).running
    ensures var s := Run(NO_ORGS, es); var g := s.running[tx];
      Guarded(s.rows, g.change, g.owners) == Failure(LastOwner)
      <==> OwnersOf(Unguarded(s.rows, g.change), g.change.seat.org) == {}
  {
    var s := Run(NO_ORGS, es);
    RunKeepsSight(es);
    RunKeepsGuarding(NO_ORGS, es);
    RefusedIffItWouldOrphan(s.rows, s.running[tx].change);
  }

  // ----- the table, one transaction at a time -----

  lemma OnlyElement(owners: set<nat>, user: nat)
    ensures |owners| == 1 && user in owners <==> owners == {user}
  {
    if |owners| == 1 && user in owners {
      assert |owners - {user}| == 0;
    }
  }

  class OrgMemberships {
    var rows: Memberships

    constructor ()
      ensures rows == map[]
    {
      rows := map[];
    }

    method RemoveOrgMemberGuarded(user: nat, org: nat) returns (error: Option<OwnerError>)
      modifies this
      ensures var r := Guarded(old(rows), Remove(Seat(org, user)), OwnersOf(old(rows), org));
        if r.Success? then rows == r.value && error.None? else rows == old(rows) && error == Some(r.error)
      ensures error == Some(LastOwner) <==>
        OwnersOf(old(rows), org) != {} && OwnersOf(Unguarded(old(rows), Remove(Seat(org, user))), org) == {}
      ensures error == Some(MemberNotFound) <==> Seat(org, user) !in old(rows)
      ensures error.None? ==> Seat(org, user) !in rows && OnlySeat(old(rows), rows, Seat(org, user))
    {
      var owners := OwnersOf(rows, org);
      OwnersAre(rows, org);
      RefusedIffItWouldOrphan(rows, Remove(Seat(org, user)));
      OnlyElement(owners, user);
      if |owners| == 1 && user in owners { return Some(LastOwner); }
      if Seat(org, user) !in rows { return Some(MemberNotFound); }
      rows := rows - {Seat(org, user)};
      return None;
    }

    method UpdateOrgMemberRoleGuarded(user: nat, org: nat, newRole: string) returns (error: Option<OwnerError>)
      modifies this
      ensures var r := Guarded(old(rows), SetRole(Seat(org, user), newRole), OwnersOf(old(rows), org));
        if r.Success? then rows == r.value && error.None? else rows == old(rows) && error == Some(r.error)
      ensures error == Some(LastOwner) <==>
        OwnersOf(old(rows), org) != {} && OwnersOf(Unguarded(old(rows), SetRole(Seat(org, user), newRole)), org) == {}
      ensures error == Some(MemberNotFound) <==> Seat(org, user) !in old(rows)
      ensures error.None? ==>
        && Seat(org, user) in rows && rows[Seat(org, user)] == newRole
        && OnlySeat(old(rows), rows, Seat(org, user))
    {
      var owners := OwnersOf(rows, org);
      OwnersAre(rows, org);
      RefusedIffItWouldOrphan(rows, SetRole(Seat(org, user), newRole));
      OnlyElement(owners, user);
      if newRole != OWNER_ROLE && |owners| == 1 && user in owners { return Some(LastOwner); }
      if Seat(org, user) !in rows { return Some(MemberNotFound); }
      rows := rows[Seat(org, user) := newRole];
      return None;
    }

    /** ON CONFLICT DO NOTHING: whoever is already a member keeps the role held. */
    method InsertOrgMembershipIfAbsent(user: nat, org: nat, role: string) returns (inserted: bool)
      modifies this
      ensures inserted <==> Seat(org, user) !in old(rows)
      ensures rows == if inserted then old(rows)[Seat(org, user) := role] else old(rows)
    {
      if Seat(org, user) in rows { return false; }
      rows := rows[Seat(org, user) := role];
      return true;
    }
  }
}
