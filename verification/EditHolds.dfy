/** The in-memory registry of holds: edit leases that lapse, removal holds that do not, and the
    broadcast channel that is closed and replaced whenever a hold is placed. */
module EditHolds {
  import opened Wrappers
  import opened Config

  /** Seconds one edit hold lasts without being renewed. */
  const LEASE: int := 90

  // ----- the registry as a value -----

  /** gen counts the channels closed so far; the current one is open. */
  datatype Registry = Registry(held: map<SetId, int>, removed: set<SetId>, gen: nat)

  function LeaseHeld(r: Registry, id: SetId, now: int): bool
  {
    id in r.held && now < r.held[id]
  }

  function IsHeld(r: Registry, id: SetId, now: int): bool
  {
    id in r.removed || LeaseHeld(r, id, now)
  }

  /** Reading a lease drops it once it has lapsed. */
  function LeaseRead(r: Registry, id: SetId, now: int): Registry
  {
    if id in r.held && now >= r.held[id] then r.(held := r.held - {id}) else r
  }

  /** A removal outranks a lease and is looked at first. */
  function HeldRead(r: Registry, id: SetId, now: int): Registry
  {
    if id in r.removed then r else LeaseRead(r, id, now)
  }

  function Placed(r: Registry, id: SetId, now: int): Registry
  {
    Registry(r.held[id := now + LEASE], r.removed, r.gen + 1)
  }

  function Released(r: Registry, id: SetId): Registry
  {
    r.(held := r.held - {id})
  }

  function RemovalHeld(r: Registry, id: SetId): Registry
  {
    Registry(r.held, r.removed + {id}, r.gen + 1)
  }

  function RemovalsForgotten(r: Registry, ids: set<SetId>): Registry
  {
    r.(removed := r.removed - ids)
  }

  // ----- what was ever done to it -----

  datatype Event =
    | Place(id: SetId, at: int)
    | Release(id: SetId)
    | ReadLease(id: SetId, at: int)
    | HoldRemoval(id: SetId)
    | ForgetRemovals(ids: set<SetId>)

  /** The simple specification: the newest placement or release of id, if it is a placement. */
  function LatestPlacement(log: seq<Event>, id: SetId): Option<int>
  {
    if log == [] then None
    else
      var e, before := log[|log| - 1], log[..|log| - 1];
      if e.Place? && e.id == id then Some(e.at)
      else if e.Release? && e.id == id then None
      else LatestPlacement(before, id)
  }

  /** Held for editing, as the design states it: placed less than a lease ago and not released
      since. No deletion, no sweeping, nothing about reads. */
  predicate HeldForEditing(log: seq<Event>, id: SetId, now: int)
  {
    match LatestPlacement(log, id)
    case None => false
    case Some(at) => now < at + LEASE
  }

  function RemovalStands(log: seq<Event>, id: SetId): bool
  {
    if log == [] then false
    else
      var e, before := log[|log| - 1], log[..|log| - 1];
      if e.HoldRemoval? && e.id == id then true
      else if e.ForgetRemovals? && id in e.ids then false
      else RemovalStands(before, id)
  }

  /** Somebody asked after this lease at a moment the clock read past its expiry. */
  function LapseSeen(log: seq<Event>, id: SetId): bool
  {
    if log == [] then false
    else
      var e, before := log[|log| - 1], log[..|log| - 1];
      if (e.Place? || e.Release?) && e.id == id then false
      else
        || LapseSeen(before, id)
        || (e.ReadLease? && e.id == id && LatestPlacement(before, id).Some?
            && e.at >= LatestPlacement(before, id).value + LEASE)
  }

  /** The expiry the registry has on file for id. */
  function OnFile(log: seq<Event>, id: SetId): Option<int>
  {
    if LapseSeen(log, id) then None
    else
      match LatestPlacement(log, id)
      case None => None
      case Some(at) => Some(at + LEASE)
  }

  ghost predicate Tells(log: seq<Event>, r: Registry)
  {
    && (forall id :: (id in r.held <==> OnFile(log, id).Some?)
                  && (id in r.held ==> OnFile(log, id) == Some(r.held[id])))
    && (forall id :: id in r.removed <==> RemovalStands(log, id))
  }

  // ----- the object -----

  class Channel {
    var closed: bool

    constructor ()
      ensures !closed
    {
      closed := false;
    }

    /** Closing a closed channel is a run-time panic. */
    method Close()
      requires !closed
      modifies this
      ensures closed
    {
      closed := true;
    }
  }

  class Holds {
    var held: map<SetId, int>
    var removed: set<SetId>
    var changed: Channel

    ghost var past: seq<Channel>
    ghost var log: seq<Event>

    ghost function Reg(): Registry
      reads this
    {
      Registry(held, removed, |past|)
    }

    /** The current channel is open; every earlier one was closed, and is not the current one. */
    ghost predicate Valid()
      reads this, changed, past
    {
      && !changed.closed
      && (forall i :: 0 <= i < |past| ==> past[i].closed)
      && Tells(log, Reg())
    }

    constructor ()
      ensures Valid() && Reg() == Registry(map[], {}, 0) && log == [] && fresh(changed)
    {
      held := map[];
      removed := {};
      changed := new Channel();
      past := [];
      log := [];
    }

    ghost method Record(e: Event)
      modifies this`log
      ensures log == old(log) + [e] && log[..|log| - 1] == old(log)
    {
      log := log + [e];
    }

    method LeaseHeldLocked(id: SetId, now: int) returns (answer: bool)
      requires Valid()
      modifies this`held, this`log
      ensures Valid() && log == old(log) + [ReadLease(id, now)]
      ensures answer == LeaseHeld(old(Reg()), id, now) && Reg() == LeaseRead(old(Reg()), id, now)
    {
      Record(ReadLease(id, now));
      if id !in held {
        return false;
      }
      if !(now < held[id]) {
        held := held - {id};
        return false;
      }
      return true;
    }

    method Held(id: SetId, now: int) returns (answer: bool)
      requires Valid()
      modifies this`held, this`log
      ensures Valid() && old(log) <= log
      ensures answer == IsHeld(old(Reg()), id, now) && Reg() == HeldRead(old(Reg()), id, now)
    {
      if id in removed {
        return true;
      }
      answer := LeaseHeldLocked(id, now);
    }

    method GetChanged() returns (c: Channel)
      requires Valid()
      ensures c == changed && !c.closed
    {
      c := changed;
    }

    /** Every watcher waiting on the channel that was current wakes. */
    method Broadcast()
      requires !changed.closed && forall i :: 0 <= i < |past| ==> past[i].closed
      modifies this`changed, this`past, changed
      ensures fresh(changed) && !changed.closed && old(changed).closed
      ensures past == old(past) + [old(changed)]
      ensures forall i :: 0 <= i < |past| ==> past[i].closed
    {
      changed.Close();
      past := past + [changed];
      changed := new Channel();
    }

    method Place(id: SetId, now: int) returns (expiry: int)
      requires Valid()
      modifies this, changed
      ensures Valid() && log == old(log) + [Event.Place(id, now)]
      ensures expiry == now + LEASE && Reg() == Placed(old(Reg()), id, now)
      ensures old(changed).closed && fresh(changed)
    {
      expiry := now + LEASE;
      held := held[id := expiry];
      Broadcast();
      Record(Event.Place(id, now));
    }

    method Release(id: SetId)
      requires Valid()
      modifies this`held, this`log
      ensures Valid() && log == old(log) + [Event.Release(id)]
      ensures Reg() == Released(old(Reg()), id)
    {
      held := held - {id};
      Record(Event.Release(id));
    }

    method HoldRemoved(id: SetId)
      requires Valid()
      modifies this, changed
      ensures Valid() && log == old(log) + [HoldRemoval(id)]
      ensures Reg() == RemovalHeld(old(Reg()), id)
      ensures old(changed).closed && fresh(changed)
    {
      removed := removed + {id};
      Broadcast();
      Record(HoldRemoval(id));
    }

    method ForgetRemoved(id: SetId)
      requires Valid()
      modifies this`removed, this`log
      ensures Valid() && Reg() == RemovalsForgotten(old(Reg()), {id})
    {
      removed := removed - {id};
      Record(ForgetRemovals({id}));
    }

    /** Drops the removal hold of every set the configuration names, one by one. */
    method ForgetRemovedNamedIn(cfg: Config)
      requires Valid()
      modifies this`removed, this`log
      ensures Valid() && Reg() == RemovalsForgotten(old(Reg()), Ids(cfg))
    {
      ghost var before := removed;
      for i := 0 to |cfg|
        invariant removed - Ids(cfg[i..]) == before - Ids(cfg)
        invariant unchanged(this`held, this`changed, this`past, this`log)
      {
        assert cfg[i..][0] == cfg[i] && cfg[i..][1..] == cfg[i + 1..];
        var sets := cfg[i].sets;
        for j := 0 to |sets|
          invariant removed - SetIds(cfg[i].name, sets[j..]) - Ids(cfg[i + 1..]) == before - Ids(cfg)
          invariant unchanged(this`held, this`changed, this`past, this`log)
        {
          assert sets[j..][0] == sets[j] && sets[j..][1..] == sets[j + 1..];
          removed := removed - {SetId(cfg[i].name, sets[j].name)};
        }
        assert sets[|sets|..] == [];
      }
      assert cfg[|cfg|..] == [] && removed == before - Ids(cfg);
      Record(ForgetRemovals(Ids(cfg)));
    }

    /** What is reported for the edit form: the lease, and never a removal hold. */
    method State(id: SetId, now: int) returns (expiry: Option<int>)
      requires Valid()
      modifies this`held, this`log
      ensures Valid() && Reg() == LeaseRead(old(Reg()), id, now)
      ensures expiry == if HeldForEditing(old(log), id, now) && !LapseSeen(old(log), id)
                        then OnFile(old(log), id) else None
    {
      var holding := LeaseHeldLocked(id, now);
      if !holding {
        return None;
      }
      return Some(held[id]);
    }
  }

  /** Asking after a set drops a lease of that set, if it has lapsed and no removal hold answers first,
      and nothing else ever. */
  lemma AskingDropsOnlyALapsedLease(r: Registry, id: SetId, now: int)
    ensures
      var after := HeldRead(r, id, now);
      && after.removed == r.removed && after.gen == r.gen
      && (forall o :: o in after.held <==> o in r.held && !(o == id && id !in r.removed && r.held[id] <= now))
      && (forall o :: o in after.held ==> after.held[o] == r.held[o])
  {}

  /** A lease placed, or renewed, holds its set for the ninety seconds from then and not one more; it
      holds no other set, and gives nothing removal-held back. */
  lemma LeaseLastsNinetySeconds(r: Registry, id: SetId, at: int, other: SetId, now: int)
    ensures IsHeld(Placed(r, id, at), id, now) <==> id in r.removed || now < at + 90
    ensures other != id ==> (IsHeld(Placed(r, id, at), other, now) <==> IsHeld(r, other, now))
    ensures Placed(r, id, at).removed == r.removed
  {}

  // ----- the lazily expiring map against the simple specification -----

  /** For any clock at all: the registry answers what the simple specification says, except for
      a lease somebody already saw lapse, which stays gone even if the clock is set back. */
  lemma AnswersTheSpecExactlyUnlessLapseSeen(log: seq<Event>, r: Registry, id: SetId, now: int)
    requires Tells(log, r)
    ensures IsHeld(r, id, now) <==>
      RemovalStands(log, id) || (HeldForEditing(log, id, now) && !LapseSeen(log, id))
  {}

  /** Timestamps on record never run ahead of now, and never backwards. */
  ghost predicate Monotone(log: seq<Event>, now: int)
  {
    log == [] ||
      var e, before := log[|log| - 1], log[..|log| - 1];
      match e
      case Place(_, at) => at <= now && Monotone(before, at)
      case ReadLease(_, at) => at <= now && Monotone(before, at)
      case _ => Monotone(before, now)
  }

  /** A lease seen to lapse is one the clock has left behind. */
  lemma {:induction false} SeenLapseIsPast(log: seq<Event>, id: SetId, now: int)
    requires Monotone(log, now) && LapseSeen(log, id)
    ensures LatestPlacement(log, id).Some? && now >= LatestPlacement(log, id).value + LEASE
  {
    var e, before := log[|log| - 1], log[..|log| - 1];
    var asOf := if e.Place? || e.ReadLease? then e.at else now;
    if LapseSeen(before, id) { SeenLapseIsPast(before, id, asOf); }
  }

  /** With a clock that never runs backwards the lazy deletion is invisible: held exactly when
      removal-held, or placed less than a lease ago and not released since. */
  lemma HeldIsTheSimpleSpecification(log: seq<Event>, r: Registry, id: SetId, now: int)
    requires Tells(log, r) && Monotone(log, now)
    ensures IsHeld(r, id, now) <==> RemovalStands(log, id) || HeldForEditing(log, id, now)
  {
    AnswersTheSpecExactlyUnlessLapseSeen(log, r, id, now);
    if LapseSeen(log, id) { SeenLapseIsPast(log, id, now); }
  }

  /** And neither is it in what the edit form is told: the expiry of exactly the lease the simple
      specification calls held. */
  lemma StateIsTheSimpleSpecification(log: seq<Event>, r: Registry, id: SetId, now: int)
    requires Tells(log, r) && Monotone(log, now)
    ensures LeaseHeld(r, id, now) <==> HeldForEditing(log, id, now)
    ensures (if HeldForEditing(log, id, now) && !LapseSeen(log, id) then OnFile(log, id) else None)
         == (if HeldForEditing(log, id, now) then Some(LatestPlacement(log, id).value + LEASE) else None)
  {
    assert id in r.held ==> OnFile(log, id) == Some(r.held[id]);
    assert id in r.held <==> OnFile(log, id).Some?;
    if LapseSeen(log, id) { SeenLapseIsPast(log, id, now); }
  }

  /** Without that clock it is not: a lease read after its expiry is not held again at an
      earlier reading, though the simple specification would have it so. */
  lemma ClockSetBackShows(id: SetId)
    ensures var log := [Event.Place(id, 0), ReadLease(id, 90)];
      HeldForEditing(log, id, 10) && LapseSeen(log, id) && OnFile(log, id).None?
  {}
}
