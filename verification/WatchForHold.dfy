/** The watcher each running pass starts: fetch the broadcast channel, ask whether the set is
    held, wait. One channel for all sets; it is closed and replaced on every placement. Any
    number of watchers and any number of other callers run between any two of its steps, each
    reading the clock for itself, and the clock may run in any direction. */
module WatchForHold {
  import opened Wrappers
  import opened Config
  import opened EditHolds

  /** A channel is named by how many were closed before it, so channel c is closed exactly when
      the registry has moved past it. */
  datatype Pc =
    | Fetching
    | Checking(ch: nat)
    | Waiting(ch: nat)
    | Fired
    | Ended

  datatype WatcherId = WatcherId(n: nat)

  datatype Watcher = Watcher(id: SetId, pc: Pc)

  datatype State = State(reg: Registry, watchers: map<WatcherId, Watcher>)

  datatype Step =
    // anyone
    | PlaceHold(id: SetId, now: int)
    | ReleaseHold(id: SetId)
    | HoldRemoval(id: SetId)
    | Forget(ids: set<SetId>)
    | AskHeld(id: SetId, now: int)
    | Start(w: WatcherId, id: SetId)
    // one watcher
    | Fetch(w: WatcherId)
    | Check(w: WatcherId, now: int)
    | Wake(w: WatcherId)
    | PassEnds(w: WatcherId)

  predicate Closed(s: State, ch: nat)
  {
    ch < s.reg.gen
  }

  predicate Enabled(s: State, step: Step)
  {
    match step
    case Start(w, _) => w !in s.watchers
    case Fetch(w) => w in s.watchers && s.watchers[w].pc.Fetching?
    case Check(w, _) => w in s.watchers && s.watchers[w].pc.Checking?
    case Wake(w) => w in s.watchers && s.watchers[w].pc.Waiting? && Closed(s, s.watchers[w].pc.ch)
    case PassEnds(w) => w in s.watchers && s.watchers[w].pc.Waiting?
    case _ => true
  }

  function At(s: State, w: WatcherId, pc: Pc): State
    requires w in s.watchers
  {
    s.(watchers := s.watchers[w := Watcher(s.watchers[w].id, pc)])
  }

  function Apply(s: State, step: Step): State
    requires Enabled(s, step)
  {
    match step
    case PlaceHold(id, now) => s.(reg := Placed(s.reg, id, now))
    case ReleaseHold(id) => s.(reg := Released(s.reg, id))
    case HoldRemoval(id) => s.(reg := RemovalHeld(s.reg, id))
    case Forget(ids) => s.(reg := RemovalsForgotten(s.reg, ids))
    case AskHeld(id, now) => s.(reg := HeldRead(s.reg, id, now))
    case Start(w, id) => s.(watchers := s.watchers[w := Watcher(id, Fetching)])
    case Fetch(w) => At(s, w, Checking(s.reg.gen))
    case Check(w, now) =>
      var id, ch := s.watchers[w].id, s.watchers[w].pc.ch;
      var after := s.(reg := HeldRead(s.reg, id, now));
      At(after, w, if IsHeld(s.reg, id, now) then Fired else Waiting(ch))
    case Wake(w) => At(s, w, Fetching)
    case PassEnds(w) => At(s, w, Ended)
  }

  /** The state after a sequence of steps, or none if one of them could not be taken. */
  function Run(s: State, steps: seq<Step>): Option<State>
  {
    if steps == [] then Some(s)
    else
      match Run(s, steps[..|steps| - 1])
      case None => None
      case Some(m) => if Enabled(m, steps[|steps| - 1]) then Some(Apply(m, steps[|steps| - 1])) else None
  }

  const INITIAL := State(Registry(map[], {}, 0), map[])

  // ----- no wake-up is lost -----

  /** A watcher still waiting on the open channel watches a set nobody has a hold on file for. */
  ghost predicate Inv(s: State)
  {
    forall w :: w in s.watchers ==>
      match s.watchers[w].pc
      case Checking(ch) => ch <= s.reg.gen
      case Waiting(ch) =>
        && ch <= s.reg.gen
        && (ch == s.reg.gen ==> s.watchers[w].id !in s.reg.held && s.watchers[w].id !in s.reg.removed)
      case _ => true
  }

  lemma StepKeepsInv(s: State, step: Step)
    requires Inv(s) && Enabled(s, step)
    ensures Inv(Apply(s, step))
  {}

  lemma {:induction false} RunKeepsInv(steps: seq<Step>, s: State)
    requires Run(INITIAL, steps) == Some(s)
    ensures Inv(s)
  {
    if steps != [] {
      var before := Run(INITIAL, steps[..|steps| - 1]).value;
      RunKeepsInv(steps[..|steps| - 1], before);
      StepKeepsInv(before, steps[|steps| - 1]);
    }
  }

  /** In every run, whoever did what in between: a watcher that waits while its set is held, at
      any reading of the clock, waits on a channel that is already closed. */
  lemma NoLostWakeUp(steps: seq<Step>, s: State, w: WatcherId, now: int)
    requires Run(INITIAL, steps) == Some(s)
    requires w in s.watchers && s.watchers[w].pc.Waiting? && IsHeld(s.reg, s.watchers[w].id, now)
    ensures Closed(s, s.watchers[w].pc.ch) && Enabled(s, Wake(w))
  {
    RunKeepsInv(steps, s);
  }

  // ----- and the pass is stopped -----

  /** How many steps of its own a running watcher is away from cancelling its pass. */
  function Distance(pc: Pc): nat
  {
    match pc
    case Waiting(_) => 3
    case Fetching => 2
    case Checking(_) => 1
    case Fired => 0
    case Ended => 0
  }

  function OwnStep(s: State, w: WatcherId, now: int): Step
    requires w in s.watchers
  {
    match s.watchers[w].pc
    case Waiting(_) => Wake(w)
    case Fetching => Fetch(w)
    case _ => Check(w, now)
  }

  predicate IsOwn(w: WatcherId, step: Step)
  {
    step == Fetch(w) || step == Wake(w) || (step.Check? && step.w == w)
  }

  /** Under a removal hold a running watcher is never stuck: its own step can be taken, at any
      reading of the clock. */
  lemma RemovalNeverBlocks(steps: seq<Step>, s: State, w: WatcherId, now: int)
    requires Run(INITIAL, steps) == Some(s)
    requires w in s.watchers && s.watchers[w].id in s.reg.removed && Distance(s.watchers[w].pc) > 0
    ensures IsOwn(w, OwnStep(s, w, now)) && Enabled(s, OwnStep(s, w, now))
  {
    if s.watchers[w].pc.Waiting? {
      NoLostWakeUp(steps, s, w, now);
    }
  }

  /** Each step of its own brings it one closer, and no other step but the end of the pass moves
      it at all. */
  lemma RemovalBringsItCloser(s: State, w: WatcherId, step: Step)
    requires w in s.watchers && s.watchers[w].id in s.reg.removed && !s.watchers[w].pc.Ended?
    requires Enabled(s, step) && step != PassEnds(w)
    ensures
      var t := Apply(s, step);
      && w in t.watchers && t.watchers[w].id == s.watchers[w].id && !t.watchers[w].pc.Ended?
      && Distance(t.watchers[w].pc) == Distance(s.watchers[w].pc) - (if IsOwn(w, step) then 1 else 0)
  {}

  /** The removal hold on id stands at every state of the run from s, and the pass of w does not end
      by itself. */
  ghost predicate Standing(s: State, later: seq<Step>, w: WatcherId, id: SetId)
  {
    && (match Run(s, later) case None => true case Some(t) => id in t.reg.removed)
    && (later != [] ==> later[|later| - 1] != PassEnds(w) && Standing(s, later[..|later| - 1], w, id))
  }

  /** How many of the steps are its own. */
  function OwnSteps(w: WatcherId, steps: seq<Step>): nat
  {
    if steps == [] then 0
    else OwnSteps(w, steps[..|steps| - 1]) + if IsOwn(w, steps[|steps| - 1]) then 1 else 0
  }

  lemma {:induction false} EachOwnStepCounts(s: State, later: seq<Step>, t: State, w: WatcherId)
    requires w in s.watchers && !s.watchers[w].pc.Ended?
    requires Run(s, later) == Some(t) && Standing(s, later, w, s.watchers[w].id)
    ensures w in t.watchers && t.watchers[w].id == s.watchers[w].id && !t.watchers[w].pc.Ended?
    ensures Distance(t.watchers[w].pc) + OwnSteps(w, later) == Distance(s.watchers[w].pc)
  {
    if later != [] {
      var front, step := later[..|later| - 1], later[|later| - 1];
      var b := Run(s, front).value;
      EachOwnStepCounts(s, front, b, w);
      RemovalBringsItCloser(b, w, step);
    }
  }

  lemma {:induction false} RunsJoin(s0: State, steps: seq<Step>, s: State, later: seq<Step>)
    requires Run(s0, steps) == Some(s)
    ensures Run(s0, steps + later) == Run(s, later)
  {
    if later == [] {
      assert steps + later == steps;
    } else {
      RunsJoin(s0, steps, s, later[..|later| - 1]);
      assert (steps + later)[..|steps + later| - 1] == steps + later[..|later| - 1];
    }
  }

  /** The pass is stopped. However the steps of a run interleave from any state a run reaches, as
      long as the hold a removal placed stands and the pass has not ended by itself: the watcher
      has fired exactly when it has taken the steps that were left to it, never more than three,
      and until then the next of them can be taken. */
  lemma RemovalStopsThePass(steps: seq<Step>, s: State, later: seq<Step>, t: State, w: WatcherId, now: int)
    requires Run(INITIAL, steps) == Some(s) && Run(s, later) == Some(t)
    requires w in s.watchers && !s.watchers[w].pc.Ended? && Standing(s, later, w, s.watchers[w].id)
    ensures w in t.watchers && OwnSteps(w, later) <= Distance(s.watchers[w].pc) <= 3
    ensures t.watchers[w].pc.Fired? <==> OwnSteps(w, later) == Distance(s.watchers[w].pc)
    ensures !t.watchers[w].pc.Fired? ==> IsOwn(w, OwnStep(t, w, now)) && Enabled(t, OwnStep(t, w, now))
  {
    EachOwnStepCounts(s, later, t, w);
    RunsJoin(INITIAL, steps, s, later);
    if !t.watchers[w].pc.Fired? {
      RemovalNeverBlocks(steps + later, t, w, now);
    }
  }
}
