/** Every configuration write, step by step, with everything that can happen between two of its
    steps: other calls arriving, cycles running on whatever configuration they started with,
    edit leases coming and going, and the file being edited by hand. One lock is held from
    before the file is read until after the live configuration is swapped. */
module HoldProtocol {
  import opened Wrappers
  import opened Config
  import opened EditHolds

  datatype CallId = CallId(n: nat)
  datatype CycleId = CycleId(n: nat)

  datatype Op =
    | Remove(id: SetId)
    | Create(id: SetId, bs: BackupSet)
    | Edit(id: SetId, bs: BackupSet)
    | Toggle(id: SetId, disabled: bool)
    | Other

  /** What an operation makes of the file it read; none when the set it names is not there. */
  function Effect(op: Op, cfg: Config): Option<Config>
  {
    match op
    case Remove(id) => if Find(cfg, id).Some? then Some(Without(cfg, id)) else None
    case Create(id, bs) => Some(WithAdded(cfg, id.source, bs.(name := id.name)))
    case Edit(id, bs) => if Find(cfg, id).Some? then Some(WithReplaced(cfg, id, bs.(name := id.name))) else None
    case Toggle(id, disabled) => if Find(cfg, id).Some? then Some(Toggled(cfg, id, disabled)) else None
    case Other => Some(cfg)
  }

  /** Where the call that holds the lock stands. */
  datatype Phase =
    | Free
    | Locked(t: CallId, op: Op)
    | Loaded(t: CallId, op: Op, next: Config)
    | Holding(t: CallId, op: Op, next: Config)
    | Written(t: CallId, op: Op, next: Config)
    | Swapped(t: CallId, op: Op, next: Config)
    | GivingBack(t: CallId, op: Op, renamed: bool)
    | Leaving(t: CallId, wrote: bool)

  /** disk is what config.yaml parses as, if it does. entry is the set of removal holds the lock
      holder found when it took the lock. out is history: the ids a removal has taken out of
      the file and no configuration swapped in since names. */
  datatype State = State(
    disk: Option<Config>,
    live: Config,
    reg: Registry,
    phase: Phase,
    waiting: map<CallId, Op>,
    cycles: map<CycleId, Config>,
    entry: set<SetId>,
    out: set<SetId>)

  datatype Step =
    | Arrive(t: CallId, op: Op)
    | Acquire(t: CallId)
    | Load
    | Hold
    | Fail          // load, validation, encoding, or a write that left the old file in place
    | WriteOk
    | WriteErrNew   // the rename happened, the directory sync did not
    | Swap
    | Forget
    | GiveBack
    | Unlock
    | HandEdit(file: Option<Config>)
    | CycleStart(c: CycleId)
    | CycleCheck(c: CycleId, id: SetId, now: int)
    | PlaceLease(id: SetId, now: int)
    | EndLease(id: SetId)

  /** A removal writes only with its hold in place; nothing is written Validate would refuse. */
  ghost predicate ReadyToWrite(s: State)
  {
    && (s.phase.Holding? || (s.phase.Loaded? && !s.phase.op.Remove?))
    && Unique(s.phase.next)
  }

  ghost predicate Enabled(s: State, step: Step)
  {
    match step
    case Arrive(t, op) => t !in s.waiting && (op.Remove? ==> op.id in Ids(s.live))
    case Acquire(t) => s.phase.Free? && t in s.waiting
    case Load => s.phase.Locked? && s.disk.Some? && Effect(s.phase.op, s.disk.value).Some?
    case Hold => s.phase.Loaded? && s.phase.op.Remove?
    case Fail => s.phase.Locked? || s.phase.Loaded? || s.phase.Holding?
    case WriteOk => ReadyToWrite(s)
    case WriteErrNew => ReadyToWrite(s)
    case Swap => s.phase.Written?
    case Forget => s.phase.Swapped?
    case GiveBack => s.phase.GivingBack? && s.phase.op.Remove?
    case Unlock => s.phase.Leaving?
    case HandEdit(_) => true
    case CycleStart(c) => c !in s.cycles
    case CycleCheck(c, id, _) => c in s.cycles && id in Ids(s.cycles[c])
    case PlaceLease(_, _) => true
    case EndLease(_) => true
  }

  /** What a write that replaced the file adds to the ids taken out. */
  function TakenOut(op: Op, next: Config): set<SetId>
  {
    if op.Remove? && op.id !in Ids(next) then {op.id} else {}
  }

  ghost function Apply(s: State, step: Step): State
    requires Enabled(s, step)
  {
    match step
    case Arrive(t, op) => s.(waiting := s.waiting[t := op])
    case Acquire(t) =>
      s.(phase := Locked(t, s.waiting[t]), waiting := s.waiting - {t}, entry := s.reg.removed)
    case Load => s.(phase := Loaded(s.phase.t, s.phase.op, Effect(s.phase.op, s.disk.value).value))
    case Hold =>
      s.(phase := Holding(s.phase.t, s.phase.op, s.phase.next), reg := RemovalHeld(s.reg, s.phase.op.id))
    case Fail =>
      s.(phase := if s.phase.Holding? then GivingBack(s.phase.t, s.phase.op, false) else Leaving(s.phase.t, false))
    case WriteOk =>
      s.(disk := Some(s.phase.next), phase := Written(s.phase.t, s.phase.op, s.phase.next),
         out := s.out + TakenOut(s.phase.op, s.phase.next))
    case WriteErrNew =>
      s.(disk := Some(s.phase.next), out := s.out + TakenOut(s.phase.op, s.phase.next),
         phase := if s.phase.Holding? then GivingBack(s.phase.t, s.phase.op, true) else Leaving(s.phase.t, false))
    case Swap =>
      s.(live := s.phase.next, out := s.out - Ids(s.phase.next), phase := Swapped(s.phase.t, s.phase.op, s.phase.next))
    case Forget => s.(reg := RemovalsForgotten(s.reg, Ids(s.phase.next)), phase := Leaving(s.phase.t, true))
    case GiveBack => s.(reg := RemovalsForgotten(s.reg, {s.phase.op.id}), phase := Leaving(s.phase.t, false))
    case Unlock => s.(phase := Free)
    case HandEdit(file) => s.(disk := file)
    case CycleStart(c) => s.(cycles := s.cycles[c := s.live])
    case CycleCheck(_, id, now) => s.(reg := HeldRead(s.reg, id, now))
    case PlaceLease(id, now) => s.(reg := Placed(s.reg, id, now))
    case EndLease(id) => s.(reg := Released(s.reg, id))
  }

  ghost function Run(s: State, steps: seq<Step>): Option<State>
  {
    if steps == [] then Some(s)
    else
      match Run(s, steps[..|steps| - 1])
      case None => None
      case Some(m) => if Enabled(m, steps[|steps| - 1]) then Some(Apply(m, steps[|steps| - 1])) else None
  }

  /** A process that has just loaded its configuration. */
  function Boot(cfg: Config): State
  {
    State(Some(cfg), cfg, Registry(map[], {}, 0), Free, map[], map[], {}, {})
  }

  // ----- a set the configuration names is never removal-held -----

  ghost predicate Inv(s: State)
  {
    var held, names := s.reg.removed, Ids(s.live);
    match s.phase
    case Holding(_, op, next) => op.Remove? && op.id in held && held - {op.id} !! names
    case Written(_, op, next) => if op.Remove? then op.id in held && held - {op.id} !! names else held !! names
    case Swapped(_, _, next) => s.live == next
    case GivingBack(_, op, _) => op.Remove? && op.id in held && held - {op.id} !! names
    case _ => held !! names
  }

  lemma StepKeepsInv(s: State, step: Step)
    requires Inv(s) && Enabled(s, step)
    ensures Inv(Apply(s, step))
  {}

  lemma {:induction false} RunKeepsInv(cfg: Config, steps: seq<Step>, s: State)
    requires Run(Boot(cfg), steps) == Some(s)
    ensures Inv(s)
  {
    if steps != [] {
      var m := Run(Boot(cfg), steps[..|steps| - 1]).value;
      RunKeepsInv(cfg, steps[..|steps| - 1], m);
      StepKeepsInv(m, steps[|steps| - 1]);
    }
  }

  /** Over every run, hand edits and every kind of failed write included: whenever the lock is
      free, no id the live configuration names is removal-held. */
  lemma NoConfiguredSetIsRemovalHeld(cfg: Config, steps: seq<Step>, s: State)
    requires Run(Boot(cfg), steps) == Some(s) && s.phase.Free?
    ensures s.reg.removed !! Ids(s.live)
  {
    RunKeepsInv(cfg, steps, s);
  }

  // ----- a set taken out answers Held until it is configured again -----

  ghost predicate Protected(s: State)
  {
    s.out <= s.reg.removed
  }

  /** While a removal is under way, and after, its id is configured live only in the window
      between the write and the swap. */
  ghost predicate OutIsNotLive(s: State)
  {
    match s.phase
    case Written(_, op, _) => if op.Remove? then s.out - {op.id} !! Ids(s.live) else s.out !! Ids(s.live)
    case GivingBack(_, op, renamed) => if renamed && op.Remove? then s.out - {op.id} !! Ids(s.live) else s.out !! Ids(s.live)
    case _ => s.out !! Ids(s.live)
  }

  /** A removal that failed is clean if it left the old file in place and the live configuration
      still names its set: what an operator expects of a call that answered with an error. */
  ghost predicate Clean(s: State, step: Step)
    requires Enabled(s, step)
  {
    step.GiveBack? ==> !s.phase.renamed && s.phase.op.id in Ids(s.live)
  }

  ghost predicate CleanRun(s: State, steps: seq<Step>)
  {
    steps == [] ||
      var before := steps[..|steps| - 1];
      CleanRun(s, before) &&
      match Run(s, before)
      case None => false
      case Some(m) => Enabled(m, steps[|steps| - 1]) && Clean(m, steps[|steps| - 1])
  }

  lemma CleanStepProtects(s: State, step: Step)
    requires Inv(s) && Protected(s) && OutIsNotLive(s) && Enabled(s, step) && Clean(s, step)
    ensures Protected(Apply(s, step)) && OutIsNotLive(Apply(s, step))
  {}

  lemma {:induction false} CleanRunProtects(cfg: Config, steps: seq<Step>, s: State)
    requires Run(Boot(cfg), steps) == Some(s) && CleanRun(Boot(cfg), steps)
    ensures Inv(s) && Protected(s) && OutIsNotLive(s)
  {
    if steps != [] {
      var m := Run(Boot(cfg), steps[..|steps| - 1]).value;
      CleanRunProtects(cfg, steps[..|steps| - 1], m);
      StepKeepsInv(m, steps[|steps| - 1]);
      CleanStepProtects(m, steps[|steps| - 1]);
    }
  }

  /** The id a removal is working on, from before its write to the end of the swap. */
  predicate BeingRemoved(s: State, id: SetId)
  {
    (s.phase.Holding? || s.phase.Written?) && s.phase.op == Remove(id)
  }

  /** The main result: in every run whose failed removals were clean, hand edits and cycles on
      snapshots of any age included, a removed id answers Held from before the write that takes
      it out until a configuration that names it is live, at any reading of the clock; so no
      cycle's check lets a pass over it start in that window. */
  lemma RemovedSetIsNeverProcessed(cfg: Config, steps: seq<Step>, s: State, id: SetId, now: int)
    requires Run(Boot(cfg), steps) == Some(s) && CleanRun(Boot(cfg), steps)
    requires id in s.out || BeingRemoved(s, id)
    ensures IsHeld(s.reg, id, now)
  {
    CleanRunProtects(cfg, steps, s);
  }

  /** And cleanliness is exactly what it takes: from a protected state the one step that can
      leave an id taken out unheld is a failed removal giving back a hold on it. */
  lemma ProtectionLostExactlyByAGiveBack(s: State, step: Step)
    requires Inv(s) && Protected(s) && Enabled(s, step)
    requires s.phase.Swapped? ==> s.out !! Ids(s.live)
    ensures Protected(Apply(s, step)) <==> !(step.GiveBack? && s.phase.op.id in s.out)
  {}

  // ----- runs with no hand edit, in which a write error leaves the old file -----

  predicate Quiet(steps: seq<Step>)
  {
    forall i :: 0 <= i < |steps| ==> !steps[i].HandEdit? && !steps[i].WriteErrNew?
  }

  ghost predicate QuietInv(s: State)
  {
    && s.disk.Some? && Unique(s.disk.value)
    && (!s.phase.Written? ==> s.disk.value == s.live)
    && match s.phase
       case Locked(_, _) => s.reg.removed == s.entry
       case Loaded(_, op, next) =>
         && s.reg.removed == s.entry && Effect(op, s.live) == Some(next)
         && (op.Remove? ==> op.id in Ids(s.live))
       case Holding(_, op, next) =>
         && op.Remove? && op.id in Ids(s.live) && op.id !in s.entry
         && s.reg.removed == s.entry + {op.id} && next == Without(s.live, op.id)
       case Written(_, op, next) =>
         && s.disk.value == next && (op.Remove? ==> op.id !in Ids(next))
       case GivingBack(_, op, renamed) =>
         && op.Remove? && !renamed && op.id in Ids(s.live) && op.id !in s.entry
         && s.reg.removed == s.entry + {op.id}
       case Leaving(_, wrote) => !wrote ==> s.reg.removed == s.entry
       case _ => true
  }

  lemma QuietStep(s: State, step: Step)
    requires Inv(s) && QuietInv(s) && Enabled(s, step) && !step.HandEdit? && !step.WriteErrNew?
    ensures QuietInv(Apply(s, step)) && Clean(s, step)
  {
    if step.Load? && s.phase.op.Remove? {
      FoundIffNamed(s.live, s.phase.op.id);
    }
    if step.WriteOk? && s.phase.op.Remove? {
      IdsWithout(s.live, s.phase.op.id);
    }
  }

  lemma {:induction false} QuietRun(cfg: Config, steps: seq<Step>, s: State)
    requires Unique(cfg) && Quiet(steps) && Run(Boot(cfg), steps) == Some(s)
    ensures Inv(s) && QuietInv(s) && CleanRun(Boot(cfg), steps)
  {
    if steps != [] {
      var m := Run(Boot(cfg), steps[..|steps| - 1]).value;
      QuietRun(cfg, steps[..|steps| - 1], m);
      QuietStep(m, steps[|steps| - 1]);
      StepKeepsInv(m, steps[|steps| - 1]);
    }
  }

  /** Without hand edits every interleaving is safe, however many removals race. */
  lemma QuietRunsAreSafe(cfg: Config, steps: seq<Step>, s: State, id: SetId, now: int)
    requires Unique(cfg) && Quiet(steps) && Run(Boot(cfg), steps) == Some(s)
    requires id in s.out || BeingRemoved(s, id)
    ensures IsHeld(s.reg, id, now)
  {
    QuietRun(cfg, steps, s);
    RemovedSetIsNeverProcessed(cfg, steps, s, id, now);
  }

  /** Whose hold it is. A call about to give one back took it itself under this very hold of the
      lock, on a set that is still in the file and that nobody had removed; and a call that
      leaves without having written, winner's hold or not, leaves the removal holds exactly as
      it found them. So of two removals racing on one id the loser neither places nor drops
      anything. */
  lemma FailedCallLeavesHoldsAsFound(cfg: Config, steps: seq<Step>, s: State)
    requires Unique(cfg) && Quiet(steps) && Run(Boot(cfg), steps) == Some(s)
    ensures s.phase.GivingBack? ==>
      && s.phase.op.Remove? && s.disk.Some? && s.phase.op.id in Ids(s.disk.value)
      && s.phase.op.id !in s.entry && s.phase.op.id !in s.out
      && s.reg.removed == s.entry + {s.phase.op.id}
    ensures s.phase.Leaving? && !s.phase.wrote ==> s.reg.removed == s.entry
  {
    QuietRun(cfg, steps, s);
    CleanRunProtects(cfg, steps, s);
  }

  // ----- the two ways a failed removal can leave a set unprotected -----

  predicate NoHandEdit(steps: seq<Step>)
  {
    forall i :: 0 <= i < |steps| ==> !steps[i].HandEdit?
  }

  lemma Next(s: State, steps: seq<Step>, m: State, step: Step) returns (longer: seq<Step>, n: State)
    requires Run(s, steps) == Some(m) && Enabled(m, step)
    ensures n == Apply(m, step) && Run(s, longer) == Some(n)
    ensures NoHandEdit(steps) && !step.HandEdit? ==> NoHandEdit(longer)
  {
    longer, n := steps + [step], Apply(m, step);
    assert longer[..|longer| - 1] == steps;
  }

  /** One call from taking the lock to having put its file in place: for a removal, hold and all. */
  lemma UpToTheWrite(cfg: Config, steps: seq<Step>, m: State, t: CallId, write: Step) returns (longer: seq<Step>, n: State)
    requires Run(Boot(cfg), steps) == Some(m) && m.phase.Free? && t in m.waiting
    requires m.disk.Some? && Effect(m.waiting[t], m.disk.value).Some? && Unique(Effect(m.waiting[t], m.disk.value).value)
    requires write.WriteOk? || write.WriteErrNew? || (write.Fail? && m.waiting[t].Remove?)
    ensures Run(Boot(cfg), longer) == Some(n) && (NoHandEdit(steps) ==> NoHandEdit(longer))
    ensures
      var op, next := m.waiting[t], Effect(m.waiting[t], m.disk.value).value;
      var reg := if op.Remove? then RemovalHeld(m.reg, op.id) else m.reg;
      n == m.(
        reg := reg, waiting := m.waiting - {t}, entry := m.reg.removed,
        disk := if write.Fail? then m.disk else Some(next),
        out := if write.Fail? then m.out else m.out + TakenOut(op, next),
        phase := if write.WriteOk? then Written(t, op, next)
                 else if op.Remove? then GivingBack(t, op, write.WriteErrNew?) else Leaving(t, false))
  {
    longer, n := Next(Boot(cfg), steps, m, Acquire(t));
    longer, n := Next(Boot(cfg), longer, n, Load);
    if m.waiting[t].Remove? {
      longer, n := Next(Boot(cfg), longer, n, Hold);
    }
    longer, n := Next(Boot(cfg), longer, n, write);
  }

  /** A write that succeeded, carried to the end of the call. */
  lemma ToTheEnd(cfg: Config, steps: seq<Step>, m: State) returns (longer: seq<Step>, n: State)
    requires Run(Boot(cfg), steps) == Some(m) && m.phase.Written?
    ensures Run(Boot(cfg), longer) == Some(n) && (NoHandEdit(steps) ==> NoHandEdit(longer))
    ensures n == m.(live := m.phase.next, out := m.out - Ids(m.phase.next),
                    reg := RemovalsForgotten(m.reg, Ids(m.phase.next)), phase := Free)
  {
    longer, n := Next(Boot(cfg), steps, m, Swap);
    longer, n := Next(Boot(cfg), longer, n, Forget);
    longer, n := Next(Boot(cfg), longer, n, Unlock);
  }

  /** The file put back by hand between two removals of one set, the second of which fails: it
      gives back the first one's hold, and a cycle on the old snapshot is free to process a set
      the live configuration does not name. */
  lemma HandEditThenFailedRemovalUnprotects(cfg: Config, id: SetId) returns (steps: seq<Step>, s: State)
    requires Unique(cfg) && id in Ids(cfg)
    ensures Run(Boot(cfg), steps) == Some(s) && s.phase.Leaving?
    ensures id in s.out && id !in Ids(s.live) && forall now :: !IsHeld(s.reg, id, now)
    ensures exists c :: Enabled(s, CycleCheck(c, id, 0))
  {
    FoundIffNamed(cfg, id);
    WithoutStaysUnique(cfg, id);
    IdsWithout(cfg, id);
    var first, second, c := CallId(1), CallId(2), CycleId(1);
    steps, s := Next(Boot(cfg), [], Boot(cfg), CycleStart(c));
    steps, s := Next(Boot(cfg), steps, s, Arrive(first, Remove(id)));
    steps, s := Next(Boot(cfg), steps, s, Arrive(second, Remove(id)));
    steps, s := UpToTheWrite(cfg, steps, s, first, WriteOk);
    steps, s := ToTheEnd(cfg, steps, s);
    steps, s := Next(Boot(cfg), steps, s, HandEdit(Some(cfg)));
    steps, s := UpToTheWrite(cfg, steps, s, second, Fail);
    steps, s := Next(Boot(cfg), steps, s, GiveBack);
    assert Enabled(s, CycleCheck(c, id, 0));
  }

  /** A removal whose rename happened and whose directory sync did not: it answers with an error
      and gives its hold back, the live configuration still names the set, the file does not. */
  lemma RenamedButUnsyncedRemoval(cfg: Config, id: SetId, c: CycleId, other: CallId) returns (steps: seq<Step>, s: State)
    requires Unique(cfg) && id in Ids(cfg) && other != CallId(1)
    ensures Run(Boot(cfg), steps) == Some(s) && NoHandEdit(steps)
    ensures s == State(Some(Without(cfg, id)), cfg, Registry(map[], {}, 1), Free,
                       map[other := Other], map[c := cfg], {}, {id})
  {
    FoundIffNamed(cfg, id);
    WithoutStaysUnique(cfg, id);
    IdsWithout(cfg, id);
    steps, s := Next(Boot(cfg), [], Boot(cfg), CycleStart(c));
    steps, s := Next(Boot(cfg), steps, s, Arrive(CallId(1), Remove(id)));
    steps, s := Next(Boot(cfg), steps, s, Arrive(other, Other));
    steps, s := UpToTheWrite(cfg, steps, s, CallId(1), WriteErrNew);
    steps, s := Next(Boot(cfg), steps, s, GiveBack);
    steps, s := Next(Boot(cfg), steps, s, Unlock);
    assert s.waiting == map[other := Other] && s.reg.removed == {} && s.out == {id};
  }

  /** The next write of anything else then takes the set out of the live configuration too, with
      nothing held, while a cycle on the old snapshot runs on. */
  lemma RenamedButUnsyncedRemovalUnprotects(cfg: Config, id: SetId) returns (steps: seq<Step>, s: State)
    requires Unique(cfg) && id in Ids(cfg)
    ensures Run(Boot(cfg), steps) == Some(s) && NoHandEdit(steps) && s.phase.Free?
    ensures id in s.out && id !in Ids(s.live) && forall now :: !IsHeld(s.reg, id, now)
    ensures exists c :: Enabled(s, CycleCheck(c, id, 0))
  {
    var c, other := CycleId(1), CallId(2);
    steps, s := RenamedButUnsyncedRemoval(cfg, id, c, other);
    WithoutStaysUnique(cfg, id);
    IdsWithout(cfg, id);
    steps, s := UpToTheWrite(cfg, steps, s, other, WriteOk);
    steps, s := ToTheEnd(cfg, steps, s);
    assert Enabled(s, CycleCheck(c, id, 0));
  }
}
