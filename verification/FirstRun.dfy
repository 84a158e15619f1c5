/** The first configuration there has ever been: any number of processes create it at once, by a
    synced temporary file and a hard link, or where links are not to be had by an exclusive create
    that takes its file back on any failure. */
module FirstRun {
  import opened Wrappers
  import opened Config
  import Trust = HostKeyTrust

  datatype Pid = Pid(n: nat)

  /** What is at the configuration's path: who created it, and what a reader would read now. */
  datatype File = File(owner: Pid, text: string)

  datatype Pc =
    | Looking
    | Preparing
    | TempReady
    | Linked
    | Falling
    | Filling
    | Filled
    | Removing(whole: bool)
    | Won
    | Refused
    | Failed
    | LeftBehind    // answered with an error over a whole file that stays
    | LeftPartial   // answered with an error over a beginning of one that stays

  datatype State = State(file: Option<File>, procs: map<Pid, Pc>)

  datatype Step =
    | Start(p: Pid)
    | Look(p: Pid)
    | WriteTemp(p: Pid)
    | TempFails(p: Pid)
    | Link(p: Pid)
    | LinkUnsupported(p: Pid)
    | OpenExclusively(p: Pid)
    | OpenFails(p: Pid)
    | WriteSome(p: Pid, n: nat)
    | WriteAll(p: Pid)
    | WriteFails(p: Pid)
    | SyncDirectory(p: Pid)
    | SyncDirectoryFails(p: Pid)   // or the sync or the close before it
    | Remove(p: Pid)
    | RemoveFails(p: Pid)          // its error is dropped

  predicate At(s: State, p: Pid, pc: Pc)
  {
    p in s.procs && s.procs[p] == pc
  }

  /** payload is what each process means to write. */
  predicate Enabled(s: State, step: Step, payload: Pid -> string)
  {
    match step
    case Start(p) => p !in s.procs
    case Look(p) => At(s, p, Looking)
    case WriteTemp(p) => At(s, p, Preparing)
    case TempFails(p) => At(s, p, Preparing)
    case Link(p) => At(s, p, TempReady)
    case LinkUnsupported(p) => At(s, p, TempReady)
    case OpenExclusively(p) => At(s, p, Falling)
    case OpenFails(p) => At(s, p, Falling)
    case WriteSome(p, n) => At(s, p, Filling) && n < |payload(p)|
    case WriteAll(p) => At(s, p, Filling)
    case WriteFails(p) => At(s, p, Filling)
    case SyncDirectory(p) => At(s, p, Linked) || At(s, p, Filled)
    case SyncDirectoryFails(p) => At(s, p, Linked) || At(s, p, Filled)
    case Remove(p) => p in s.procs && s.procs[p].Removing?
    case RemoveFails(p) => p in s.procs && s.procs[p].Removing?
  }

  function To(s: State, p: Pid, pc: Pc): State
  {
    s.(procs := s.procs[p := pc])
  }

  function Written(s: State, p: Pid, text: string): State
  {
    if s.file.Some? && s.file.value.owner == p then s.(file := Some(File(p, text))) else s
  }

  /** link and exclusive create fail when anything is there; a write goes to the file its process
      has open; a remove takes whatever is at the path. */
  function After(s: State, step: Step, payload: Pid -> string): State
    requires Enabled(s, step, payload)
  {
    match step
    case Start(p) => To(s, p, Looking)
    case Look(p) => To(s, p, if s.file.Some? then Refused else Preparing)
    case WriteTemp(p) => To(s, p, TempReady)
    case TempFails(p) => To(s, p, Failed)
    case Link(p) =>
      if s.file.Some? then To(s, p, Refused) else To(s, p, Linked).(file := Some(File(p, payload(p))))
    case LinkUnsupported(p) => To(s, p, Falling)
    case OpenExclusively(p) =>
      if s.file.Some? then To(s, p, Refused) else To(s, p, Filling).(file := Some(File(p, "")))
    case OpenFails(p) => To(s, p, Failed)
    case WriteSome(p, n) => Written(s, p, payload(p)[..n])
    case WriteAll(p) => Written(To(s, p, Filled), p, payload(p))
    case WriteFails(p) => To(s, p, Removing(false))
    case SyncDirectory(p) => To(s, p, Won)
    case SyncDirectoryFails(p) => To(s, p, if s.procs[p].Linked? then LeftBehind else Removing(true))
    case Remove(p) => To(s, p, Failed).(file := None)
    case RemoveFails(p) => To(s, p, if s.procs[p].whole then LeftBehind else LeftPartial)
  }

  function Run(s: State, steps: seq<Step>, payload: Pid -> string): Option<State>
  {
    if steps == [] then Some(s)
    else
      match Run(s, steps[..|steps| - 1], payload)
      case None => None
      case Some(m) =>
        if Enabled(m, steps[|steps| - 1], payload) then Some(After(m, steps[|steps| - 1], payload)) else None
  }

  const NOTHING := State(None, map[])

  // ----- whose file it is -----

  /** Where a process stands while, or after, the file at the path is its own. */
  predicate Holds(pc: Pc)
  {
    pc.Linked? || pc.Filling? || pc.Filled? || pc.Removing? || pc.Won? || pc.LeftBehind? || pc.LeftPartial?
  }

  predicate HalfWay(pc: Pc)
  {
    pc.Filling? || pc == Removing(false) || pc.LeftPartial?
  }

  ghost predicate Inv(s: State, payload: Pid -> string)
  {
    && (forall p :: p in s.procs && Holds(s.procs[p]) ==> s.file.Some? && s.file.value.owner == p)
    && (s.file.Some? ==>
          var f := s.file.value;
          && f.owner in s.procs && Holds(s.procs[f.owner])
          && f.text <= payload(f.owner)
          && (!HalfWay(s.procs[f.owner]) ==> f.text == payload(f.owner))
          && (HalfWay(s.procs[f.owner]) && payload(f.owner) != "" ==> f.text != payload(f.owner)))
  }

  lemma StepKeepsInv(s: State, step: Step, payload: Pid -> string)
    requires Inv(s, payload) && Enabled(s, step, payload)
    ensures Inv(After(s, step, payload), payload)
  {}

  lemma {:induction false} RunKeepsInv(steps: seq<Step>, payload: Pid -> string, s: State)
    requires Run(NOTHING, steps, payload) == Some(s)
    ensures Inv(s, payload)
  {
    if steps != [] {
      var m := Run(NOTHING, steps[..|steps| - 1], payload).value;
      RunKeepsInv(steps[..|steps| - 1], payload, m);
      StepKeepsInv(m, steps[|steps| - 1], payload);
    }
  }

  /** However many race and however they fail, at most one is told it succeeded, and the
      configuration is that one's, whole. */
  lemma AtMostOneWins(steps: seq<Step>, payload: Pid -> string, s: State, p: Pid, q: Pid)
    requires Run(NOTHING, steps, payload) == Some(s) && At(s, p, Won)
    ensures s.file == Some(File(p, payload(p)))
    ensures At(s, q, Won) ==> q == p
  {
    RunKeepsInv(steps, payload, s);
  }

  /** No step of any other process changes or removes a creator's file, from the moment it is
      there; and once it has won, no step of its own does either. So no remove, however late, ever
      takes a file another process made. */
  lemma NobodyElseTouchesIt(steps: seq<Step>, payload: Pid -> string, s: State, step: Step)
    requires Run(NOTHING, steps, payload) == Some(s) && Enabled(s, step, payload) && s.file.Some?
    requires step.p != s.file.value.owner || At(s, step.p, Won)
    ensures After(s, step, payload).file == s.file
  {
    RunKeepsInv(steps, payload, s);
  }

  // ----- what a reader can see -----

  /** At every moment a reader finds nothing, or a beginning of one creator's bytes; all of them
      exactly unless that creator is in the middle of the fallback's write, about to take it back,
      or was not able to. */
  lemma ReadersSeeOneCreatorsBytes(steps: seq<Step>, payload: Pid -> string, s: State)
    requires Run(NOTHING, steps, payload) == Some(s) && s.file.Some?
    ensures
      var f := s.file.value;
      && f.owner in s.procs && f.text <= payload(f.owner)
      && (f.text == payload(f.owner) <==> !HalfWay(s.procs[f.owner]) || payload(f.owner) == "")
  {
    RunKeepsInv(steps, payload, s);
  }

  predicate LinksOnly(steps: seq<Step>)
  {
    forall i :: 0 <= i < |steps| ==> !steps[i].LinkUnsupported?
  }

  lemma {:induction false} LinkRouteNeverFalls(steps: seq<Step>, payload: Pid -> string, s: State)
    requires Run(NOTHING, steps, payload) == Some(s) && LinksOnly(steps)
    ensures forall p :: p in s.procs ==>
      !s.procs[p].Falling? && !s.procs[p].Filling? && !s.procs[p].Filled? && !s.procs[p].Removing? && !s.procs[p].LeftPartial?
  {
    if steps != [] {
      var m := Run(NOTHING, steps[..|steps| - 1], payload).value;
      LinkRouteNeverFalls(steps[..|steps| - 1], payload, m);
    }
  }

  /** By the link route alone: nothing, or one creator's complete bytes, always. */
  lemma LinkRouteIsAllOrNothing(steps: seq<Step>, payload: Pid -> string, s: State)
    requires Run(NOTHING, steps, payload) == Some(s) && LinksOnly(steps)
    ensures s.file.None? || s.file == Some(File(s.file.value.owner, payload(s.file.value.owner)))
  {
    RunKeepsInv(steps, payload, s);
    LinkRouteNeverFalls(steps, payload, s);
  }

  predicate Settled(pc: Pc)
  {
    pc.Won? || pc.Refused? || pc.Failed? || pc.LeftBehind? || pc.LeftPartial?
  }

  predicate WholeOrAbsent(s: State, payload: Pid -> string)
  {
    s.file.Some? ==> s.file.value.text == payload(s.file.value.owner)
  }

  /** Once every process that started has answered, the path holds a whole configuration or nothing
      at all, exactly unless a fallback failed in its write and then could not take back what it had
      written. Something is there exactly when somebody won, or an error was answered over a file
      that stayed. */
  lemma WholeOrAbsentExactlyUnlessARemoveFailed(steps: seq<Step>, payload: Pid -> string, s: State)
    requires Run(NOTHING, steps, payload) == Some(s)
    requires forall p :: p in s.procs ==> Settled(s.procs[p])
    ensures WholeOrAbsent(s, payload) <==> !exists p :: At(s, p, LeftPartial) && payload(p) != ""
    ensures s.file.Some? <==> exists p :: At(s, p, Won) || At(s, p, LeftBehind) || At(s, p, LeftPartial)
  {
    RunKeepsInv(steps, payload, s);
    if s.file.Some? {
      var p := s.file.value.owner;
      assert At(s, p, Won) || At(s, p, LeftBehind) || At(s, p, LeftPartial);
    }
  }

  predicate RemovesWork(steps: seq<Step>)
  {
    forall i :: 0 <= i < |steps| ==> !steps[i].RemoveFails?
  }

  lemma {:induction false} NoPartialIfRemovesWork(steps: seq<Step>, payload: Pid -> string, s: State)
    requires Run(NOTHING, steps, payload) == Some(s) && RemovesWork(steps)
    ensures forall p :: !At(s, p, LeftPartial)
  {
    if steps != [] {
      var before := steps[..|steps| - 1];
      assert forall i :: 0 <= i < |before| ==> before[i] == steps[i];
      var m := Run(NOTHING, before, payload).value;
      NoPartialIfRemovesWork(before, payload, m);
      assert !steps[|steps| - 1].RemoveFails?;
      forall p ensures !At(s, p, LeftPartial) {
        assert !At(m, p, LeftPartial);
      }
    }
  }

  /** So as long as removes work nothing is left bricked. */
  lemma WholeOrAbsentIfRemovesWork(steps: seq<Step>, payload: Pid -> string, s: State)
    requires Run(NOTHING, steps, payload) == Some(s) && RemovesWork(steps)
    requires forall p :: p in s.procs ==> Settled(s.procs[p])
    ensures WholeOrAbsent(s, payload)
  {
    NoPartialIfRemovesWork(steps, payload, s);
    WholeOrAbsentExactlyUnlessARemoveFailed(steps, payload, s);
  }

  predicate AllBy(steps: seq<Step>, p: Pid)
  {
    forall i :: 0 <= i < |steps| ==> steps[i].p == p
  }

  /** Over anything at all, a partial file included, nobody who comes later gets anywhere: it is
      refused or fails, and what is there stays. */
  lemma {:induction false} NobodyGetsPastWhatIsThere(s0: State, steps: seq<Step>, payload: Pid -> string, s: State, p: Pid)
    requires s0.file.Some? && p !in s0.procs && AllBy(steps, p) && Run(s0, steps, payload) == Some(s)
    ensures s.file == s0.file && (p in s.procs ==> s.procs[p].Looking? || s.procs[p].Refused?)
  {
    if steps != [] {
      var before := steps[..|steps| - 1];
      assert forall i :: 0 <= i < |before| ==> before[i] == steps[i];
      NobodyGetsPastWhatIsThere(s0, before, payload, Run(s0, before, payload).value, p);
    }
  }

  lemma Next(s0: State, steps: seq<Step>, m: State, step: Step, payload: Pid -> string) returns (longer: seq<Step>, n: State)
    requires Run(s0, steps, payload) == Some(m) && Enabled(m, step, payload)
    ensures n == After(m, step, payload) && Run(s0, longer, payload) == Some(n)
    ensures LinksOnly(steps) && !step.LinkUnsupported? ==> LinksOnly(longer)
  {
    longer, n := steps + [step], After(m, step, payload);
    assert longer[..|longer| - 1] == steps;
  }

  lemma UpToTheTemp(s: State, p: Pid, payload: Pid -> string) returns (steps: seq<Step>)
    requires s.file.None? && p !in s.procs
    ensures Run(s, steps, payload) == Some(To(s, p, TempReady)) && LinksOnly(steps)
  {
    var n;
    steps, n := Next(s, [], s, Start(p), payload);
    steps, n := Next(s, steps, n, Look(p), payload);
    steps, n := Next(s, steps, n, WriteTemp(p), payload);
    assert n.procs == s.procs[p := TempReady];
  }

  /** Whenever nothing is there, whoever comes next can still create it, by either route: a failure
      that left nothing is not in the way. */
  lemma NextOneCanCreateIt(s: State, p: Pid, payload: Pid -> string, links: bool) returns (steps: seq<Step>)
    requires s.file.None? && p !in s.procs
    ensures Run(s, steps, payload) == Some(State(Some(File(p, payload(p))), s.procs[p := Won]))
    ensures links ==> LinksOnly(steps)
  {
    steps := UpToTheTemp(s, p, payload);
    var n := To(s, p, TempReady);
    if links {
      steps, n := Next(s, steps, n, Link(p), payload);
    } else {
      steps, n := Next(s, steps, n, LinkUnsupported(p), payload);
      steps, n := Next(s, steps, n, OpenExclusively(p), payload);
      steps, n := Next(s, steps, n, WriteAll(p), payload);
    }
    steps, n := Next(s, steps, n, SyncDirectory(p), payload);
    assert n.procs == s.procs[p := Won];
  }

  /** The fallback really does show a reader a partial file, where the link route cannot. */
  lemma FallbackShowsAPartialFile(p: Pid, payload: Pid -> string, n: nat) returns (steps: seq<Step>, s: State)
    requires n < |payload(p)|
    ensures Run(NOTHING, steps, payload) == Some(s) && s.file == Some(File(p, payload(p)[..n])) && s.procs == map[p := Filling]
  {
    steps, s := Next(NOTHING, [], NOTHING, Start(p), payload);
    steps, s := Next(NOTHING, steps, s, Look(p), payload);
    steps, s := Next(NOTHING, steps, s, WriteTemp(p), payload);
    steps, s := Next(NOTHING, steps, s, LinkUnsupported(p), payload);
    steps, s := Next(NOTHING, steps, s, OpenExclusively(p), payload);
    steps, s := Next(NOTHING, steps, s, WriteSome(p, n), payload);
  }

  /** And if that process then fails and cannot remove what it wrote, it has answered, and the
      partial file stays. */
  lemma FailedRemoveLeavesAPartialFile(p: Pid, payload: Pid -> string, n: nat) returns (steps: seq<Step>, s: State)
    requires n < |payload(p)|
    ensures Run(NOTHING, steps, payload) == Some(s) && s.file == Some(File(p, payload(p)[..n]))
    ensures s.procs == map[p := LeftPartial]
  {
    steps, s := FallbackShowsAPartialFile(p, payload, n);
    steps, s := Next(NOTHING, steps, s, WriteFails(p), payload);
    steps, s := Next(NOTHING, steps, s, RemoveFails(p), payload);
  }

  /** And the link route can answer with an error over a configuration that is there to stay. */
  lemma LinkedThenErrorStays(p: Pid, payload: Pid -> string) returns (steps: seq<Step>, s: State)
    ensures Run(NOTHING, steps, payload) == Some(s) && LinksOnly(steps)
    ensures At(s, p, LeftBehind) && s.file == Some(File(p, payload(p)))
  {
    steps, s := Next(NOTHING, [], NOTHING, Start(p), payload);
    steps, s := Next(NOTHING, steps, s, Look(p), payload);
    steps, s := Next(NOTHING, steps, s, WriteTemp(p), payload);
    steps, s := Next(NOTHING, steps, s, Link(p), payload);
    steps, s := Next(NOTHING, steps, s, SyncDirectoryFails(p), payload);
  }

  // ----- one creator's code -----

  datatype Result = Created | AlreadyConfigured | CreateFailed

  /** What goes right for one creator. checked: everything before the trusted line is written.
      prepared: everything between that and the write. Then the temporary file and its payload,
      whether the filesystem links, the exclusive open, the direct write and its close, the
      directory sync, and whether each of the two removes works. partial is how much of a failed
      direct write landed. */
  datatype World = World(
    checked: bool, trust: Trust.TrustWrite, prepared: bool,
    tempCreated: bool, temp: bool, links: bool, open: bool, write: bool, partial: nat, close: bool, fsyncDir: bool,
    untemp: bool, unlink: bool)

  /** Everything before the configuration's own write went right. */
  predicate Reaches(w: World)
  {
    w.checked && w.trust.Whole? && w.prepared
  }

  predicate Succeeds(w: World)
  {
    w.tempCreated && w.temp && w.fsyncDir && (w.links || (w.open && w.write && w.close))
  }

  /** A strict beginning, unless there is nothing to begin. */
  function CutShort(b: string, n: nat): string
  {
    if b == "" then "" else b[..if n < |b| then n else |b| - 1]
  }

  /** What is at the path after one creator's write. */
  function ConfigAfter(before: Option<string>, b: string, w: World): Option<string>
  {
    if before.Some? || !w.tempCreated || !w.temp then before
    else if w.links || Succeeds(w) then Some(b)
    else if !w.open || w.unlink then None
    else Some(if w.write then b else CutShort(b, w.partial))
  }

  /** What is there after a first write that found nothing, said step by step: something exactly when
      the temporary file was ready and then the link held, or the direct write went right to the end,
      or it did not and could not be taken back; all of it exactly when it was linked or written
      through, and otherwise a beginning of it. */
  lemma WhatAFirstWriteLeaves(b: string, w: World)
    ensures
      var left := ConfigAfter(None, b, w);
      && (left.Some? <==>
            w.tempCreated && w.temp && (w.links || (w.open && ((w.write && w.close && w.fsyncDir) || !w.unlink))))
      && (left.Some? && (w.links || w.write) ==> left.value == b)
      && (left.Some? && !w.links && !w.write ==> left.value <= b && (b != "" ==> |left.value| < |b|))
    ensures Succeeds(w) ==> ConfigAfter(None, b, w) == Some(b)
    ensures forall there: string :: ConfigAfter(Some(there), b, w) == Some(there)
  {}

  class Directory {
    var config: Option<string>
    var temps: set<string>
    var trustFiles: Trust.Files

    ghost const payload: Pid -> string
    ghost var trace: seq<Step>
    ghost var st: State

    /** The directory is where the racing run over trace leads. */
    ghost predicate Valid()
      reads this
    {
      && Run(NOTHING, trace, payload) == Some(st)
      && config == (if st.file.Some? then Some(st.file.value.text) else None)
    }

    constructor (ghost payload: Pid -> string)
      ensures Valid() && config.None? && temps == {} && trustFiles == map[] && st == NOTHING && this.payload == payload
    {
      config, temps, trustFiles := None, {}, map[];
      trace, st := [], NOTHING;
      this.payload := payload;
    }

    ghost method Take(step: Step)
      requires Run(NOTHING, trace, payload) == Some(st) && Enabled(st, step, payload)
      modifies this`trace, this`st
      ensures Run(NOTHING, trace, payload) == Some(st) && st == After(old(st), step, payload)
    {
      assert (trace + [step])[..|trace + [step]| - 1] == trace;
      trace, st := trace + [step], After(st, step, payload);
    }

    /** The deferred remove, after a failed write or a failed sync or close; its error is dropped. */
    ghost method TakeBack(p: Pid, works: bool)
      requires Run(NOTHING, trace, payload) == Some(st) && (At(st, p, Filling) || At(st, p, Filled))
      modifies this`trace, this`st
      ensures Run(NOTHING, trace, payload) == Some(st)
      ensures st.file == if works then None else old(st.file)
    {
      Take(if At(st, p, Filling) then WriteFails(p) else SyncDirectoryFails(p));
      Take(if works then Remove(p) else RemoveFails(p));
    }

    method CreateRemovingOnError(ghost p: Pid, b: string, w: World) returns (r: Result)
      requires Valid() && At(st, p, Falling) && b == payload(p)
      modifies this`config, this`trace, this`st
      ensures Valid()
      ensures r.Created? <==> old(config).None? && w.open && w.write && w.close && w.fsyncDir
      ensures config ==
        if old(config).Some? || !w.open then old(config)
        else if r.Created? then Some(b)
        else if w.unlink then None
        else Some(if w.write then b else CutShort(b, w.partial))
      ensures r.AlreadyConfigured? <==> old(config).Some? && w.open
      ensures r.Created? ==> At(st, p, Won)
    {
      if !w.open {
        Take(OpenFails(p));
        return CreateFailed;
      }
      Take(OpenExclusively(p));
      if config.Some? {
        return AlreadyConfigured;
      }
      config := Some("");
      if !w.write {
        config := Some(CutShort(b, w.partial));
        if b != "" {
          Take(WriteSome(p, |CutShort(b, w.partial)|));
        }
        TakeBack(p, w.unlink);
        if w.unlink {
          config := None;
        }
        return CreateFailed;
      }
      Take(WriteAll(p));
      config := Some(b);
      if !w.close || !w.fsyncDir {
        TakeBack(p, w.unlink);
        if w.unlink {
          config := None;
        }
        return CreateFailed;
      }
      Take(SyncDirectory(p));
      return Created;
    }

    method LinkIt(ghost p: Pid, b: string, w: World) returns (r: Result)
      requires Valid() && At(st, p, TempReady) && b == payload(p)
      modifies this`config, this`trace, this`st
      ensures Valid()
      ensures r.Created? <==> old(config).None? && w.fsyncDir
      ensures r.AlreadyConfigured? <==> old(config).Some?
      ensures config == if old(config).Some? then old(config) else Some(b)
      ensures r.Created? ==> At(st, p, Won)
    {
      Take(Link(p));
      if config.Some? {
        return AlreadyConfigured;
      }
      config := Some(b);
      if !w.fsyncDir {
        Take(SyncDirectoryFails(p));
        return CreateFailed;
      }
      Take(SyncDirectory(p));
      return Created;
    }

    /** The temporary name is gone on every path on which removing it works. */
    method WriteConfigExclusively(ghost p: Pid, b: string, tmp: string, w: World) returns (r: Result)
      requires Valid() && At(st, p, Preparing) && b == payload(p) && tmp !in temps
      modifies this`config, this`temps, this`trace, this`st
      ensures Valid() && temps == if w.tempCreated && !w.untemp then old(temps) + {tmp} else old(temps)
      ensures r.Created? <==> old(config).None? && Succeeds(w)
      ensures r.AlreadyConfigured? <==> old(config).Some? && w.tempCreated && w.temp && (w.links || w.open)
      ensures config == ConfigAfter(old(config), b, w)
      ensures r.Created? ==> At(st, p, Won)
    {
      if !w.tempCreated {
        Take(TempFails(p));
        return CreateFailed;
      }
      temps := temps + {tmp};
      if !w.temp {
        Take(TempFails(p));
        r := CreateFailed;
      } else {
        Take(WriteTemp(p));
        if !w.links {
          Take(LinkUnsupported(p));
          r := CreateRemovingOnError(p, b, w);
        } else {
          r := LinkIt(p, b, w);
        }
      }
      // deferred, its error dropped
      if w.untemp {
        temps := temps - {tmp};
      }
    }

    /** A create that fails has written the set's trusted line all the same, once it got that far. */
    method CreateInitialConfig(ghost p: Pid, b: string, tmp: string, id: SetId, line: string, w: World) returns (r: Result)
      requires Valid() && p !in st.procs && b == payload(p) && tmp !in temps
      modifies this`config, this`temps, this`trustFiles, this`trace, this`st
      ensures Valid()
      ensures old(config).Some? ==> r.AlreadyConfigured? && config == old(config) && temps == old(temps)
      ensures r.AlreadyConfigured? <==> old(config).Some?
      ensures r.Created? <==> old(config).None? && Reaches(w) && Succeeds(w)
      ensures r.Created? <==>
        && old(config).None? && w.checked && w.trust.Whole? && w.prepared
        && w.tempCreated && w.temp && (w.links || (w.open && w.write && w.close)) && w.fsyncDir
      ensures r.Created? ==> config == Some(b)
      ensures config != old(config) ==>
        w.checked && w.trust.Whole? && w.prepared && w.tempCreated && w.temp && config.Some? && config.value <= b
      ensures config == if old(config).None? && Reaches(w) then ConfigAfter(None, b, w) else old(config)
      ensures old(config).None? ==>
        temps == if Reaches(w) && w.tempCreated && !w.untemp then old(temps) + {tmp} else old(temps)
      ensures trustFiles ==
        if old(config).Some? || !w.checked then old(trustFiles)
        else Trust.FilesLeft(old(trustFiles), Trust.CanonicalPath(id), line, w.trust)
      ensures r.Created? ==> At(st, p, Won)
    {
      Take(Start(p));
      Take(Look(p));
      if config.Some? {
        return AlreadyConfigured;
      }
      if w.checked {
        trustFiles := Trust.FilesLeft(trustFiles, Trust.CanonicalPath(id), line, w.trust);
      }
      if !Reaches(w) {
        Take(TempFails(p));
        return CreateFailed;
      }
      r := WriteConfigExclusively(p, b, tmp, w);
    }
  }
}
