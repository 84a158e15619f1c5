/** The service's own writers of the configuration, as they run under the lock: remove, create
    and toggle, and the tail every write shares. Each leaves the service in a state the hold
    protocol reaches, so what is proved of every run there holds of this object. */
module BackupService {
  import opened Wrappers
  import opened Config
  import opened ConfigEdits
  import opened EditHolds
  import opened Repoint
  import KnownHostsName
  import P = HoldProtocol
  import Trust = HostKeyTrust

  /** What the world answers while one call runs. engine is whether the deployment the file
      describes runs the incremental engine; restValid is everything Validate asks beyond names;
      trust is how writing a create's known_hosts file went. */
  datatype World = World(
    loads: bool, engine: bool, journal: Reads, records: bool, trust: Trust.TrustWrite,
    encodes: bool, restValid: bool, catalog: bool, write: WriteResult)

  datatype Outcome =
    | Done
    | NotLoaded | NotFound | NotRecorded | EngineDisabled | NotAcknowledged | NoTrustFile
    | NotEncoded | Invalid | NoCatalog | NotWritten

  /** How the shared tail ends for a configuration that reached it. */
  ghost function TailOutcome(next: Config, w: World): Outcome
  {
    if !w.encodes then NotEncoded
    else if !(Unique(next) && w.restValid) then Invalid
    else if !w.catalog then NoCatalog
    else if !w.write.Replaced? then NotWritten
    else Done
  }

  /** The file after the tail: an unsynced rename has replaced it and answers with an error. */
  function FileLeft(o: Outcome, before: Option<Config>, next: Config, w: World): Option<Config>
  {
    if o.Done? || (o.NotWritten? && w.write.RenamedUnsynced?) then Some(next) else before
  }

  ghost predicate AboutToWrite(phase: P.Phase, next: Config)
  {
    || (phase.Loaded? && !phase.op.Remove? && phase.next == next)
    || (phase.Holding? && phase.op.Remove? && phase.next == next)
  }

  function Undone(phase: P.Phase, w: WriteResult): P.Phase
    requires phase.Loaded? || phase.Holding?
  {
    if phase.Holding? then P.GivingBack(phase.t, phase.op, w.RenamedUnsynced?) else P.Leaving(phase.t, false)
  }

  /** How a removal that took the lock ends, in the order it can be turned away. */
  ghost function RemovalOutcome(disk: Option<Config>, id: SetId, j: Journal, w: World): Outcome
  {
    if !w.loads || disk.None? then NotLoaded
    else if id !in Ids(disk.value) then NotFound
    else if j.Journal? && !w.records then NotRecorded
    else TailOutcome(Without(disk.value, id), w)
  }

  predicate TookHold(o: Outcome)
  {
    !o.NotLoaded? && !o.NotFound? && !o.NotRecorded?
  }

  /** The address is on record for every removal that got as far as its hold, failed or not. */
  ghost function JournalAfterRemoval(o: Outcome, disk: Option<Config>, id: SetId, j: Journal): Journal
  {
    if j.Journal? && TookHold(o) && disk.Some? && Find(disk.value, id).Some? then
      Recorded(j, id, AddressOf(Find(disk.value, id).value))
    else j
  }

  /** What a write that would have left next did to the file and to the live configuration. */
  ghost predicate WriteEffect(o: Outcome, disk0: Option<Config>, live0: Config, next: Config, w: World, disk: Option<Config>, live: Config)
  {
    && disk == FileLeft(o, disk0, next, w)
    && live == if o.Done? then next else live0
  }

  ghost predicate RemovalEffect(o: Outcome, disk0: Option<Config>, live0: Config, id: SetId, w: World, disk: Option<Config>, live: Config)
  {
    WriteEffect(o, disk0, live0, if disk0.Some? then Without(disk0.value, id) else [], w, disk, live)
  }

  /** How a toggle ends. */
  ghost function ToggleOutcome(disk: Option<Config>, id: SetId, disabled: bool, w: World): Outcome
  {
    if !w.loads || disk.None? then NotLoaded
    else if id !in Ids(disk.value) then NotFound
    else TailOutcome(Toggled(disk.value, id, disabled), w)
  }

  ghost function ClearOf(disk: Option<Config>, id: SetId): P.Op
  {
    if disk.Some? && Find(disk.value, id).Some? then P.Edit(id, Find(disk.value, id).value.(connectionUnverified := false))
    else P.Other
  }

  ghost function Cleared(disk: Option<Config>, id: SetId): Config
  {
    if disk.Some? && Find(disk.value, id).Some? then
      WithReplaced(disk.value, id, Find(disk.value, id).value.(connectionUnverified := false))
    else []
  }

  /** How a clear ends: it writes only over a mark. */
  ghost function ClearOutcome(disk: Option<Config>, id: SetId, w: World): Outcome
  {
    if !w.loads || disk.None? then NotLoaded
    else if Find(disk.value, id).None? || !Find(disk.value, id).value.connectionUnverified then NotFound
    else TailOutcome(Cleared(disk, id), w)
  }

  /** What can turn a create away before it has touched anything. History is asked about only for an
      id the file does not already hold. */
  ghost function CreateRefusal(disk: Option<Config>, id: SetId, bs: BackupSet, acknowledged: bool, j: Journal, w: World,
                               dir: string -> string, clean: string -> string): Outcome
  {
    if !w.loads || disk.None? then NotLoaded
    else if bs.engine == INCREMENTAL && !w.engine then EngineDisabled
    else if id !in Ids(disk.value) && !MayAdopt(j, id, AddressOf(bs), acknowledged, w.journal, dir, clean) then Outcome.NotAcknowledged
    else Done
  }

  function Created(disk: Option<Config>, id: SetId, bs: BackupSet): Config
  {
    if disk.Some? then WithAdded(disk.value, id.source, Trust.Anchored(bs, id)) else []
  }

  /** How a create whose request was well formed and whose connection was proven ends. */
  ghost function CreateOutcome(disk: Option<Config>, id: SetId, bs: BackupSet, acknowledged: bool, j: Journal, w: World,
                               dir: string -> string, clean: string -> string): Outcome
  {
    var refusal := CreateRefusal(disk, id, bs, acknowledged, j, w, dir, clean);
    if !refusal.Done? then refusal
    else if !w.trust.Whole? then NoTrustFile
    else TailOutcome(Created(disk, id, bs), w)
  }

  /** The trust files after a create: its line is there exactly when the questions before it were
      answered, however it then ends. */
  ghost function FilesAfterCreate(files: Trust.Files, disk: Option<Config>, id: SetId, bs: BackupSet, line: string, acknowledged: bool,
                                  j: Journal, w: World, dir: string -> string, clean: string -> string): Trust.Files
  {
    if CreateRefusal(disk, id, bs, acknowledged, j, w, dir, clean).Done?
    then Trust.FilesLeft(files, Trust.CanonicalPath(id), line, w.trust) else files
  }

  class Service {
    var disk: Option<Config>
    var live: Config
    var journal: Journal
    const holds: Holds

    ghost var boot: Config
    ghost var trace: seq<P.Step>
    ghost var st: P.State

    ghost predicate Reached()
      reads this
    {
      P.Run(P.Boot(boot), trace) == Some(st)
    }

    /** The process is where the protocol's run over trace leads. */
    ghost predicate Valid()
      reads this, holds, holds.changed, holds.past
    {
      && holds.Valid() && Reached()
      && st.disk == disk && st.live == live && st.reg == holds.Reg()
    }

    constructor (cfg: Config, j: Journal)
      ensures Valid() && fresh(holds) && fresh(holds.changed)
      ensures st == P.Boot(cfg) && disk == Some(cfg) && live == cfg && journal == j
    {
      disk, live, journal := Some(cfg), cfg, j;
      holds := new Holds();
      boot, trace, st := cfg, [], P.Boot(cfg);
    }

    ghost method Take(step: P.Step)
      requires Reached() && P.Enabled(st, step)
      modifies this`trace, this`st
      ensures Reached() && st == P.Apply(old(st), step)
    {
      assert (trace + [step])[..|trace + [step]| - 1] == trace;
      trace, st := trace + [step], P.Apply(st, step);
    }

    /** A call that found it cannot go on, before holding anything. */
    ghost method GiveUp()
      requires Valid() && (st.phase.Locked? || st.phase.Loaded?)
      modifies this`trace, this`st
      ensures Valid() && st == old(st).(phase := P.Free)
    {
      Take(P.Fail);
      Take(P.Unlock);
    }

    /** The lock, for a call that is waiting for it or arriving just now. */
    ghost method Lock(t: P.CallId, op: P.Op)
      requires Valid() && st.phase.Free?
      requires t in st.waiting ==> st.waiting[t] == op
      requires t !in st.waiting && op.Remove? ==> op.id in Ids(st.live)
      modifies this`trace, this`st
      ensures Valid()
      ensures st == old(st).(phase := P.Locked(t, op), waiting := old(st.waiting) - {t}, entry := old(st.reg.removed))
    {
      if t !in st.waiting {
        Take(P.Arrive(t, op));
      }
      Take(P.Acquire(t));
    }

    ghost method Loaded(next: Config)
      requires Valid() && st.phase.Locked? && st.disk.Some? && P.Effect(st.phase.op, st.disk.value) == Some(next)
      modifies this`trace, this`st
      ensures Valid() && st == old(st).(phase := P.Loaded(old(st.phase.t), old(st.phase.op), next))
    {
      Take(P.Load);
    }

    ghost method Unlock()
      requires Valid() && st.phase.Leaving?
      modifies this`trace, this`st
      ensures Valid() && st == old(st).(phase := P.Free)
    {
      Take(P.Unlock);
    }

    /** An attempt to write that did not end in success, or was never made. */
    ghost method NotDone(next: Config, w: WriteResult)
      requires Reached() && AboutToWrite(st.phase, next) && !w.Replaced? && (w.RenamedUnsynced? ==> Unique(next))
      modifies this`trace, this`st
      ensures Reached()
      ensures st == old(st).(
        disk := if w.RenamedUnsynced? then Some(next) else old(st.disk),
        out := if w.RenamedUnsynced? then old(st.out) + P.TakenOut(old(st.phase.op), next) else old(st.out),
        phase := Undone(old(st.phase), w))
    {
      Take(if w.LeftOld? then P.Fail else P.WriteErrNew);
    }

    ghost method Wrote(next: Config)
      requires Reached() && AboutToWrite(st.phase, next) && Unique(next)
      modifies this`trace, this`st
      ensures Reached()
      ensures st == old(st).(disk := Some(next), out := old(st.out) + P.TakenOut(old(st.phase.op), next),
                             phase := P.Written(old(st.phase.t), old(st.phase.op), next))
    {
      Take(P.WriteOk);
    }

    /** The cheap look, off the live configuration and before the lock. */
    method RequireBackupSet(id: SetId) returns (ok: bool)
      ensures ok <==> id in Ids(live)
    {
      var found, _ := TakeOut(live, id);
      FoundIffNamed(live, id);
      return found.Some?;
    }

    /** The file already says so: swap, then drop the removal hold of every set it names. */
    method AdoptConfig(cfg: Config)
      requires holds.Valid() && st.reg == holds.Reg() && st.disk == disk
      requires Reached() && st.phase.Written? && st.phase.next == cfg
      modifies this`live, this`trace, this`st, holds`removed, holds`log
      ensures Valid() && live == cfg && holds.Reg() == RemovalsForgotten(old(holds.Reg()), Ids(cfg))
      ensures st.phase == P.Leaving(old(st.phase.t), true) && st.out == old(st.out) - Ids(cfg)
      ensures st.waiting == old(st.waiting) && st.cycles == old(st.cycles) && st.entry == old(st.entry)
    {
      live := cfg;
      Take(P.Swap);
      holds.ForgetRemovedNamedIn(cfg);
      Take(P.Forget);
    }

    /** Encode, validate, resolve the validators: what is left when this is done is the write. */
    static method Prepare(next: Config, w: World) returns (o: Outcome)
      ensures o == TailOutcome(next, w.(write := Replaced))
    {
      if !w.encodes {
        return NotEncoded;
      }
      var distinct := NamesAreDistinct(next);
      if !(distinct && w.restValid) {
        return Invalid;
      }
      return if w.catalog then Done else NoCatalog;
    }

    /** The write itself, and what follows it. Nothing after the file is replaced can fail. */
    method Replace(next: Config, write: WriteResult) returns (done: bool)
      requires Valid() && AboutToWrite(st.phase, next) && Unique(next)
      modifies this`disk, this`live, this`trace, this`st, holds`removed, holds`log
      ensures Valid() && (done <==> write.Replaced?)
      ensures disk == if write.LeftOld? then old(disk) else Some(next)
      ensures live == if done then next else old(live)
      ensures holds.Reg() == if done then RemovalsForgotten(old(holds.Reg()), Ids(next)) else old(holds.Reg())
      ensures st.phase == if done then P.Leaving(old(st.phase.t), true) else Undone(old(st.phase), write)
      ensures st.waiting == old(st.waiting)
      ensures done ==> st.out == old(st.out) + P.TakenOut(old(st.phase.op), next) - Ids(next)
    {
      if write.LeftOld? {
        NotDone(next, LeftOld);
        return false;
      }
      disk := Some(next);
      if write.RenamedUnsynced? {
        NotDone(next, RenamedUnsynced);
        return false;
      }
      Wrote(next);
      AdoptConfig(next);
      return true;
    }

    /** The tail of every write. Everything that can fail comes before the file is replaced. */
    method Persist(next: Config, w: World) returns (o: Outcome)
      requires Valid() && AboutToWrite(st.phase, next)
      modifies this`disk, this`live, this`trace, this`st, holds`removed, holds`log
      ensures Valid() && o == TailOutcome(next, w)
      ensures disk == FileLeft(o, old(disk), next, w)
      ensures live == if o.Done? then next else old(live)
      ensures holds.Reg() == if o.Done? then RemovalsForgotten(old(holds.Reg()), Ids(next)) else old(holds.Reg())
      ensures st.phase == (if o.Done? then P.Leaving(old(st.phase.t), true) else Undone(old(st.phase), if o.NotWritten? then w.write else LeftOld))
      ensures st.waiting == old(st.waiting)
      ensures o.Done? ==> st.out == old(st.out) + P.TakenOut(old(st.phase.op), next) - Ids(next)
    {
      o := Prepare(next, w);
      if !o.Done? {
        NotDone(next, LeftOld);
        return;
      }
      var done := Replace(next, w.write);
      return if done then Done else NotWritten;
    }

    /** The hold, the write and the give-back. The hold goes in under the lock and before the write;
        a failure after that gives it back with the lock still held. */
    method RemoveUnderHold(id: SetId, next: Config, w: World) returns (o: Outcome)
      requires Valid() && st.phase.Loaded? && st.phase.op == P.Remove(id) && st.phase.next == next
      modifies this`disk, this`live, this`trace, this`st, holds, holds.changed
      ensures Valid() && o == TailOutcome(next, w) && st.phase.Leaving?
      ensures disk == FileLeft(o, old(disk), next, w)
      ensures live == if o.Done? then next else old(live)
      ensures holds.held == old(holds.held) && old(holds.changed).closed
      ensures holds.removed == if o.Done? then old(holds.removed) + {id} - Ids(next) else old(holds.removed) - {id}
      ensures st.waiting == old(st.waiting)
      ensures o.Done? && id !in Ids(next) ==> id in st.out
    {
      holds.HoldRemoved(id);
      Take(P.Hold);
      o := Persist(next, w);
      var removed := o.Done?;
      if !removed {
        holds.ForgetRemoved(id);
        Take(P.GiveBack);
      }
    }

    /** The set is in the file as read: where it pointed goes on record first, so that a removal
        with no record behind it never happens. */
    method RemoveFound(id: SetId, bs: BackupSet, next: Config, w: World) returns (o: Outcome)
      requires Valid() && st.phase.Locked? && st.phase.op == P.Remove(id) && disk.Some?
      requires Find(disk.value, id) == Some(bs) && next == Without(disk.value, id)
      modifies this, holds, holds.changed
      ensures Valid() && st.phase.Free? && st.waiting == old(st.waiting)
      ensures o == if old(journal).Journal? && !w.records then NotRecorded else TailOutcome(next, w)
      ensures journal == if old(journal).Journal? && w.records then Recorded(old(journal), id, AddressOf(bs)) else old(journal)
      ensures WriteEffect(o, old(disk), old(live), next, w, disk, live)
      ensures holds.held == old(holds.held)
      ensures !o.NotRecorded? ==> old(holds.changed).closed
      ensures !o.NotRecorded? ==>
        holds.removed == (if o.Done? then old(holds.removed) + {id} - Ids(next) else old(holds.removed) - {id})
      ensures o.NotRecorded? ==> holds.Reg() == old(holds.Reg())
      ensures o.Done? && id !in Ids(next) ==> id in st.out
    {
      if journal.Journal? {
        if !w.records {
          GiveUp();
          return NotRecorded;
        }
        journal := Recorded(journal, id, AddressOf(bs));
      }
      Loaded(next);
      o := RemoveUnderHold(id, next, w);
      Unlock();
    }

    /** Takes one set's configuration out and nothing else: no journal row, and never the source. */
    method RemoveLocked(ghost t: P.CallId, id: SetId, w: World) returns (o: Outcome)
      requires Valid() && st.phase.Free? && t in st.waiting && st.waiting[t] == P.Remove(id)
      modifies this, holds, holds.changed
      ensures Valid() && st.phase.Free? && st.waiting == old(st.waiting) - {t}
      ensures o == RemovalOutcome(old(disk), id, old(journal), w)
      ensures journal == JournalAfterRemoval(o, old(disk), id, old(journal))
      ensures RemovalEffect(o, old(disk), old(live), id, w, disk, live)
      ensures holds.held == old(holds.held)
      ensures TookHold(o) ==> old(holds.changed).closed
      ensures TookHold(o) ==>
        holds.removed == (if o.Done? then old(holds.removed) + {id} - Ids(live) else old(holds.removed) - {id})
      ensures !TookHold(o) ==> holds.Reg() == old(holds.Reg())
      ensures o.Done? && id !in Ids(live) ==> id in st.out
    {
      Lock(t, P.Remove(id));
      if !w.loads || disk.None? {
        GiveUp();
        return NotLoaded;
      }
      var found, next := TakeOut(disk.value, id);
      FoundIffNamed(disk.value, id);
      if found.None? {
        GiveUp();
        return NotFound;
      }
      o := RemoveFound(id, found.value, next, w);
    }

    /** An id the running configuration does not name touches nothing, not even the lock. */
    method RemoveBackupSet(ghost t: P.CallId, id: SetId, w: World) returns (o: Outcome)
      requires Valid() && st.phase.Free? && t !in st.waiting
      modifies this, holds, holds.changed
      ensures Valid() && st.phase.Free? && st.waiting == old(st.waiting)
      ensures o == if id in Ids(old(live)) then RemovalOutcome(old(disk), id, old(journal), w) else NotFound
      ensures RemovalEffect(o, old(disk), old(live), id, w, disk, live)
      ensures journal == JournalAfterRemoval(o, old(disk), id, old(journal))
      ensures holds.held == old(holds.held)
      ensures TookHold(o) ==> old(holds.changed).closed
      ensures TookHold(o) ==>
        holds.removed == (if o.Done? then old(holds.removed) + {id} - Ids(live) else old(holds.removed) - {id})
      ensures !TookHold(o) ==> holds.Reg() == old(holds.Reg())
      ensures o.Done? && id !in Ids(live) ==> id in st.out
    {
      var configured := RequireBackupSet(id);
      if !configured {
        return NotFound;
      }
      Take(P.Arrive(t, P.Remove(id)));
      o := RemoveLocked(t, id, w);
    }

    /** The rest of any call but a removal, once it knows what it wants the file to be. */
    method Finish(next: Config, w: World) returns (o: Outcome)
      requires Valid() && st.phase.Locked? && !st.phase.op.Remove? && disk.Some? && P.Effect(st.phase.op, disk.value) == Some(next)
      modifies this`disk, this`live, this`trace, this`st, holds`removed, holds`log
      ensures Valid() && st.phase.Free? && st.waiting == old(st.waiting)
      ensures o == TailOutcome(next, w) && WriteEffect(o, old(disk), old(live), next, w, disk, live)
      ensures holds.removed == if o.Done? then old(holds.removed) - Ids(next) else old(holds.removed)
    {
      Loaded(next);
      o := Persist(next, w);
      Unlock();
    }

    /** The rest of a call that has already encoded, validated and resolved what it is to write. */
    method FinishPrepared(next: Config, write: WriteResult) returns (done: bool)
      requires Valid() && st.phase.Locked? && !st.phase.op.Remove? && disk.Some? && P.Effect(st.phase.op, disk.value) == Some(next)
      requires Unique(next)
      modifies this`disk, this`live, this`trace, this`st, holds`removed, holds`log
      ensures Valid() && st.phase.Free? && st.waiting == old(st.waiting)
      ensures done <==> write.Replaced?
      ensures disk == if write.LeftOld? then old(disk) else Some(next)
      ensures live == if done then next else old(live)
      ensures holds.removed == if done then old(holds.removed) - Ids(next) else old(holds.removed)
    {
      Loaded(next);
      done := Replace(next, write);
      Unlock();
    }

    method SetBackupSetEnabled(ghost t: P.CallId, id: SetId, enabled: bool, w: World) returns (o: Outcome)
      requires Valid() && st.phase.Free? && t !in st.waiting
      modifies this`disk, this`live, this`trace, this`st, holds`removed, holds`log
      ensures Valid() && st.phase.Free? && st.waiting == old(st.waiting)
      ensures o == ToggleOutcome(old(disk), id, !enabled, w)
      ensures WriteEffect(o, old(disk), old(live), if old(disk).Some? then Toggled(old(disk.value), id, !enabled) else [], w, disk, live)
      ensures holds.removed == if o.Done? then old(holds.removed) - Ids(live) else old(holds.removed)
    {
      Lock(t, P.Toggle(id, !enabled));
      if !w.loads || disk.None? {
        GiveUp();
        return NotLoaded;
      }
      var cfg := disk.value;
      var found, next := Switch(cfg, id, !enabled);
      FoundIffNamed(cfg, id);
      if !found {
        GiveUp();
        return NotFound;
      }
      o := Finish(next, w);
    }

    /** The questions asked of a create once the file is read, all of them before anything is written
        for it. */
    static method RefuseCreate(cfg: Config, id: SetId, bs: BackupSet, acknowledged: bool, j: Journal, w: World,
                               dir: string -> string, clean: string -> string)
      returns (o: Outcome)
      requires w.loads
      ensures o == CreateRefusal(Some(cfg), id, bs, acknowledged, j, w, dir, clean)
    {
      if bs.engine == INCREMENTAL && !w.engine {
        return EngineDisabled;
      }
      var present, _ := TakeOut(cfg, id);
      FoundIffNamed(cfg, id);
      if present.None? {
        var answer := RequireCreateRepointAcknowledgement(j, id, AddressOf(bs), acknowledged, w.journal, dir, clean);
        if !answer.Proceed? {
          return Outcome.NotAcknowledged;
        }
      }
      return Done;
    }

    /** The trusted line goes to disk before the set that names it is encoded, validated or written,
        and nothing takes it back. */
    method WriteAndFinish(trust: Trust.Directory, id: SetId, bs: BackupSet, line: string, w: World) returns (o: Outcome)
      requires Valid() && st.phase.Locked? && st.phase.op == P.Create(id, Trust.Anchored(bs, id)) && disk.Some? && bs.name == id.name
      modifies this`disk, this`live, this`trace, this`st, holds`removed, holds`log, trust
      ensures Valid() && st.phase.Free? && st.waiting == old(st.waiting)
      ensures o == if !w.trust.Whole? then NoTrustFile else TailOutcome(Created(old(disk), id, bs), w)
      ensures WriteEffect(o, old(disk), old(live), Created(old(disk), id, bs), w, disk, live)
      ensures holds.removed == if o.Done? then old(holds.removed) - Ids(live) else old(holds.removed)
      ensures trust.files == Trust.FilesLeft(old(trust.files), Trust.CanonicalPath(id), line, w.trust)
    {
      var path := trust.WriteKnownHosts(id, line, w.trust);
      if path.None? {
        GiveUp();
        return NoTrustFile;
      }
      var next := Append(disk.value, id.source, bs.(remote := bs.remote.(knownHosts := path.value)));
      o := Finish(next, w);
    }

    /** From the lock on; the request was checked and the connection proven before it. */
    method CreateBackupSet(trust: Trust.Directory, ghost t: P.CallId, id: SetId, bs: BackupSet, line: string, acknowledged: bool,
                           w: World, dir: string -> string, clean: string -> string)
      returns (o: Outcome)
      requires Valid() && st.phase.Free? && t !in st.waiting && bs.name == id.name
      modifies this`disk, this`live, this`trace, this`st, holds`removed, holds`log, trust
      ensures Valid() && st.phase.Free? && st.waiting == old(st.waiting)
      ensures o == CreateOutcome(old(disk), id, bs, acknowledged, journal, w, dir, clean)
      ensures WriteEffect(o, old(disk), old(live), Created(old(disk), id, bs), w, disk, live)
      ensures holds.removed == if o.Done? then old(holds.removed) - Ids(live) else old(holds.removed)
      ensures trust.files == FilesAfterCreate(old(trust.files), old(disk), id, bs, line, acknowledged, journal, w, dir, clean)
    {
      Lock(t, P.Create(id, Trust.Anchored(bs, id)));
      if !w.loads || disk.None? {
        GiveUp();
        return NotLoaded;
      }
      o := RefuseCreate(disk.value, id, bs, acknowledged, journal, w, dir, clean);
      if !o.Done? {
        GiveUp();
        return;
      }
      o := WriteAndFinish(trust, id, bs, line, w);
    }

    /** After a test of id passed: whatever is under id in the file now loses its mark. Quiet about
        everything else, the id being gone included. */
    method ClearConnectionUnverified(ghost t: P.CallId, id: SetId, w: World) returns (o: Outcome)
      requires Valid() && st.phase.Free? && t !in st.waiting
      modifies this`disk, this`live, this`trace, this`st, holds`removed, holds`log
      ensures Valid() && st.phase.Free? && st.waiting == old(st.waiting)
      ensures o == ClearOutcome(old(disk), id, w)
      ensures WriteEffect(o, old(disk), old(live), Cleared(old(disk), id), w, disk, live)
      ensures holds.removed == if o.Done? then old(holds.removed) - Ids(live) else old(holds.removed)
    {
      Lock(t, ClearOf(disk, id));
      if !w.loads || disk.None? {
        GiveUp();
        return NotLoaded;
      }
      var found, _ := TakeOut(disk.value, id);
      FoundIffNamed(disk.value, id);
      if found.None? || !found.value.connectionUnverified {
        GiveUp();
        return NotFound;
      }
      var next := Put(disk.value, id, found.value.(connectionUnverified := false));
      assert found.value.(connectionUnverified := false).(name := id.name) == found.value.(connectionUnverified := false);
      o := Finish(next, w);
    }

    // ----- what goes on beside the calls that hold the lock -----

    /** Taking and renewing an edit hold are one operation, and neither waits for the lock. */
    method BeginBackupSetEdit(id: SetId, now: int) returns (expiry: Option<int>)
      requires Valid()
      modifies this`trace, this`st, holds, holds.changed
      ensures Valid() && st.phase == old(st.phase) && st.waiting == old(st.waiting)
      ensures expiry == if id in Ids(live) then Some(now + LEASE) else None
      ensures holds.Reg() == if id in Ids(live) then Placed(old(holds.Reg()), id, now) else old(holds.Reg())
      ensures id in Ids(live) ==> old(holds.changed).closed
    {
      var configured := RequireBackupSet(id);
      if !configured {
        return None;
      }
      var at := holds.Place(id, now);
      Take(P.PlaceLease(id, now));
      return Some(at);
    }

    method EndBackupSetEdit(id: SetId) returns (ok: bool)
      requires Valid()
      modifies this`trace, this`st, holds`held, holds`log
      ensures Valid() && st.phase == old(st.phase) && st.waiting == old(st.waiting)
      ensures ok <==> id in Ids(live)
      ensures holds.Reg() == if ok then Released(old(holds.Reg()), id) else old(holds.Reg())
    {
      ok := RequireBackupSet(id);
      if ok {
        holds.Release(id);
        Take(P.EndLease(id));
      }
    }

    /** A cycle keeps the configuration that was in force when it started. */
    method StartCycle(ghost c: P.CycleId) returns (snapshot: Config)
      requires Valid() && c !in st.cycles
      modifies this`trace, this`st
      ensures Valid() && snapshot == live
      ensures st == old(st).(cycles := old(st.cycles)[c := snapshot])
    {
      Take(P.CycleStart(c));
      return live;
    }

    /** A cycle asks before it starts on a set of the configuration it runs on. */
    method CycleAsks(ghost c: P.CycleId, id: SetId, now: int) returns (held: bool)
      requires Valid() && c in st.cycles && id in Ids(st.cycles[c])
      modifies this`trace, this`st, holds`held, holds`log
      ensures Valid() && st.phase == old(st.phase) && st.out == old(st.out)
      ensures held == IsHeld(old(holds.Reg()), id, now)
    {
      held := holds.Held(id, now);
      Take(P.CycleCheck(c, id, now));
    }

    /** The file changes under the service, and nothing else of it does. While a call holds the lock
        this is a step of the protocol. */
    method EditedByHand(file: Option<Config>)
      requires Valid()
      modifies this`disk, this`trace, this`st
      ensures Valid() && disk == file && st == old(st).(disk := file)
    {
      disk := file;
      Take(P.HandEdit(file));
    }
  }

  // ----- what a call that answered without an error has done -----

  /** How any write ends, said of what went right: done exactly when it all did, and otherwise by the
      first of encoding, validation, names and everything else, the validators, and the write itself
      that did not. The file changes exactly when all before the write went right and the rename was
      made. */
  lemma WriteEndsByTheFirstFailure(before: Option<Config>, next: Config, w: World)
    ensures
      var o, valid := TailOutcome(next, w), Unique(next) && w.restValid;
      && (o.Done? <==> w.encodes && valid && w.catalog && w.write.Replaced?)
      && (o.NotEncoded? <==> !w.encodes)
      && (o.Invalid? <==> w.encodes && !valid)
      && (o.NoCatalog? <==> w.encodes && valid && !w.catalog)
      && (o.NotWritten? <==> w.encodes && valid && w.catalog && !w.write.Replaced?)
      && FileLeft(o, before, next, w) == if w.encodes && valid && w.catalog && !w.write.LeftOld? then Some(next) else before
  {}

  lemma RemovalEndsByTheFirstFailure(disk: Option<Config>, id: SetId, j: Journal, w: World)
    ensures
      var o, loaded := RemovalOutcome(disk, id, j, w), w.loads && disk.Some?;
      && (o.NotLoaded? <==> !loaded)
      && (o.NotFound? <==> loaded && id !in Ids(disk.value))
      && (o.NotRecorded? <==> loaded && id in Ids(disk.value) && j.Journal? && !w.records)
      && (TookHold(o) <==> loaded && id in Ids(disk.value) && (j.Journal? ==> w.records))
      && (TookHold(o) ==> var next := Without(disk.value, id);
            && (o.Done? <==> w.encodes && Unique(next) && w.restValid && w.catalog && w.write.Replaced?)
            && o == TailOutcome(next, w))
  {}

  /** And what it puts on record, failed or not: where the set pointed, for that id, once the record
      could be made; nothing before that, and nothing else ever. */
  lemma RemovalRecordsWhereItPointed(disk: Option<Config>, id: SetId, j: Journal, w: World)
    requires j.Journal?
    ensures
      var after := JournalAfterRemoval(RemovalOutcome(disk, id, j, w), disk, id, j);
      && after.Journal? && after.records == j.records
      && (w.loads && disk.Some? && Find(disk.value, id).Some? && w.records ==>
            var bs := Find(disk.value, id).value;
            after.addresses == j.addresses[id := Address(bs.remote.host, bs.remotePath, bs.localPath)])
      && (!(w.loads && disk.Some? && Find(disk.value, id).Some? && w.records) ==> after == j)
  {
    if disk.Some? { FoundIffNamed(disk.value, id); }
  }

  lemma ToggleEndsByTheFirstFailure(disk: Option<Config>, id: SetId, disabled: bool, w: World)
    ensures
      var o, loaded := ToggleOutcome(disk, id, disabled, w), w.loads && disk.Some?;
      && (o.NotLoaded? <==> !loaded)
      && (o.NotFound? <==> loaded && id !in Ids(disk.value))
      && (loaded && id in Ids(disk.value) ==> var next := Toggled(disk.value, id, disabled);
            && (o.Done? <==> w.encodes && Unique(next) && w.restValid && w.catalog && w.write.Replaced?)
            && o == TailOutcome(next, w))
  {}

  /** A create, likewise: refused by the engine gate exactly when the set asks for the incremental
      engine and the deployment does not run it, then by history, and then not before its trust file
      has been written. */
  lemma CreateEndsByTheFirstFailure(disk: Option<Config>, id: SetId, bs: BackupSet, acknowledged: bool, j: Journal, w: World,
                                    dir: string -> string, clean: string -> string)
    ensures
      var o, loaded := CreateOutcome(disk, id, bs, acknowledged, j, w, dir, clean), w.loads && disk.Some?;
      var runs := bs.engine != "kopia" || w.engine;
      && (o.NotLoaded? <==> !loaded)
      && (o.EngineDisabled? <==> loaded && bs.engine == "kopia" && !w.engine)
      && (o.NotAcknowledged? <==>
            loaded && runs && id !in Ids(disk.value) && !MayAdopt(j, id, AddressOf(bs), acknowledged, w.journal, dir, clean))
      && (loaded && runs && (id in Ids(disk.value) || MayAdopt(j, id, AddressOf(bs), acknowledged, w.journal, dir, clean)) ==>
            var next := WithAdded(disk.value, id.source, Trust.Anchored(bs, id));
            && (o.NoTrustFile? <==> !w.trust.Whole?)
            && (o.Done? <==> w.trust.Whole? && w.encodes && Unique(next) && w.restValid && w.catalog && w.write.Replaced?)
            && (w.trust.Whole? ==> o == TailOutcome(next, w)))
  {}

  /** Neither a create that is done nor one that has touched the trust file is for an engine the
      deployment does not run, or over history it was not allowed to adopt. */
  lemma NothingIsTouchedBeforeTheQuestions(files: Trust.Files, disk: Option<Config>, id: SetId, bs: BackupSet, line: string,
                                           acknowledged: bool, j: Journal, w: World, dir: string -> string, clean: string -> string)
    requires
      || CreateOutcome(disk, id, bs, acknowledged, j, w, dir, clean).Done?
      || FilesAfterCreate(files, disk, id, bs, line, acknowledged, j, w, dir, clean) != files
    ensures w.loads && disk.Some? && (bs.engine == "kopia" ==> w.engine)
    ensures id in Ids(disk.value) || MayAdopt(j, id, AddressOf(bs), acknowledged, w.journal, dir, clean)
  {}

  lemma ClearEndsByTheFirstFailure(disk: Option<Config>, id: SetId, w: World)
    ensures
      var o, loaded := ClearOutcome(disk, id, w), w.loads && disk.Some?;
      var marked := loaded && Find(disk.value, id).Some? && Find(disk.value, id).value.connectionUnverified;
      && (o.NotLoaded? <==> !loaded)
      && (o.NotFound? <==> loaded && !marked)
      && (marked ==> var next := WithReplaced(disk.value, id, Find(disk.value, id).value.(connectionUnverified := false));
            && (o.Done? <==> w.encodes && Unique(next) && w.restValid && w.catalog && w.write.Replaced?)
            && o == TailOutcome(next, w))
  {}

  /** A clear that is done found a mark and took it off: the id answers with the set it had but for
      that, every other id as before, and the ids and the name rules stay. */
  lemma DoneClearTookTheMarkOff(disk: Config, id: SetId, w: World, other: SetId)
    requires ClearOutcome(Some(disk), id, w).Done?
    ensures
      var live := Cleared(Some(disk), id);
      && Find(disk, id).Some? && Find(disk, id).value.connectionUnverified
      && Find(live, id) == Some(Find(disk, id).value.(connectionUnverified := false))
      && !Find(live, id).value.connectionUnverified
      && (other != id ==> Find(live, other) == Find(disk, other))
      && Ids(live) == Ids(disk) && (Unique(disk) ==> Unique(live))
  {
    var cleared := Find(disk, id).value.(connectionUnverified := false);
    FoundIffNamed(disk, id);
    FindReplaced(disk, id, cleared, id);
    FindReplaced(disk, id, cleared, other);
    IdsReplaced(disk, id, cleared);
    if Unique(disk) { ReplacedStaysUnique(disk, id, cleared); }
  }

  /** A removal that is done took that id out of a file that holds each id once, and touched no
      other set; with the removal hold the call leaves in place, the id is held. */
  lemma DoneRemovalTookItOut(disk: Config, id: SetId, j: Journal, w: World, removed0: set<SetId>, other: SetId)
    requires Unique(disk) && RemovalOutcome(Some(disk), id, j, w).Done?
    ensures
      var live := Without(disk, id);
      && id in Ids(disk) && Ids(live) == Ids(disk) - {id} && Unique(live)
      && id in removed0 + {id} - Ids(live)
      && (other != id ==> Find(live, other) == Find(disk, other))
  {
    IdsWithout(disk, id);
    WithoutStaysUnique(disk, id);
    FindWithout(disk, id, other);
  }

  /** A create that is done was over a free id, is found under it as asked for, reading the file
      written for it, touched no other set, leaves nothing it names held, and was not adopting history
      from elsewhere unsaid. */
  lemma DoneCreateIsThere(disk: Config, id: SetId, bs: BackupSet, acknowledged: bool, j: Journal, w: World,
                          dir: string -> string, clean: string -> string, removed0: set<SetId>, other: SetId)
    requires bs.name == id.name && CreateOutcome(Some(disk), id, bs, acknowledged, j, w, dir, clean).Done?
    ensures
      var live := Created(Some(disk), id, bs);
      && id !in Ids(disk) && Ids(live) == Ids(disk) + {id} && Find(live, id) == Some(Trust.Anchored(bs, id))
      && id !in removed0 - Ids(live)
      && (other != id ==> Find(live, other) == Find(disk, other))
      && (!acknowledged && j.Journal? && History(j, id) != [] ==> !AdoptsFromElsewhere(j, id, AddressOf(bs), dir, clean))
  {
    var added := Trust.Anchored(bs, id);
    DuplicateIsRefused(disk, id, added);
    FoundIffNamed(disk, id);
    IdsAdded(disk, id, added);
    FindAdded(disk, id, added, other);
    FindAdded(disk, id, added, id);
  }

  /** A toggle that is done moved one switch. */
  lemma DoneToggleMovedOneSwitch(disk: Config, id: SetId, disabled: bool, w: World, other: SetId)
    requires ToggleOutcome(Some(disk), id, disabled, w).Done?
    ensures
      var live := Toggled(disk, id, disabled);
      && Ids(live) == Ids(disk) && Find(disk, id).Some?
      && Find(live, id) == Some(Find(disk, id).value.(disabled := disabled))
      && (other != id ==> Find(live, other) == Find(disk, other))
  {
    FoundIffNamed(disk, id);
    IdsToggled(disk, id, disabled);
    FindToggled(disk, id, disabled, id);
    FindToggled(disk, id, disabled, other);
  }

  /** Removing a set and creating it again where it was is an undo: it goes through with nothing
      asked about the history, and every id has the set it had, but that this one reads its own
      canonical trust file again if an edit had moved it off that. */
  lemma RemoveThenCreateIsAnUndo(disk: Config, id: SetId, j: Journal, w: World, dir: string -> string, clean: string -> string, other: SetId)
    requires Unique(disk) && Find(disk, id).Some? && j.Journal?
    requires RemovalOutcome(Some(disk), id, j, w).Done? && w.trust.Whole? && w.journal == Reads(true, true)
    requires Find(disk, id).value.engine == INCREMENTAL ==> w.engine
    ensures
      var bs, gone := Find(disk, id).value, Without(disk, id);
      var back := Created(Some(gone), id, bs);
      var after := JournalAfterRemoval(Done, Some(disk), id, j);
      && CreateOutcome(Some(gone), id, bs, false, after, w, dir, clean).Done? && Ids(back) == Ids(disk)
      && Find(back, other) == (if other == id then Some(Trust.Anchored(bs, id)) else Find(disk, other))
      && (Find(back, id) == Find(disk, id) <==> bs.remote.knownHosts == Trust.CanonicalPath(id))
  {
    var bs, gone := Find(disk, id).value, Without(disk, id);
    var added := Trust.Anchored(bs, id);
    FoundIffNamed(disk, id);
    IdsWithout(disk, id);
    FoundIffNamed(gone, id);
    FindWithout(disk, id, other);
    WithoutStaysUnique(disk, id);
    AddedStaysUnique(gone, id, added);
    FindAdded(gone, id, added, other);
    FindAdded(gone, id, added, id);
    IdsAdded(gone, id, added);
  }

  // ----- what a create has written, done or refused -----

  /** What a configured set reads changes under a create exactly when it reads the file its own create
      wrote, its id is the request's own or one that shares the name, the create got as far as its
      trust file, and other bytes landed there; whatever Validate and the write then answered. */
  lemma CreateRewritesAnotherAnchorExactly(
    files: Trust.Files, disk: Config, id: SetId, bs: BackupSet, line: string, acknowledged: bool, j: Journal, w: World,
    dir: string -> string, clean: string -> string, other: SetId)
    requires Find(disk, other).Some? && Find(disk, other).value.remote.knownHosts == Trust.CanonicalPath(other)
    ensures
      var path := Find(disk, other).value.remote.knownHosts;
      var after := FilesAfterCreate(files, Some(disk), id, bs, line, acknowledged, j, w, dir, clean);
      Trust.Contents(after, path) != Trust.Contents(files, path) <==>
        && CreateRefusal(Some(disk), id, bs, acknowledged, j, w, dir, clean).Done? && !w.trust.Untouched?
        && KnownHostsName.BoundaryShift(id.source, id.name, other.source, other.name)
        && Trust.LineLeft(line, w.trust) != Trust.Contents(files, path)
  {
    Trust.AnchorRewrittenExactly(files, id, line, w.trust, other);
  }

  /** The refused duplicate. A create over a configured id is never done and never replaces the file,
      it is asked nothing about the history, and yet, once the configuration loads and the engine is
      one it runs, its line is what the configured set reads from then on. */
  lemma RefusedDuplicateRewritesTheAnchor(
    files: Trust.Files, disk: Config, id: SetId, bs: BackupSet, line: string, acknowledged: bool, j: Journal, w: World,
    dir: string -> string, clean: string -> string)
    requires bs.name == id.name && Find(disk, id).Some? && Find(disk, id).value.remote.knownHosts == Trust.CanonicalPath(id)
    ensures
      var o := CreateOutcome(Some(disk), id, bs, acknowledged, j, w, dir, clean);
      var after := FilesAfterCreate(files, Some(disk), id, bs, line, acknowledged, j, w, dir, clean);
      && (o.NotLoaded? || o.EngineDisabled? || o.NoTrustFile? || o.NotEncoded? || o.Invalid?)
      && (o.NotEncoded? || o.Invalid? ==> Trust.Contents(after, Find(disk, id).value.remote.knownHosts) == Some(Trust.CreatedText(line)))
  {
    FoundIffNamed(disk, id);
    if Unique(Created(Some(disk), id, bs)) {
      DuplicateIsRefused(disk, id, Trust.Anchored(bs, id));
    }
  }

  // ----- the runs of the protocol, of this object -----

  /** Whatever has been called, and whatever went wrong: a set the configuration in force names is
      never removal-held once the call is over. */
  lemma ConfiguredSetIsNeverRemovalHeld(svc: Service)
    requires svc.Valid() && svc.st.phase.Free?
    ensures svc.holds.removed !! Ids(svc.live)
  {
    P.NoConfiguredSetIsRemovalHeld(svc.boot, svc.trace, svc.st);
  }

  /** And one a removal took out, as long as every failed removal was clean, answers Held to any
      cycle at any time until it is configured again. */
  lemma RemovedSetStaysHeld(svc: Service, id: SetId, now: int)
    requires svc.Valid() && P.CleanRun(P.Boot(svc.boot), svc.trace) && id in svc.st.out
    ensures IsHeld(svc.holds.Reg(), id, now)
    ensures svc.st.phase.Free? ==> id !in Ids(svc.live)
  {
    P.RemovedSetIsNeverProcessed(svc.boot, svc.trace, svc.st, id, now);
    P.CleanRunProtects(svc.boot, svc.trace, svc.st);
  }
}
