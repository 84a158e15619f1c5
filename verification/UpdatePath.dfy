/** A sparse edit from the lock to the swap: every refusal on the way, the trusted line staged
    before anything names it, the connection proven before it is written, and the write. */
module UpdatePath {
  import opened Wrappers
  import opened Config
  import opened ConfigEdits
  import opened UpdateSet
  import Repoint
  import Trust = HostKeyTrust
  import Connection
  import BackupService
  import P = HoldProtocol

  /** What the deployment fixes: the matcher, the key encryption, the validators it lists, and what
      a set that says nothing about read-only inherits. */
  datatype Deployment = Deployment(
    matcher: Trust.Matcher, enc: Connection.KeyEncryption, validators: set<string>, inherits: SetId -> bool)

  /** What the world answers while one edit runs. name is the fresh name its staged file gets. */
  datatype World = World(
    loads: bool, journal: Repoint.Reads, keyFile: Option<string>, name: string, staging: Trust.Staging,
    encodes: bool, restValid: bool, check: Connection.TestResult, catalog: bool, write: WriteResult)

  datatype Outcome =
    | Done | EmptyRequest | NotLoaded | NotFound | RepointNotAcknowledged | InvalidEdit | NoSuchKey
    | TrustRefused | NotEncoded | InvalidConfig | NotProven | NotWritable | NoCatalog | NotWritten

  // ----- what an edit makes of a set -----

  /** Field by field, then the key. */
  function WithoutTrust(target: BackupSet, r: Request, keyFile: Option<string>): BackupSet
  {
    if r.sshKeyId.Some? && keyFile.Some? then Connection.WithKey(Apply(target, r), keyFile.value) else Apply(target, r)
  }

  function Trusted(keyed: BackupSet, r: Request, path: string): BackupSet
  {
    if r.knownHostsLine.Some? then keyed.(remote := keyed.remote.(knownHosts := path)) else keyed
  }

  /** And then the staged line, and the mark. */
  function EditedSet(target: BackupSet, r: Request, keyFile: Option<string>, path: string, enc: Connection.KeyEncryption): BackupSet
  {
    Connection.Marked(target, Trusted(WithoutTrust(target, r, keyFile), r, path), r.skipConnectionCheck, enc)
  }

  function ReadOnly(id: SetId, bs: BackupSet, d: Deployment): bool
  {
    if bs.readOnly.Some? then bs.readOnly.value else d.inherits(id)
  }

  // ----- what an edit has to get past -----

  predicate RepointAnswered(j: Repoint.Journal, id: SetId, target: BackupSet, r: Request, io: Repoint.Reads)
  {
    || r.acknowledgeRepoint || j.NoJournal? || AddressOf(Apply(target, r)) == AddressOf(target)
    || (io.list && Repoint.History(j, id) == [])
  }

  /** What is asked of an edit before anything is staged for it: the repoint question, the field
      rules, and a key that exists. */
  predicate FieldsAnswered(j: Repoint.Journal, id: SetId, target: BackupSet, r: Request, d: Deployment, w: World)
  {
    && RepointAnswered(j, id, target, r, w.journal)
    && Accepted(target, r, Trust.LineRule(d.matcher), d.validators)
    && (r.sshKeyId.Some? ==> w.keyFile.Some?)
  }

  predicate TrustAnswered(files: Trust.Files, target: BackupSet, r: Request, d: Deployment, w: World)
  {
    r.knownHostsLine.Some? ==>
      && Trust.AllSteps(w.staging)
      && Trust.MayChangeTrust(d.matcher, files, w.name, target.remote, WithoutTrust(target, r, w.keyFile).remote,
                              r.knownHostsLine.value, r.acknowledgeHostKeyChange)
  }

  /** A connection that moved and was not waved through has passed its check, and can be deleted
      from if it is to be. */
  predicate ConnectionAnswered(id: SetId, target: BackupSet, after: BackupSet, r: Request, d: Deployment, w: World)
  {
    Connection.ChangesTheConnection(target, after, d.enc) && !r.skipConnectionCheck ==>
      w.check.ok && !Connection.RefuseDelete(w.check, ReadOnly(id, after, d))
  }

  /** What is left to go right once everything has been decided: the edited configuration can be
      written, loads, and connects if it has to. */
  ghost predicate Lands(id: SetId, target: BackupSet, after: BackupSet, want: Config, r: Request, d: Deployment, w: World)
  {
    w.encodes && Unique(want) && w.restValid && ConnectionAnswered(id, target, after, r, d, w) && w.catalog
  }

  /** From the trust questions on. */
  ghost predicate WriteAnswered(files: Trust.Files, id: SetId, target: BackupSet, after: BackupSet, want: Config,
                                r: Request, d: Deployment, w: World)
  {
    TrustAnswered(files, target, r, d, w) && Lands(id, target, after, want, r, d, w)
  }

  // ----- how an edit ends -----

  /** Before anything is staged for it. */
  function FieldsOutcome(j: Repoint.Journal, id: SetId, target: BackupSet, r: Request, d: Deployment, w: World): Outcome
  {
    if !RepointAnswered(j, id, target, r, w.journal) then RepointNotAcknowledged
    else if !Accepted(target, r, Trust.LineRule(d.matcher), d.validators) then InvalidEdit
    else if r.sshKeyId.Some? && w.keyFile.None? then NoSuchKey
    else Done
  }

  /** From the mark on. */
  ghost function LandOutcome(id: SetId, target: BackupSet, after: BackupSet, want: Config, r: Request, d: Deployment, w: World): Outcome
  {
    var prove := Connection.ChangesTheConnection(target, after, d.enc) && !r.skipConnectionCheck;
    if !w.encodes then NotEncoded
    else if !(Unique(want) && w.restValid) then InvalidConfig
    else if prove && !w.check.ok then NotProven
    else if prove && Connection.RefuseDelete(w.check, ReadOnly(id, after, d)) then NotWritable
    else if !w.catalog then NoCatalog
    else if !w.write.Replaced? then NotWritten
    else Done
  }

  /** From the trust questions on. */
  ghost function WriteOutcome(files: Trust.Files, id: SetId, target: BackupSet, after: BackupSet, want: Config,
                              r: Request, d: Deployment, w: World): Outcome
  {
    if TrustAnswered(files, target, r, d, w) then LandOutcome(id, target, after, want, r, d, w) else TrustRefused
  }

  ghost function OutcomeFor(disk: Config, j: Repoint.Journal, files: Trust.Files, id: SetId, target: BackupSet, after: BackupSet,
                            r: Request, d: Deployment, w: World): Outcome
  {
    var decided := FieldsOutcome(j, id, target, r, d, w);
    if decided.Done? then WriteOutcome(files, id, target, after, WithReplaced(disk, id, after), r, d, w) else decided
  }

  /** From the lock on. */
  ghost function UpdateOutcome(disk: Option<Config>, j: Repoint.Journal, files: Trust.Files, id: SetId, r: Request, d: Deployment, w: World): Outcome
  {
    if !w.loads || disk.None? then NotLoaded
    else if Find(disk.value, id).None? then NotFound
    else
      var target := Find(disk.value, id).value;
      OutcomeFor(disk.value, j, files, id, target, EditedSet(target, r, w.keyFile, w.name, d.enc), r, d, w)
  }

  ghost predicate MayUpdate(disk: Config, j: Repoint.Journal, files: Trust.Files, id: SetId, r: Request, d: Deployment, w: World)
  {
    && !IsEmpty(r) && Find(disk, id).Some?
    && var target := Find(disk, id).value;
    && var after := EditedSet(target, r, w.keyFile, w.name, d.enc);
    && FieldsAnswered(j, id, target, r, d, w)
    && WriteAnswered(files, id, target, after, WithReplaced(disk, id, after), r, d, w)
  }

  // ----- what it writes -----

  ghost function Updated(disk: Option<Config>, id: SetId, r: Request, d: Deployment, w: World): Config
  {
    if disk.Some? && Find(disk.value, id).Some? then
      WithReplaced(disk.value, id, EditedSet(Find(disk.value, id).value, r, w.keyFile, w.name, d.enc))
    else []
  }

  ghost function EditOf(disk: Option<Config>, id: SetId, r: Request, d: Deployment, w: World): P.Op
  {
    if disk.Some? && Find(disk.value, id).Some? then
      P.Edit(id, EditedSet(Find(disk.value, id).value, r, w.keyFile, w.name, d.enc))
    else P.Other
  }

  lemma EditTakesEffect(cfg: Config, id: SetId, after: BackupSet)
    requires Find(cfg, id).Some? && after.name == Find(cfg, id).value.name
    ensures P.Effect(P.Edit(id, after), cfg) == Some(WithReplaced(cfg, id, after))
  {
    FoundIffNamed(cfg, id);
    assert after.(name := id.name) == after;
  }

  /** What the trust directory holds afterwards: the line if the edit is done, nothing of it
      otherwise, unless taking it back did not work. */
  predicate DirLeft(o: Outcome, before: Trust.Files, after: Trust.Files, r: Request, w: World)
  {
    if r.knownHostsLine.None? then after == before
    else
      var staged := before[w.name := Trust.StagedText(r.knownHostsLine.value)];
      && (o.Done? ==> after == staged)
      && (o.NotWritten? ==> after == if w.staging.unstage then before else staged)
      && (!o.Done? ==> after == before || (!w.staging.unstage && after - {w.name} == before))
  }

  /** The file afterwards: an unsynced rename has replaced it and answers with an error. */
  function FileLeft(o: Outcome, before: Option<Config>, want: Config, w: World): Option<Config>
  {
    if o.Done? || (o.NotWritten? && w.write.RenamedUnsynced?) then Some(want) else before
  }

  // ----- the path -----

  /** Everything that is decided before a line is staged. */
  method Decide(j: Repoint.Journal, id: SetId, target: BackupSet, r: Request, d: Deployment, w: World)
    returns (o: Outcome, edited: BackupSet)
    ensures o == FieldsOutcome(j, id, target, r, d, w)
    ensures o.Done? <==> FieldsAnswered(j, id, target, r, d, w)
    ensures o.Done? ==> edited == WithoutTrust(target, r, w.keyFile)
  {
    edited := target;
    var answer := Repoint.RequireRepointAcknowledgement(j, id, target, r, w.journal);
    if !answer.Proceed? {
      return RepointNotAcknowledged, edited;
    }
    edited := Apply(target, r);
    if |Problems(edited, r, Trust.LineRule(d.matcher), d.validators)| > 0 {
      return InvalidEdit, edited;
    }
    if r.sshKeyId.Some? {
      if w.keyFile.None? {
        return NoSuchKey, edited;
      }
      edited := Connection.WithKey(edited, w.keyFile.value);
    }
    return Done, edited;
  }

  /** The mark, the encoding, Validate, and only then the check, so that what is proven is a
      configuration this deployment would load. */
  method Prove(id: SetId, target: BackupSet, trusted: BackupSet, cfg: Config, r: Request, d: Deployment, w: World)
    returns (o: Outcome, next: Config, ghost after: BackupSet)
    requires Find(cfg, id).Some?
    ensures after == Connection.Marked(target, trusted, r.skipConnectionCheck, d.enc)
    ensures next == WithReplaced(cfg, id, after)
    ensures LandOutcome(id, target, after, next, r, d, w) ==
      if !o.Done? then o else if w.write.Replaced? then Outcome.Done else NotWritten
    ensures o.Done? <==> Lands(id, target, after, next, r, d, w)
  {
    var edited, proveConnection := trusted, false;
    if Connection.ChangesTheConnection(target, edited, d.enc) {
      if r.skipConnectionCheck {
        edited := edited.(connectionUnverified := true);
      } else {
        proveConnection := true;
        edited := edited.(connectionUnverified := false);
      }
    }
    after := edited;
    next := Put(cfg, id, edited);
    if !w.encodes {
      o := NotEncoded;
      return;
    }
    var distinct := NamesAreDistinct(next);
    if !(distinct && w.restValid) {
      o := InvalidConfig;
      return;
    }
    assert Connection.ChangesTheConnection(target, edited, d.enc) == Connection.ChangesTheConnection(target, trusted, d.enc);
    if proveConnection {
      if !w.check.ok {
        o := NotProven;
        return;
      }
      if Connection.RefuseDelete(w.check, ReadOnly(id, edited, d)) {
        o := NotWritable;
        return;
      }
    }
    o := if w.catalog then Done else NoCatalog;
  }

  const BLANK := BackupSet("", Remote("", "", 0, "", "", Key("", "", Nil, Secret("", "", Nil)), "", 0), "", "", Nil, Nil,
                           Completion("", 0), 0, None, "", "", 0, 0, 0, "", Nil, "", false, None, false)

  /** The lock, the file as it is now, the set in it, and everything that is decided before a line
      is staged. */
  method Begin(svc: BackupService.Service, ghost t: P.CallId, id: SetId, ghost op: P.Op, r: Request, d: Deployment, w: World)
    returns (o: Outcome, target: BackupSet, keyed: BackupSet)
    requires svc.Valid() && svc.st.phase.Free? && t !in svc.st.waiting && !op.Remove?
    modifies svc`trace, svc`st
    ensures svc.Valid() && svc.st.waiting == old(svc.st.waiting)
    ensures o ==
      if !w.loads || svc.disk.None? then NotLoaded
      else if Find(svc.disk.value, id).None? then NotFound
      else FieldsOutcome(svc.journal, id, Find(svc.disk.value, id).value, r, d, w)
    ensures o.Done? ==>
      && Find(svc.disk.value, id) == Some(target) && keyed == WithoutTrust(target, r, w.keyFile)
      && svc.st.phase.Locked? && svc.st.phase.op == op
    ensures !o.Done? ==> svc.st.phase.Free?
  {
    svc.Lock(t, op);
    target, keyed := BLANK, BLANK;
    if !w.loads || svc.disk.None? {
      svc.GiveUp();
      o := NotLoaded;
      return;
    }
    var found, _ := TakeOut(svc.disk.value, id);
    if found.None? {
      svc.GiveUp();
      o := NotFound;
      return;
    }
    target := found.value;
    o, keyed := Decide(svc.journal, id, target, r, d, w);
    if !o.Done? {
      svc.GiveUp();
    }
  }

  /** From the mark to the swap, with the line staged if one was sent. want is what the lock was
      taken to write. */
  method WriteEdit(svc: BackupService.Service, staged: Trust.StagedKnownHosts?, id: SetId, target: BackupSet, trusted: BackupSet,
                   ghost want: Config, ghost after: BackupSet, r: Request, d: Deployment, w: World)
    returns (o: Outcome)
    requires svc.Valid() && svc.disk.Some? && Find(svc.disk.value, id).Some? && want == WithReplaced(svc.disk.value, id, after)
    requires svc.st.phase.Locked? && !svc.st.phase.op.Remove? && P.Effect(svc.st.phase.op, svc.disk.value) == Some(want)
    requires after == Connection.Marked(target, trusted, r.skipConnectionCheck, d.enc)
    requires staged != null ==> !staged.kept
    modifies svc`disk, svc`live, svc`trace, svc`st, svc.holds`removed, svc.holds`log, staged
    ensures svc.Valid() && svc.st.phase.Free? && svc.st.waiting == old(svc.st.waiting)
    ensures o == LandOutcome(id, target, after, want, r, d, w)
    ensures svc.disk == FileLeft(o, old(svc.disk), want, w)
    ensures svc.live == if o.Done? then want else old(svc.live)
    ensures svc.holds.removed == if o.Done? then old(svc.holds.removed) - Ids(want) else old(svc.holds.removed)
    ensures staged != null ==> (staged.kept <==> o.Done?)
  {
    var next;
    ghost var made;
    o, next, made := Prove(id, target, trusted, svc.disk.value, r, d, w);
    if !o.Done? {
      svc.GiveUp();
      return;
    }
    var done := svc.FinishPrepared(next, w.write);
    if !done {
      return NotWritten;
    }
    if staged != null {
      staged.Commit();
    }
  }

  /** The trust questions, and the line staged. The service is none of their business. */
  method Stage(svc: BackupService.Service, dir: Trust.Directory, target: BackupSet, keyed: BackupSet, r: Request, d: Deployment, w: World)
    returns (staged: Trust.StagedKnownHosts?)
    requires svc.Valid() && r.knownHostsLine.Some? && w.name !in dir.files && keyed == WithoutTrust(target, r, w.keyFile)
    modifies dir
    ensures svc.Valid()
    ensures staged == null ==> dir.files - {w.name} == old(dir.files) && (w.staging.unstage ==> dir.files == old(dir.files))
    ensures staged != null ==>
      && fresh(staged) && !staged.kept && staged.dir == dir && staged.path == w.name
      && dir.files == old(dir.files)[w.name := Trust.StagedText(r.knownHostsLine.value)]
    ensures staged != null <==> TrustAnswered(old(dir.files), target, r, d, w)
  {
    var refusal;
    staged, refusal := Trust.PrepareTrustChange(d.matcher, dir, w.name, target.remote, keyed.remote,
                                                r.knownHostsLine.value, r.acknowledgeHostKeyChange, w.staging);
  }

  /** What is deferred from the moment the line is staged. */
  method Deferred(svc: BackupService.Service, staged: Trust.StagedKnownHosts, works: bool)
    requires svc.Valid()
    modifies staged.dir
    ensures svc.Valid()
    ensures staged.dir.files == if staged.kept || !works then old(staged.dir.files) else old(staged.dir.files) - {staged.path}
  {
    staged.Discard(works);
  }

  /** The write with a line staged for it, and what is deferred. */
  method WriteStaged(svc: BackupService.Service, staged: Trust.StagedKnownHosts, id: SetId, target: BackupSet, trusted: BackupSet,
                     ghost want: Config, ghost after: BackupSet, r: Request, d: Deployment, w: World)
    returns (o: Outcome)
    requires svc.Valid() && svc.disk.Some? && Find(svc.disk.value, id).Some? && want == WithReplaced(svc.disk.value, id, after)
    requires svc.st.phase.Locked? && !svc.st.phase.op.Remove? && P.Effect(svc.st.phase.op, svc.disk.value) == Some(want)
    requires after == Connection.Marked(target, trusted, r.skipConnectionCheck, d.enc)
    requires !staged.kept
    modifies svc`disk, svc`live, svc`trace, svc`st, svc.holds`removed, svc.holds`log, staged, staged.dir
    ensures svc.Valid() && svc.st.phase.Free? && svc.st.waiting == old(svc.st.waiting)
    ensures o == LandOutcome(id, target, after, want, r, d, w)
    ensures svc.disk == FileLeft(o, old(svc.disk), want, w)
    ensures svc.live == if o.Done? then want else old(svc.live)
    ensures svc.holds.removed == if o.Done? then old(svc.holds.removed) - Ids(want) else old(svc.holds.removed)
    ensures staged.dir.files ==
      if o.Done? || !w.staging.unstage then old(staged.dir.files) else old(staged.dir.files) - {staged.path}
  {
    o := WriteEdit(svc, staged, id, target, trusted, want, after, r, d, w);
    Deferred(svc, staged, w.staging.unstage);
  }

  lemma TakenBack(files: Trust.Files, name: string, text: string)
    requires name !in files
    ensures files[name := text] - {name} == files
  {}

  /** The trusted line staged before the write and, whatever happens, taken back after it unless it
      was committed. */
  method StageAndWrite(svc: BackupService.Service, dir: Trust.Directory, id: SetId, target: BackupSet, keyed: BackupSet,
                       ghost want: Config, ghost after: BackupSet, r: Request, d: Deployment, w: World)
    returns (o: Outcome)
    requires svc.Valid() && svc.disk.Some? && Find(svc.disk.value, id).Some? && want == WithReplaced(svc.disk.value, id, after)
    requires svc.st.phase.Locked? && !svc.st.phase.op.Remove? && P.Effect(svc.st.phase.op, svc.disk.value) == Some(want)
    requires keyed == WithoutTrust(target, r, w.keyFile)
    requires after == Connection.Marked(target, Trusted(keyed, r, w.name), r.skipConnectionCheck, d.enc)
    requires r.knownHostsLine.Some? && w.name !in dir.files
    modifies svc`disk, svc`live, svc`trace, svc`st, svc.holds`removed, svc.holds`log, dir
    ensures svc.Valid() && svc.st.phase.Free? && svc.st.waiting == old(svc.st.waiting)
    ensures o == WriteOutcome(old(dir.files), id, target, after, want, r, d, w)
    ensures svc.disk == FileLeft(o, old(svc.disk), want, w)
    ensures svc.live == if o.Done? then want else old(svc.live)
    ensures svc.holds.removed == if o.Done? then old(svc.holds.removed) - Ids(want) else old(svc.holds.removed)
    ensures DirLeft(o, old(dir.files), dir.files, r, w)
  {
    ghost var was := dir.files;
    var staged := Stage(svc, dir, target, keyed, r, d, w);
    if staged == null {
      svc.GiveUp();
      return TrustRefused;
    }
    o := WriteStaged(svc, staged, id, target, Trusted(keyed, r, staged.path), want, after, r, d, w);
    TakenBack(was, w.name, Trust.StagedText(r.knownHostsLine.value));
  }

  /** From the decisions on. */
  method WriteDecided(svc: BackupService.Service, dir: Trust.Directory, id: SetId, target: BackupSet, keyed: BackupSet,
                      ghost want: Config, ghost after: BackupSet, r: Request, d: Deployment, w: World)
    returns (o: Outcome)
    requires svc.Valid() && svc.disk.Some? && Find(svc.disk.value, id).Some? && want == WithReplaced(svc.disk.value, id, after)
    requires svc.st.phase.Locked? && !svc.st.phase.op.Remove? && P.Effect(svc.st.phase.op, svc.disk.value) == Some(want)
    requires keyed == WithoutTrust(target, r, w.keyFile)
    requires after == Connection.Marked(target, Trusted(keyed, r, w.name), r.skipConnectionCheck, d.enc)
    requires w.name !in dir.files
    modifies svc`disk, svc`live, svc`trace, svc`st, svc.holds`removed, svc.holds`log, dir
    ensures svc.Valid() && svc.st.phase.Free? && svc.st.waiting == old(svc.st.waiting)
    ensures o == WriteOutcome(old(dir.files), id, target, after, want, r, d, w)
    ensures svc.disk == FileLeft(o, old(svc.disk), want, w)
    ensures svc.live == if o.Done? then want else old(svc.live)
    ensures svc.holds.removed == if o.Done? then old(svc.holds.removed) - Ids(want) else old(svc.holds.removed)
    ensures DirLeft(o, old(dir.files), dir.files, r, w)
  {
    if r.knownHostsLine.None? {
      o := WriteEdit(svc, null, id, target, Trusted(keyed, r, w.name), want, after, r, d, w);
    } else {
      o := StageAndWrite(svc, dir, id, target, keyed, want, after, r, d, w);
    }
  }

  /** From the lock on. */
  method UpdateLocked(svc: BackupService.Service, dir: Trust.Directory, ghost t: P.CallId, id: SetId, r: Request, d: Deployment, w: World)
    returns (o: Outcome)
    requires svc.Valid() && svc.st.phase.Free? && t !in svc.st.waiting && w.name !in dir.files
    modifies svc`disk, svc`live, svc`trace, svc`st, svc.holds`removed, svc.holds`log, dir
    ensures svc.Valid() && svc.st.phase.Free? && svc.st.waiting == old(svc.st.waiting)
    ensures o == UpdateOutcome(old(svc.disk), svc.journal, old(dir.files), id, r, d, w)
    ensures svc.disk == FileLeft(o, old(svc.disk), Updated(old(svc.disk), id, r, d, w), w)
    ensures svc.live == if o.Done? then Updated(old(svc.disk), id, r, d, w) else old(svc.live)
    ensures svc.holds.removed == if o.Done? then old(svc.holds.removed) - Ids(svc.live) else old(svc.holds.removed)
    ensures DirLeft(o, old(dir.files), dir.files, r, w)
  {
    var target, keyed;
    o, target, keyed := Begin(svc, t, id, EditOf(svc.disk, id, r, d, w), r, d, w);
    if !o.Done? {
      return;
    }
    ghost var after := EditedSet(target, r, w.keyFile, w.name, d.enc);
    EditTakesEffect(svc.disk.value, id, after);
    o := WriteDecided(svc, dir, id, target, keyed, WithReplaced(svc.disk.value, id, after), after, r, d, w);
  }

  lemma LandsExactly(id: SetId, target: BackupSet, after: BackupSet, want: Config, r: Request, d: Deployment, w: World)
    ensures
      var o := LandOutcome(id, target, after, want, r, d, w);
      && (o.Done? || o.NotWritten? <==> Lands(id, target, after, want, r, d, w))
      && (o.Done? ==> w.write.Replaced?) && (o.NotWritten? ==> !w.write.Replaced?) && !o.EmptyRequest? && !o.NotLoaded? && !o.NotFound? && !o.TrustRefused?
  {}

  lemma FieldsDecided(j: Repoint.Journal, id: SetId, target: BackupSet, r: Request, d: Deployment, w: World)
    ensures
      var o := FieldsOutcome(j, id, target, r, d, w);
      && (o.Done? <==> FieldsAnswered(j, id, target, r, d, w))
      && !o.NotWritten? && !o.EmptyRequest? && !o.NotLoaded? && !o.NotFound?
  {}

  lemma WriteDecidedExactly(files: Trust.Files, id: SetId, target: BackupSet, after: BackupSet, want: Config, r: Request, d: Deployment, w: World)
    ensures
      var o := WriteOutcome(files, id, target, after, want, r, d, w);
      && (o.Done? || o.NotWritten? <==> WriteAnswered(files, id, target, after, want, r, d, w))
      && (o.Done? ==> w.write.Replaced?) && (o.NotWritten? ==> !w.write.Replaced?)
      && !o.EmptyRequest? && !o.NotLoaded? && !o.NotFound?
  {
    LandsExactly(id, target, after, want, r, d, w);
  }

  lemma TriedExactly(disk: Config, j: Repoint.Journal, files: Trust.Files, id: SetId, target: BackupSet, after: BackupSet,
                     r: Request, d: Deployment, w: World)
    ensures
      var o, want := OutcomeFor(disk, j, files, id, target, after, r, d, w), WithReplaced(disk, id, after);
      && (o.Done? || o.NotWritten? <==> FieldsAnswered(j, id, target, r, d, w) && WriteAnswered(files, id, target, after, want, r, d, w))
      && (o.Done? ==> w.write.Replaced?) && (o.NotWritten? ==> !w.write.Replaced?)
      && !o.EmptyRequest? && !o.NotLoaded? && !o.NotFound?
  {
    FieldsDecided(j, id, target, r, d, w);
    WriteDecidedExactly(files, id, target, after, WithReplaced(disk, id, after), r, d, w);
  }

  /** The write is tried exactly when every question is answered and everything before it went right. */
  lemma WriteTriedExactly(disk: Option<Config>, j: Repoint.Journal, files: Trust.Files, id: SetId, r: Request, d: Deployment, w: World)
    requires !IsEmpty(r)
    ensures
      var o := UpdateOutcome(disk, j, files, id, r, d, w);
      && (o.Done? || o.NotWritten? <==> w.loads && disk.Some? && MayUpdate(disk.value, j, files, id, r, d, w))
      && (o.Done? ==> w.write.Replaced?) && (o.NotWritten? ==> !w.write.Replaced?) && !o.EmptyRequest?
      && (o.NotLoaded? <==> !(w.loads && disk.Some?))
      && (o.NotFound? <==> w.loads && disk.Some? && Find(disk.value, id).None?)
  {
    if disk.Some? && Find(disk.value, id).Some? {
      var target := Find(disk.value, id).value;
      TriedExactly(disk.value, j, files, id, target, EditedSet(target, r, w.keyFile, w.name, d.enc), r, d, w);
    }
  }

  /** An edit that is not done leaves the file, the live configuration, the holds and the trust
      directory as they were, with two exceptions. If the file was replaced and the directory sync
      after it failed, the file holds the edit, and the line it names is gone; and if taking that
      line back failed, it is still there. */
  method UpdateBackupSet(svc: BackupService.Service, dir: Trust.Directory, ghost t: P.CallId, id: SetId, r: Request, d: Deployment, w: World)
    returns (o: Outcome)
    requires svc.Valid() && svc.st.phase.Free? && t !in svc.st.waiting && w.name !in dir.files
    modifies svc`disk, svc`live, svc`trace, svc`st, svc.holds`removed, svc.holds`log, dir
    ensures svc.Valid() && svc.st.phase.Free? && svc.st.waiting == old(svc.st.waiting)
    ensures o == if IsEmpty(r) then EmptyRequest else UpdateOutcome(old(svc.disk), svc.journal, old(dir.files), id, r, d, w)
    ensures o.Done? || o.NotWritten? <==>
      w.loads && old(svc.disk).Some? && MayUpdate(old(svc.disk.value), svc.journal, old(dir.files), id, r, d, w)
    ensures (o.Done? ==> w.write.Replaced?) && (o.NotWritten? ==> !w.write.Replaced?)
    ensures svc.disk == FileLeft(o, old(svc.disk), Updated(old(svc.disk), id, r, d, w), w)
    ensures svc.live == if o.Done? then Updated(old(svc.disk), id, r, d, w) else old(svc.live)
    ensures svc.holds.removed == if o.Done? then old(svc.holds.removed) - Ids(svc.live) else old(svc.holds.removed)
    ensures DirLeft(o, old(dir.files), dir.files, r, w)
  {
    if IsEmpty(r) {
      return EmptyRequest;
    }
    o := UpdateLocked(svc, dir, t, id, r, d, w);
    WriteTriedExactly(old(svc.disk), svc.journal, old(dir.files), id, r, d, w);
  }

  // ----- how it ends, said of what went right -----

  /** Before anything is staged: the repoint question first, put exactly when one of the three fields
      moves unacknowledged under a journal that holds history or cannot be read; then the field
      rules; then the key. */
  lemma DecidedByTheFirstFailure(j: Repoint.Journal, id: SetId, target: BackupSet, r: Request, d: Deployment, w: World)
    ensures
      var o, edit := FieldsOutcome(j, id, target, r, d, w), Apply(target, r);
      var moves := edit.remote.host != target.remote.host || edit.remotePath != target.remotePath || edit.localPath != target.localPath;
      var asked := moves && !r.acknowledgeRepoint && j.Journal? && !(w.journal.list && Repoint.History(j, id) == []);
      var sound, keyed := Accepted(target, r, Trust.LineRule(d.matcher), d.validators), r.sshKeyId.Some? ==> w.keyFile.Some?;
      && (o.RepointNotAcknowledged? <==> asked)
      && (o.InvalidEdit? <==> !asked && !sound)
      && (o.NoSuchKey? <==> !asked && sound && !keyed)
      && (o.Done? <==> !asked && sound && keyed)
  {}

  /** From the mark on: encoded, valid by its names and by everything else, proven if the connection
      moved unskipped, able to delete there if it is to, its validators resolved, and written. */
  lemma LandsByTheFirstFailure(id: SetId, target: BackupSet, after: BackupSet, want: Config, r: Request, d: Deployment, w: World, before: Option<Config>)
    ensures
      var o, valid := LandOutcome(id, target, after, want, r, d, w), Unique(want) && w.restValid;
      var prove := Connection.ChangesTheConnection(target, after, d.enc) && !r.skipConnectionCheck;
      var deletes := !(match after.readOnly case Some(readOnly) => readOnly case None => d.inherits(id));
      var proven, allowed := prove ==> w.check.ok, prove && deletes ==> w.check.writable;
      && (o.NotEncoded? <==> !w.encodes)
      && (o.InvalidConfig? <==> w.encodes && !valid)
      && (o.NotProven? <==> w.encodes && valid && !proven)
      && (o.NotWritable? <==> w.encodes && valid && proven && !allowed)
      && (o.NoCatalog? <==> w.encodes && valid && proven && allowed && !w.catalog)
      && (o.NotWritten? <==> w.encodes && valid && proven && allowed && w.catalog && !w.write.Replaced?)
      && (o.Done? <==> w.encodes && valid && proven && allowed && w.catalog && w.write.Replaced?)
      && (Lands(id, target, after, want, r, d, w) <==> w.encodes && valid && proven && allowed && w.catalog)
      && FileLeft(o, before, want, w) ==
           if w.encodes && valid && proven && allowed && w.catalog && !w.write.LeftOld? then Some(want) else before
  {}

  /** And the trust questions between the two, for a request that names a line and no other. */
  lemma TrustRefusedExactly(disk: Config, j: Repoint.Journal, files: Trust.Files, id: SetId, target: BackupSet, after: BackupSet,
                            r: Request, d: Deployment, w: World)
    ensures
      var o, keyed := OutcomeFor(disk, j, files, id, target, after, r, d, w), WithoutTrust(target, r, w.keyFile);
      && !o.NotLoaded? && !o.NotFound?
      && (o.TrustRefused? <==>
            && FieldsOutcome(j, id, target, r, d, w).Done? && r.knownHostsLine.Some?
            && !(Trust.AllSteps(w.staging)
                 && Trust.MayChangeTrust(d.matcher, files, w.name, target.remote, keyed.remote, r.knownHostsLine.value, r.acknowledgeHostKeyChange)))
  {
    LandsExactly(id, target, after, WithReplaced(disk, id, after), r, d, w);
  }

  // ----- what an edit that went through has done -----

  /** The key and the trusted line a request names are the ones the set has: the whole key is the one
      it resolved to, with no other source of one and no old spelling beside it, and with the
      passphrase the set had exactly if that file was its key already, under either spelling. */
  predicate TrustGranted(before: BackupSet, after: BackupSet, r: Request, w: World)
  {
    && (r.sshKeyId.Some? ==>
          var key, was := after.remote.key, before.remote;
          && w.keyFile.Some? && key.file == w.keyFile.value && key.env == "" && key.command == Nil && after.remote.keyFile == ""
          && key.passphrase == if key.file == was.key.file || key.file == was.keyFile then was.key.passphrase else Secret("", "", Nil))
    && (r.knownHostsLine.Some? ==> after.remote.knownHosts == w.name)
  }

  /** Beyond the sparse edit itself only the key, the trusted line and the mark can differ, the
      first two only when the request names them. */
  lemma BeyondTheEdit(target: BackupSet, r: Request, keyFile: Option<string>, path: string, enc: Connection.KeyEncryption)
    ensures
      var after, edit := EditedSet(target, r, keyFile, path, enc), Apply(target, r);
      && after == edit.(remote := after.remote, connectionUnverified := after.connectionUnverified)
      && after.remote == edit.remote.(key := after.remote.key, keyFile := after.remote.keyFile, knownHosts := after.remote.knownHosts)
      && (r.sshKeyId.None? ==> after.remote.key == target.remote.key && after.remote.keyFile == target.remote.keyFile)
      && (r.knownHostsLine.None? ==> after.remote.knownHosts == target.remote.knownHosts)
      && AddressOf(after) == AddressOf(edit)
  {}

  lemma TrustIsGranted(target: BackupSet, r: Request, d: Deployment, w: World)
    requires r.sshKeyId.Some? ==> w.keyFile.Some?
    ensures TrustGranted(target, EditedSet(target, r, w.keyFile, w.name, d.enc), r, w)
  {
    if r.sshKeyId.Some? { Connection.TheWholeKeyIsReplaced(Apply(target, r), w.keyFile.value); }
  }

  /** An edit in place: the set is found as edited, and no other set moved. */
  lemma UpdateTouchesOneSet(disk: Config, id: SetId, after: BackupSet, other: SetId)
    requires Find(disk, id).Some? && after.name == Find(disk, id).value.name
    ensures var live := WithReplaced(disk, id, after);
      Find(live, id) == Some(after) && Ids(live) == Ids(disk) && (other != id ==> Find(live, other) == Find(disk, other))
  {
    FoundIffNamed(disk, id);
    FindReplaced(disk, id, after, id);
    FindReplaced(disk, id, after, other);
    IdsReplaced(disk, id, after);
  }

  lemma FieldsHeld(j: Repoint.Journal, id: SetId, target: BackupSet, r: Request, d: Deployment, w: World)
    requires FieldsAnswered(j, id, target, r, d, w)
    ensures
      var after := EditedSet(target, r, w.keyFile, w.name, d.enc);
      && Granted(after, r) && Untouched(target, Apply(target, r), r)
      && (AddressOf(after) != AddressOf(target) && !r.acknowledgeRepoint && j.Journal? ==> w.journal.list && Repoint.History(j, id) == [])
  {
    AcceptedEditDiscardsNothing(target, r, Trust.LineRule(d.matcher), d.validators);
    BeyondTheEdit(target, r, w.keyFile, w.name, d.enc);
  }

  lemma MarkSettled(id: SetId, target: BackupSet, r: Request, d: Deployment, w: World)
    requires ConnectionAnswered(id, target, EditedSet(target, r, w.keyFile, w.name, d.enc), r, d, w)
    ensures
      var after := EditedSet(target, r, w.keyFile, w.name, d.enc);
      if Connection.ChangesTheConnection(target, after, d.enc) then
        after.connectionUnverified == r.skipConnectionCheck && (r.skipConnectionCheck || w.check.ok)
      else after.connectionUnverified == target.connectionUnverified
  {
    Connection.MarkFollowsTheConnection(target, Trusted(WithoutTrust(target, r, w.keyFile), r, w.name), r.skipConnectionCheck, d.enc);
  }

  /** The set an edit went through for holds everything the edit named; its data has not moved
      unless that was acknowledged or there was no history to lose; and if its connection moved, it
      is proven or it is marked. */
  lemma DoneUpdateDidWhatItSaid(j: Repoint.Journal, id: SetId, target: BackupSet, r: Request, d: Deployment, w: World)
    requires FieldsAnswered(j, id, target, r, d, w)
    requires ConnectionAnswered(id, target, EditedSet(target, r, w.keyFile, w.name, d.enc), r, d, w)
    ensures
      var after := EditedSet(target, r, w.keyFile, w.name, d.enc);
      && Granted(after, r) && TrustGranted(target, after, r, w) && Untouched(target, Apply(target, r), r)
      && (AddressOf(after) != AddressOf(target) && !r.acknowledgeRepoint && j.Journal? ==> w.journal.list && Repoint.History(j, id) == [])
      && (if Connection.ChangesTheConnection(target, after, d.enc) then
            after.connectionUnverified == r.skipConnectionCheck && (r.skipConnectionCheck || w.check.ok)
          else after.connectionUnverified == target.connectionUnverified)
  {
    FieldsHeld(j, id, target, r, d, w);
    TrustIsGranted(target, r, d, w);
    MarkSettled(id, target, r, d, w);
  }

  lemma WrittenSetIsGranted(disk: Config, j: Repoint.Journal, files: Trust.Files, id: SetId, r: Request, d: Deployment, w: World)
    requires MayUpdate(disk, j, files, id, r, d, w)
    ensures
      var target := Find(disk, id).value;
      var after := EditedSet(target, r, w.keyFile, w.name, d.enc);
      after.name == target.name && Granted(after, r) && Unique(Updated(Some(disk), id, r, d, w))
  {
    FieldsHeld(j, id, Find(disk, id).value, r, d, w);
  }

  /** The configuration an edit writes: the name rules hold of it and it names the ids it named,
      under this id is a set that holds everything the request named, and under every other id the
      set that was there. */
  lemma UpdateWritesOneSet(disk: Config, j: Repoint.Journal, files: Trust.Files, id: SetId, r: Request, d: Deployment, w: World, other: SetId)
    requires MayUpdate(disk, j, files, id, r, d, w)
    ensures
      var live := Updated(Some(disk), id, r, d, w);
      && Unique(live) && Ids(live) == Ids(disk) && Find(live, id).Some?
      && Granted(Find(live, id).value, r)
      && TrustGranted(Find(disk, id).value, Find(live, id).value, r, w)
      && (other != id ==> Find(live, other) == Find(disk, other))
  {
    var after := EditedSet(Find(disk, id).value, r, w.keyFile, w.name, d.enc);
    WrittenSetIsGranted(disk, j, files, id, r, d, w);
    TrustIsGranted(Find(disk, id).value, r, d, w);
    UpdateTouchesOneSet(disk, id, after, other);
  }

  /** Through the whole path as through its trust half: with a sane matcher, an edit nobody
      acknowledged leaves the set trusting the one key it offered at its address, where before it
      trusted that key or none. */
  lemma DoneUpdateReplacesNoKeyUnasked(files: Trust.Files, target: BackupSet, r: Request, d: Deployment, w: World, key: Trust.HostKey)
    requires Trust.Sane(d.matcher) && w.name !in files
    requires r.knownHostsLine.Some? && !r.acknowledgeHostKeyChange
    requires d.matcher.one(r.knownHostsLine.value).Some? && d.matcher.one(r.knownHostsLine.value).value.marker == ""
    requires TrustAnswered(files, target, r, d, w)
    ensures
      var line := r.knownHostsLine.value;
      var after := EditedSet(target, r, w.keyFile, w.name, d.enc);
      var addr, kept := Trust.HostKeyAddress(after.remote), files[w.name := Trust.StagedText(line)];
      && (Trust.Trusts(d.matcher, kept, after.remote.knownHosts, addr, key) <==> key == d.matcher.one(line).value.key)
      && (Trust.Trusts(d.matcher, files, target.remote.knownHosts, addr, key) ==> key == d.matcher.one(line).value.key)
  {}
}
