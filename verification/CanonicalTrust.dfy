/** The trust files creates write in place under their canonical names, over whole runs, with the
    process restarted and the power going out between any two steps. Nothing but a later create can
    change what a set reads from its own; and exactly two kinds of create do. */
module CanonicalTrust {
  import opened Wrappers
  import opened Config
  import opened HostKeyTrust
  import KnownHostsName
  import R = Retrust

  /** A configuration, and, of the sets in it that read the file their own create wrote, what that
      was. The second half is history. */
  datatype Version = Version(cfg: Config, wrote: map<SetId, string>)

  /** couldBe is every version a power loss at this moment could leave on disk. */
  datatype State = State(disk: Version, live: Version, couldBe: set<Version>, files: map<string, R.TrustFile>)

  /** A create from where it writes its trust file; end is none if it is refused after that, the
      duplicate id included. */
  datatype Step =
    | Create(id: SetId, bs: BackupSet, line: string, trust: TrustWrite, end: Option<WriteResult>)
    | Update(id: SetId, edited: BackupSet, w: WriteResult)
    | Remove(id: SetId, w: WriteResult)
    | Toggle(id: SetId, disabled: bool, w: WriteResult)
    | Stage(path: string, file: Option<R.TrustFile>)   // an edit's own file comes, fills or goes
    | HandEdit(cfg: Config)
    | Restart
    | PowerLoss(disk: Version, files: map<string, R.TrustFile>)

  predicate ReadsItsOwn(cfg: Config, id: SetId)
  {
    Find(cfg, id).Some? && Find(cfg, id).value.remote.knownHosts == CanonicalPath(id)
  }

  ghost predicate Enabled(s: State, step: Step)
  {
    match step
    case Create(id, bs, _, trust, end) =>
      bs.name == id.name && (end.Some? ==> trust.Whole? && Unique(WithAdded(s.disk.cfg, id.source, Anchored(bs, id))))
    case Update(id, edited, _) =>
      && Find(s.disk.cfg, id).Some? && edited.name == id.name
      && (|| edited.remote.knownHosts == Find(s.disk.cfg, id).value.remote.knownHosts
          || KnownHostsName.StagedName(edited.remote.knownHosts))
    case Remove(id, _) => Find(s.disk.cfg, id).Some?
    case Toggle(id, _, _) => Find(s.disk.cfg, id).Some?
    case Stage(path, _) => KnownHostsName.StagedName(path)
    case HandEdit(_) => true
    case Restart => true
    case PowerLoss(disk, files) => disk in s.couldBe && R.Survives(s.files, files)
  }

  /** What a set's own create wrote stays on record as long as the set is there and reads it. */
  function Kept(wrote: map<SetId, string>, cfg: Config): map<SetId, string>
  {
    map id | id in wrote && ReadsItsOwn(cfg, id) :: wrote[id]
  }

  /** A write of next, by how it ended. */
  function Written(s: State, next: Version, w: WriteResult): State
  {
    match w
    case Replaced => s.(disk := next, live := next, couldBe := {next})
    case LeftOld => s
    case RenamedUnsynced => s.(disk := next, couldBe := s.couldBe + {next})
  }

  function Rewritten(s: State, cfg: Config, w: WriteResult): State
  {
    Written(s, Version(cfg, Kept(s.disk.wrote, cfg)), w)
  }

  /** Synced only if the write says so. */
  function FileLeft(line: string, trust: TrustWrite): Option<R.TrustFile>
  {
    match LineLeft(line, trust)
    case None => None
    case Some(text) => Some(R.TrustFile(text, trust.Whole?, trust.Whole?))
  }

  function AfterTrustWrite(s: State, id: SetId, line: string, trust: TrustWrite): State
  {
    match FileLeft(line, trust)
    case None => s
    case Some(file) => s.(files := s.files[CanonicalPath(id) := file])
  }

  function CreatedVersion(s: State, id: SetId, bs: BackupSet, line: string): Version
  {
    var next := WithAdded(s.disk.cfg, id.source, Anchored(bs, id));
    Version(next, Kept(s.disk.wrote[id := CreatedText(line)], next))
  }

  /** What every other write makes of the file. */
  function NextConfig(cfg: Config, step: Step): Config
  {
    match step
    case Update(id, edited, _) => WithReplaced(cfg, id, edited)
    case Remove(id, _) => Without(cfg, id)
    case Toggle(id, disabled, _) => Toggled(cfg, id, disabled)
    case _ => cfg
  }

  ghost function After(s: State, step: Step): State
    requires Enabled(s, step)
  {
    match step
    case Create(id, bs, line, trust, end) =>
      var t := AfterTrustWrite(s, id, line, trust);
      if end.None? then t else Written(t, CreatedVersion(s, id, bs, line), end.value)
    case Update(_, _, w) => Rewritten(s, NextConfig(s.disk.cfg, step), w)
    case Remove(_, w) => Rewritten(s, NextConfig(s.disk.cfg, step), w)
    case Toggle(_, _, w) => Rewritten(s, NextConfig(s.disk.cfg, step), w)
    case Stage(path, file) => s.(files := if file.Some? then s.files[path := file.value] else s.files - {path})
    case HandEdit(cfg) =>
      var next := Version(cfg, Kept(s.disk.wrote, cfg));
      s.(disk := next, couldBe := s.couldBe + {next})
    case Restart => s.(live := s.disk)
    case PowerLoss(disk, files) => State(disk, disk, {disk}, files)
  }

  ghost function Run(s: State, steps: seq<Step>): Option<State>
  {
    if steps == [] then Some(s)
    else
      match Run(s, steps[..|steps| - 1])
      case None => None
      case Some(m) => if Enabled(m, steps[|steps| - 1]) then Some(After(m, steps[|steps| - 1])) else None
  }

  /** A deployment of which nothing is known: any sets, any files. */
  function Boot(cfg: Config, files: map<string, R.TrustFile>): State
  {
    var v := Version(cfg, map[]);
    State(v, v, {v}, files)
  }

  // ----- what a set reads is what its own create wrote -----

  predicate HoldsItsLine(files: map<string, R.TrustFile>, id: SetId, text: string)
  {
    CanonicalPath(id) in files && files[CanonicalPath(id)] == R.TrustFile(text, true, true)
  }

  predicate StandsIn(files: map<string, R.TrustFile>, v: Version)
  {
    forall id :: id in v.wrote ==> HoldsItsLine(files, id, v.wrote[id])
  }

  /** In the file, in force, and in whatever a power loss could bring back. */
  function Versions(s: State): set<Version>
  {
    s.couldBe + {s.live}
  }

  ghost predicate Stands(s: State)
  {
    forall v :: v in Versions(s) ==> StandsIn(s.files, v)
  }

  /** The record speaks of configured sets that read their own. */
  ghost predicate OnRecord(s: State)
  {
    && s.disk in s.couldBe
    && forall v: Version, id: SetId :: v in Versions(s) && id in v.wrote ==> ReadsItsOwn(v.cfg, id)
  }

  lemma StepKeepsRecord(s: State, step: Step)
    requires OnRecord(s) && Enabled(s, step)
    ensures OnRecord(After(s, step))
  {}

  /** What is still about once the create is over. */
  function Surviving(s: State, step: Step): set<Version>
    requires step.Create?
  {
    if step.end == Some(Replaced) then {s.disk} else Versions(s)
  }

  /** A create reaches its trust file, a set that is still about then reads the file of that name, and
      what lands there is not what that set's own create wrote. */
  ghost predicate Clobbers(s: State, step: Step)
  {
    && step.Create? && !step.trust.Untouched?
    && exists v: Version, o: SetId ::
         && v in Surviving(s, step) && o in v.wrote
         && KnownHostsName.BoundaryShift(step.id.source, step.id.name, o.source, o.name)
         && FileLeft(step.line, step.trust) != Some(R.TrustFile(v.wrote[o], true, true))
  }

  /** What the trust write makes of one anchor. */
  lemma OneAnchorAfter(s: State, id: SetId, line: string, trust: TrustWrite, o: SetId, text: string)
    ensures HoldsItsLine(AfterTrustWrite(s, id, line, trust).files, o, text) <==>
      if trust.Untouched? || !KnownHostsName.BoundaryShift(id.source, id.name, o.source, o.name) then HoldsItsLine(s.files, o, text)
      else FileLeft(line, trust) == Some(R.TrustFile(text, true, true))
  {
    KnownHostsName.NamesCollideExactlyOnABoundaryShift(id.source, id.name, o.source, o.name);
  }

  /** What a create that is not refused puts on record beside what was there. */
  lemma CreatedOnRecord(s: State, id: SetId, bs: BackupSet, line: string)
    requires OnRecord(s) && bs.name == id.name && Unique(WithAdded(s.disk.cfg, id.source, Anchored(bs, id)))
    ensures id !in s.disk.wrote && CreatedVersion(s, id, bs, line).wrote == s.disk.wrote[id := CreatedText(line)]
  {
    var added := Anchored(bs, id);
    DuplicateIsRefused(s.disk.cfg, id, added);
    assert id in s.disk.wrote ==> ReadsItsOwn(s.disk.cfg, id);
    forall o ensures ReadsItsOwn(WithAdded(s.disk.cfg, id.source, added), o) <==> o == id || ReadsItsOwn(s.disk.cfg, o) {
      FindAdded(s.disk.cfg, id, added, o);
    }
    assert forall o :: o in s.disk.wrote ==> ReadsItsOwn(s.disk.cfg, o);
  }

  lemma VersionsAfterCreate(s: State, step: Step)
    requires step.Create? && Enabled(s, step)
    ensures
      var created := {CreatedVersion(s, step.id, step.bs, step.line)};
      Versions(After(s, step)) ==
        (match step.end
         case None => Versions(s)
         case Some(w) => if w.Replaced? then created else if w.LeftOld? then Versions(s) else Versions(s) + created)
  {}

  lemma CreateStandsUnlessItClobbers(s: State, step: Step)
    requires OnRecord(s) && Stands(s) && Enabled(s, step) && step.Create? && !Clobbers(s, step)
    ensures Stands(After(s, step))
  {
    var t := After(s, step);
    VersionsAfterCreate(s, step);
    if step.end.Some? { CreatedOnRecord(s, step.id, step.bs, step.line); }
    forall v, o | v in Versions(t) && o in v.wrote ensures HoldsItsLine(t.files, o, v.wrote[o]) {
      OneAnchorAfter(s, step.id, step.line, step.trust, o, v.wrote[o]);
      var before := if v in Surviving(s, step) then v else s.disk;
      assert before in Surviving(s, step) && before in Versions(s);
      if o in before.wrote && before.wrote[o] == v.wrote[o] {
        assert StandsIn(s.files, before);
      } else {
        assert o == step.id && v.wrote[o] == CreatedText(step.line);
        KnownHostsName.NamesCollideExactlyOnABoundaryShift(o.source, o.name, o.source, o.name);
      }
    }
  }

  lemma ClobberingLeavesItUnsound(s: State, step: Step)
    requires OnRecord(s) && Enabled(s, step) && Clobbers(s, step)
    ensures !Stands(After(s, step))
  {
    var t := After(s, step);
    VersionsAfterCreate(s, step);
    var v: Version, o: SetId :|
      && v in Surviving(s, step) && o in v.wrote
      && KnownHostsName.BoundaryShift(step.id.source, step.id.name, o.source, o.name)
      && FileLeft(step.line, step.trust) != Some(R.TrustFile(v.wrote[o], true, true));
    OneAnchorAfter(s, step.id, step.line, step.trust, o, v.wrote[o]);
    var after := if step.end == Some(Replaced) then CreatedVersion(s, step.id, step.bs, step.line) else v;
    if step.end == Some(Replaced) { CreatedOnRecord(s, step.id, step.bs, step.line); }
    assert after in Versions(t) && o in after.wrote && after.wrote[o] == v.wrote[o];
    assert !StandsIn(t.files, after);
  }

  lemma RewrittenStands(s: State, cfg: Config, w: WriteResult)
    requires s.disk in s.couldBe && Stands(s)
    ensures Stands(Rewritten(s, cfg, w))
  {
    assert StandsIn(s.files, s.disk);
  }

  lemma OthersTouchNoAnchor(s: State, step: Step)
    requires OnRecord(s) && Stands(s) && Enabled(s, step) && !step.Create?
    ensures Stands(After(s, step))
  {
    var t := After(s, step);
    assert StandsIn(s.files, s.disk);
    match step
    case Update(_, _, w) => RewrittenStands(s, NextConfig(s.disk.cfg, step), w);
    case Remove(_, w) => RewrittenStands(s, NextConfig(s.disk.cfg, step), w);
    case Toggle(_, _, w) => RewrittenStands(s, NextConfig(s.disk.cfg, step), w);
    case Stage(path, file) =>
      forall v, o | v in Versions(t) && o in v.wrote ensures HoldsItsLine(t.files, o, v.wrote[o]) {
        KnownHostsName.StagedIsNeverCanonical(path, o.source, o.name);
        assert StandsIn(s.files, v);
      }
    case _ =>
  }

  /** Step by step, and nothing else: an anchor is lost exactly when a create writes other bytes over
      the file of a set that is still about. */
  lemma AnchorsLostExactlyByClobbering(s: State, step: Step)
    requires OnRecord(s) && Stands(s) && Enabled(s, step)
    ensures Stands(After(s, step)) <==> !Clobbers(s, step)
  {
    if Clobbers(s, step) {
      ClobberingLeavesItUnsound(s, step);
    } else if step.Create? {
      CreateStandsUnlessItClobbers(s, step);
    } else {
      OthersTouchNoAnchor(s, step);
    }
  }

  // ----- over every run -----

  /** No set in the file, in force, or in what could come back has this id or one that shares its
      file's name. */
  ghost predicate NobodyShares(s: State, id: SetId)
  {
    forall v: Version, o: SetId :: v in Versions(s) && Find(v.cfg, o).Some? ==>
      !KnownHostsName.BoundaryShift(id.source, id.name, o.source, o.name)
  }

  ghost predicate CarefulRun(s: State, steps: seq<Step>)
  {
    steps == [] ||
      var before, step := steps[..|steps| - 1], steps[|steps| - 1];
      CarefulRun(s, before) &&
      match Run(s, before)
      case None => false
      case Some(m) => step.Create? ==> NobodyShares(m, step.id)
  }

  lemma {:induction false} CarefulRunStands(cfg: Config, files: map<string, R.TrustFile>, steps: seq<Step>, s: State)
    requires Run(Boot(cfg, files), steps) == Some(s) && CarefulRun(Boot(cfg, files), steps)
    ensures OnRecord(s) && Stands(s)
  {
    if steps != [] {
      var m, step := Run(Boot(cfg, files), steps[..|steps| - 1]).value, steps[|steps| - 1];
      CarefulRunStands(cfg, files, steps[..|steps| - 1], m);
      StepKeepsRecord(m, step);
      AnchorsLostExactlyByClobbering(m, step);
    }
  }

  /** The main result. Over every run of creates, done and refused, edits, removals, toggles, hand
      edits, restarts and power losses in which no create goes over a configured id or one that shares
      its file's name: every set a create here configured, as long as nothing has pointed it
      elsewhere, in the file, in force and in whatever could come back, reads the whole line its own
      create wrote, on disk for good. */
  lemma EveryCreatedSetReadsItsOwnLine(cfg: Config, files: map<string, R.TrustFile>, steps: seq<Step>, s: State, v: Version, id: SetId)
    requires Run(Boot(cfg, files), steps) == Some(s) && CarefulRun(Boot(cfg, files), steps)
    requires v in Versions(s) && id in v.wrote
    ensures Find(v.cfg, id).Some?
    ensures var path := Find(v.cfg, id).value.remote.knownHosts;
      path in s.files && s.files[path] == R.TrustFile(v.wrote[id], true, true)
  {
    CarefulRunStands(cfg, files, steps, s);
    assert ReadsItsOwn(v.cfg, id) && StandsIn(s.files, v);
  }

  /** A step that takes the set out, points it elsewhere, or goes round the service. */
  predicate TakesOffRecord(step: Step, id: SetId)
  {
    match step
    case Remove(at, _) => at == id
    case Update(at, edited, _) => at == id && edited.remote.knownHosts != CanonicalPath(id)
    case HandEdit(_) => true
    case PowerLoss(_, _) => true
    case _ => false
  }

  lemma StillReadsItsOwn(cfg: Config, step: Step, id: SetId)
    requires ReadsItsOwn(cfg, id) && !TakesOffRecord(step, id)
    requires step.Update? ==> step.edited.name == step.id.name
    ensures ReadsItsOwn(NextConfig(cfg, step), id)
  {
    match step
    case Update(at, edited, _) => FindReplaced(cfg, at, edited, id);
    case Remove(at, _) => FindWithout(cfg, at, id);
    case Toggle(at, disabled, _) => FindToggled(cfg, at, disabled, id);
    case _ =>
  }

  lemma RewrittenKeeps(s: State, cfg: Config, w: WriteResult, id: SetId)
    requires id in s.disk.wrote && ReadsItsOwn(cfg, id)
    ensures id in Rewritten(s, cfg, w).disk.wrote && Rewritten(s, cfg, w).disk.wrote[id] == s.disk.wrote[id]
  {}

  /** The record is not lost on the way: a create that is done puts its set on it, and there it stays,
      in the file, through every other step. */
  lemma StaysOnRecord(s: State, step: Step, id: SetId)
    requires OnRecord(s) && Enabled(s, step) && !TakesOffRecord(step, id)
    requires id in s.disk.wrote || (step.Create? && step.id == id && step.end.Some? && !step.end.value.LeftOld?)
    ensures
      var wrote := After(s, step).disk.wrote;
      id in wrote && wrote[id] == if id in s.disk.wrote then s.disk.wrote[id] else CreatedText(step.line)
  {
    if step.Create? {
      if step.end.Some? { CreatedOnRecord(s, step.id, step.bs, step.line); }
    } else {
      StillReadsItsOwn(s.disk.cfg, step, id);
      if step.Update? || step.Remove? || step.Toggle? {
        RewrittenKeeps(s, NextConfig(s.disk.cfg, step), step.w, id);
      }
    }
  }

  predicate Synced(step: Step)
  {
    match step
    case Create(_, _, _, _, end) => end != Some(RenamedUnsynced)
    case Update(_, _, w) => !w.RenamedUnsynced?
    case Remove(_, w) => !w.RenamedUnsynced?
    case Toggle(_, _, w) => !w.RenamedUnsynced?
    case HandEdit(_) => false
    case _ => true
  }

  lemma SyncedStepKeepsOneVersion(s: State, step: Step)
    requires Versions(s) == {s.disk} && s.couldBe == {s.disk} && Enabled(s, step) && Synced(step)
    ensures var t := After(s, step); t.couldBe == {t.disk} && t.live == t.disk
  {
    assert s.live in Versions(s);
  }

  /** As long as every rename is synced and nobody edits by hand, the file is all there is to look at:
      it is what is in force, and nothing else can come back. */
  lemma {:induction false} SyncedRunsHaveOneVersion(cfg: Config, files: map<string, R.TrustFile>, steps: seq<Step>, s: State)
    requires Run(Boot(cfg, files), steps) == Some(s) && forall i :: 0 <= i < |steps| ==> Synced(steps[i])
    ensures s.couldBe == {s.disk} && s.live == s.disk && Versions(s) == {s.disk}
  {
    if steps != [] {
      var before := steps[..|steps| - 1];
      var m := Run(Boot(cfg, files), before).value;
      SyncedRunsHaveOneVersion(cfg, files, before, m);
      SyncedStepKeepsOneVersion(m, steps[|steps| - 1]);
    }
  }

  // ----- the creates that are not careful -----

  lemma Twice(s: State, first: Step, second: Step)
    requires Enabled(s, first) && Enabled(After(s, first), second)
    ensures Run(s, [first, second]) == Some(After(After(s, first), second))
  {
    assert [first, second][..1] == [first] && [first][..0] == [];
    assert Run(s, [first]) == Some(After(s, first));
  }

  function CreatedFirst(id: SetId, bs: BackupSet, line: string): Step
  {
    Create(id, bs, line, Whole, Some(Replaced))
  }

  lemma FirstCreate(id: SetId, bs: BackupSet, line: string)
    requires bs.name == id.name
    ensures
      var s0, step := Boot([], map[]), CreatedFirst(id, bs, line);
      && Enabled(s0, step)
      && var s := After(s0, step);
         && OnRecord(s) && s.live == s.disk && Unique(s.disk.cfg) && s.disk.wrote == map[id := CreatedText(line)]
         && (forall o :: Find(s.disk.cfg, o) == if o == id then Some(Anchored(bs, id)) else None)
  {
    var s0, added := Boot([], map[]), Anchored(bs, id);
    AddedStaysUnique([], id, added);
    CreatedOnRecord(s0, id, bs, line);
    StepKeepsRecord(s0, CreatedFirst(id, bs, line));
    forall o ensures Find(WithAdded([], id.source, added), o) == if o == id then Some(added) else None {
      FindAdded([], id, added, o);
    }
  }

  /** A create over a configured id, refused once Validate sees it: the set is as it was, in the file
      and in force, and the line it reads is the refused request's. */
  lemma RefusedDuplicateReplacesTheLine(id: SetId, bs: BackupSet, line: string, again: BackupSet, sent: string) returns (s: State)
    requires bs.name == again.name == id.name
    ensures Run(Boot([], map[]), [CreatedFirst(id, bs, line), Create(id, again, sent, Whole, None)]) == Some(s)
    ensures s.live == s.disk && Find(s.disk.cfg, id) == Some(Anchored(bs, id)) && s.disk.wrote == map[id := CreatedText(line)]
    ensures
      var path := Find(s.disk.cfg, id).value.remote.knownHosts;
      path in s.files && s.files[path] == R.TrustFile(CreatedText(sent), true, true)
  {
    var s0 := Boot([], map[]);
    FirstCreate(id, bs, line);
    var m := After(s0, CreatedFirst(id, bs, line));
    Twice(s0, CreatedFirst(id, bs, line), Create(id, again, sent, Whole, None));
    s := After(m, Create(id, again, sent, Whole, None));
  }

  /** And a create that goes through, over a free id that shares the name of a configured one's file:
      two sets, one file, and the first reads the second's line. */
  lemma CollidingCreateReplacesTheLine(id: SetId, bs: BackupSet, line: string, other: SetId, bs': BackupSet, sent: string) returns (s: State)
    requires bs.name == id.name && bs'.name == other.name && id != other
    requires KnownHostsName.BoundaryShift(other.source, other.name, id.source, id.name)
    ensures Run(Boot([], map[]), [CreatedFirst(id, bs, line), CreatedFirst(other, bs', sent)]) == Some(s)
    ensures s.live == s.disk && Find(s.disk.cfg, id) == Some(Anchored(bs, id)) && Find(s.disk.cfg, other) == Some(Anchored(bs', other))
    ensures s.disk.wrote == map[id := CreatedText(line), other := CreatedText(sent)]
    ensures
      var path := Find(s.disk.cfg, id).value.remote.knownHosts;
      path in s.files && s.files[path] == R.TrustFile(CreatedText(sent), true, true)
  {
    var s0, first, second := Boot([], map[]), CreatedFirst(id, bs, line), CreatedFirst(other, bs', sent);
    FirstCreate(id, bs, line);
    var m := After(s0, first);
    AddedStaysUnique(m.disk.cfg, other, Anchored(bs', other));
    CreatedOnRecord(m, other, bs', sent);
    FindAdded(m.disk.cfg, other, Anchored(bs', other), id);
    FindAdded(m.disk.cfg, other, Anchored(bs', other), other);
    Twice(s0, first, second);
    s := After(m, second);
    KnownHostsName.NamesCollideExactlyOnABoundaryShift(other.source, other.name, id.source, id.name);
  }

  /** Two ids the form accepts that do so. */
  lemma TwoLegalSetsReadOneLine(bs: BackupSet, line: string, bs': BackupSet, sent: string) returns (s: State)
    requires bs.name == "b" && bs'.name == "_b"
    ensures Run(Boot([], map[]), [CreatedFirst(SetId("a_", "b"), bs, line), CreatedFirst(SetId("a", "_b"), bs', sent)]) == Some(s)
    ensures Find(s.live.cfg, SetId("a_", "b")).Some? && Find(s.live.cfg, SetId("a", "_b")).Some?
    ensures
      var path := Find(s.live.cfg, SetId("a_", "b")).value.remote.knownHosts;
      path in s.files && s.files[path] == R.TrustFile(CreatedText(sent), true, true)
  {
    KnownHostsName.TwoSetsOneFile();
    KnownHostsName.NamesCollideExactlyOnABoundaryShift("a", "_b", "a_", "b");
    s := CollidingCreateReplacesTheLine(SetId("a_", "b"), bs, line, SetId("a", "_b"), bs', sent);
  }
}
