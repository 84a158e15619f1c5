/** A re-trust on disk, with the power going out, or the configuration edited by hand, between any
    two of its steps. The line is staged, synced and checked under a fresh name before any
    configuration names it, so that whichever configuration comes back, every path an edit put
    there names a whole file that verified. */
module Retrust {
  import opened Wrappers
  import opened Config
  import opened HostKeyTrust
  import KnownHostsName

  /** bytes and entry say whether the text, and the name, would survive a crash. */
  datatype TrustFile = TrustFile(text: string, bytes: bool, entry: bool)

  /** What an edit staged a file for. */
  datatype Purpose = Purpose(text: string, addr: string, key: HostKey)

  /** The known_hosts path one set's configuration names, and whether an edit put it there. */
  datatype Anchor = Anchor(path: string, put: Option<Purpose>)

  type Anchors = map<SetId, Anchor>

  datatype Stage = Opened | Wrote | Synced | Closed | Checked | Ready

  /** loaded is the configuration as the edit read it under the lock: what it writes is that, with
      one set changed. */
  datatype Edit = Edit(id: SetId, path: string, purpose: Purpose, loaded: Anchors, before: map<string, TrustFile>)

  datatype Phase =
    | Idle
    | Staging(e: Edit, stage: Stage)
    | Renamed(e: Edit)
    | Undoing(e: Edit, renamed: bool)

  /** now is the configuration on disk as a reader finds it; couldBe is every configuration a crash
      at this moment could leave; ever is every anchor an edit has put into one. */
  datatype State = State(files: map<string, TrustFile>, now: Anchors, couldBe: set<Anchors>, ever: set<Anchor>, phase: Phase)

  datatype Step =
    | StartEdit(id: SetId, path: string, purpose: Purpose)
    | WriteLine
    | WriteFails(partial: string)
    | SyncLine
    | CloseLine
    | CheckLine
    | SyncDirectory
    | Refuse                                                          // any other failure before the rename
    | Rename
    | SyncConfigDirectory
    | SyncConfigDirectoryFails
    | Undo
    | UndoFails                                                       // the remove failed, and nobody looked
    | TouchCanonical(source: string, name: string, file: TrustFile)   // a create, at any of its steps
    | OtherConfig(next: Anchors, synced: bool)                        // any other write, or a hand edit
    | Crash(files: map<string, TrustFile>, config: Anchors)

  /** Only an edit puts a staged path into a configuration; anything else carries over, or brings
      back, ones that have been there. */
  predicate PutsOnlyKnown(c: Anchors, ever: set<Anchor>)
  {
    forall id :: id in c && c[id].put.Some? ==> c[id] in ever
  }

  /** What a crash promises: a file whose text and name were both synced is there, whole. Anything
      else may be gone, cut short, or come back. */
  predicate Survives(before: map<string, TrustFile>, after: map<string, TrustFile>)
  {
    forall p :: p in before && before[p].bytes && before[p].entry ==> p in after && after[p] == before[p]
  }

  ghost predicate Enabled(m: Matcher, s: State, step: Step)
  {
    match step
    case StartEdit(id, path, _) => s.phase.Idle? && id in s.now && path !in s.files && KnownHostsName.StagedName(path)
    case WriteLine => s.phase.Staging? && s.phase.stage.Opened?
    case WriteFails(_) => s.phase.Staging? && s.phase.stage.Opened?
    case SyncLine => s.phase.Staging? && s.phase.stage.Wrote?
    case CloseLine => s.phase.Staging? && s.phase.stage.Synced?
    case CheckLine => s.phase.Staging? && s.phase.stage.Closed?
      && VerifiesAddress(m, s.phase.e.purpose.text, s.phase.e.purpose.addr, s.phase.e.purpose.key)
    case SyncDirectory => s.phase.Staging? && s.phase.stage.Checked?
    case Refuse => s.phase.Staging?
    case Rename => s.phase.Staging? && s.phase.stage.Ready?
    case SyncConfigDirectory => s.phase.Renamed?
    case SyncConfigDirectoryFails => s.phase.Renamed?
    case Undo => s.phase.Undoing?
    case UndoFails => s.phase.Undoing?
    case TouchCanonical(_, _, _) => s.phase.Idle?
    case OtherConfig(next, _) => PutsOnlyKnown(next, s.ever)
    case Crash(files, config) => config in s.couldBe && Survives(s.files, files)
  }

  function At(s: State, file: TrustFile, stage: Stage): State
    requires s.phase.Staging?
  {
    s.(files := s.files[s.phase.e.path := file], phase := Phase.Staging(s.phase.e, stage))
  }

  function AnchorOf(e: Edit): Anchor
  {
    Anchor(e.path, Some(e.purpose))
  }

  /** What the edit writes. A hand edit made since it read the file is overwritten. */
  function Edited(e: Edit): Anchors
  {
    e.loaded[e.id := AnchorOf(e)]
  }

  ghost function After(m: Matcher, s: State, step: Step): State
    requires Enabled(m, s, step)
  {
    match step
    case StartEdit(id, path, purpose) =>
      var e := Edit(id, path, purpose, s.now, s.files);
      s.(files := s.files[path := TrustFile("", false, false)], phase := Phase.Staging(e, Opened))
    case WriteLine => At(s, TrustFile(s.phase.e.purpose.text, false, false), Wrote)
    case WriteFails(partial) =>
      s.(files := s.files[s.phase.e.path := TrustFile(partial, false, false)], phase := Undoing(s.phase.e, false))
    case SyncLine => At(s, TrustFile(s.phase.e.purpose.text, true, false), Synced)
    case CloseLine => s.(phase := Phase.Staging(s.phase.e, Closed))
    case CheckLine => s.(phase := Phase.Staging(s.phase.e, Checked))
    case SyncDirectory => At(s, TrustFile(s.phase.e.purpose.text, true, true), Ready)
    case Refuse => s.(phase := Undoing(s.phase.e, false))
    case Rename =>
      var next := Edited(s.phase.e);
      s.(now := next, couldBe := s.couldBe + {next}, ever := s.ever + {AnchorOf(s.phase.e)}, phase := Renamed(s.phase.e))
    case SyncConfigDirectory => s.(couldBe := if s.now == Edited(s.phase.e) then {s.now} else s.couldBe, phase := Idle)
    case SyncConfigDirectoryFails => s.(phase := Undoing(s.phase.e, true))
    case Undo => s.(files := s.files - {s.phase.e.path}, phase := Idle)
    case UndoFails => s.(phase := Idle)
    case TouchCanonical(source, name, file) => s.(files := s.files[KnownHostsName.FileName(source, name) := file])
    case OtherConfig(next, synced) => s.(now := next, couldBe := if synced then {next} else s.couldBe + {next})
    case Crash(files, config) => State(files, config, {config}, s.ever, Idle)
  }

  ghost function Run(m: Matcher, s: State, steps: seq<Step>): Option<State>
  {
    if steps == [] then Some(s)
    else
      match Run(m, s, steps[..|steps| - 1])
      case None => None
      case Some(b) => if Enabled(m, b, steps[|steps| - 1]) then Some(After(m, b, steps[|steps| - 1])) else None
  }

  /** A deployment whose anchors were all written by creates or by hand. */
  ghost predicate Fresh(s: State)
  {
    s.phase.Idle? && s.couldBe == {s.now} && s.ever == {} && PutsOnlyKnown(s.now, {})
  }

  // ----- the invariant -----

  /** The path names a whole file, on disk for good, that verifies the address it was staged for. */
  ghost predicate Sound(m: Matcher, files: map<string, TrustFile>, a: Anchor)
    requires a.put.Some?
  {
    var p := a.put.value;
    && KnownHostsName.StagedName(a.path)
    && a.path in files && files[a.path] == TrustFile(p.text, true, true)
    && VerifiesAddress(m, p.text, p.addr, p.key)
  }

  /** Some configuration that is, or could come back, on disk names path because an edit put it
      there. */
  predicate Named(s: State, path: string)
  {
    exists c: Anchors, id: SetId :: c in s.couldBe && id in c && c[id].put.Some? && c[id].path == path
  }

  /** Every configuration that is, or could come back, on disk names sound anchors only. */
  ghost predicate AnchorsSound(m: Matcher, s: State)
  {
    forall c: Anchors, id: SetId :: c in s.couldBe && id in c && c[id].put.Some? ==> Sound(m, s.files, c[id])
  }

  predicate ConfigsInv(s: State)
  {
    && s.now in s.couldBe
    && (forall c: Anchors :: c in s.couldBe ==> PutsOnlyKnown(c, s.ever))
    && (s.phase.Staging? ==> PutsOnlyKnown(s.phase.e.loaded, s.ever))
  }

  /** Every anchor an edit ever put into a configuration is sound, whether or not one names it now:
      an old configuration may be brought back at any time. */
  ghost predicate EverSound(m: Matcher, s: State)
  {
    forall a :: a in s.ever ==> a.put.Some? && Sound(m, s.files, a)
  }

  predicate NeverPut(s: State, path: string)
  {
    forall a :: a in s.ever ==> a.path != path
  }

  function FileAt(text: string, stage: Stage): TrustFile
  {
    match stage
    case Opened => TrustFile("", false, false)
    case Wrote => TrustFile(text, false, false)
    case Synced => TrustFile(text, true, false)
    case Closed => TrustFile(text, true, false)
    case Checked => TrustFile(text, true, false)
    case Ready => TrustFile(text, true, true)
  }

  ghost predicate PhaseInv(m: Matcher, s: State)
  {
    match s.phase
    case Idle => true
    case Staging(e, stage) =>
      && NeverPut(s, e.path) && e.path !in e.before && KnownHostsName.StagedName(e.path)
      && e.path in s.files && s.files - {e.path} == e.before
      && s.files[e.path] == FileAt(e.purpose.text, stage)
      && (stage.Checked? || stage.Ready? ==> VerifiesAddress(m, e.purpose.text, e.purpose.addr, e.purpose.key))
    case Renamed(e) => AnchorOf(e) in s.ever && e.path !in e.before && s.files - {e.path} == e.before
    case Undoing(e, renamed) =>
      && e.path !in e.before && s.files - {e.path} == e.before
      && if renamed then AnchorOf(e) in s.ever else NeverPut(s, e.path)
  }

  ghost predicate Inv(m: Matcher, s: State)
  {
    ConfigsInv(s) && EverSound(m, s) && PhaseInv(m, s)
  }

  /** The durability reached at each staging step, whatever anybody writes meanwhile. */
  lemma StepKeepsPhase(m: Matcher, s: State, step: Step)
    requires Inv(m, s) && Enabled(m, s, step)
    ensures PhaseInv(m, After(m, s, step))
  {}

  lemma StepKeepsConfigs(m: Matcher, s: State, step: Step)
    requires Inv(m, s) && Enabled(m, s, step)
    ensures ConfigsInv(After(m, s, step))
  {}

  /** Taking the file back from under its anchor is the one step that makes an anchor unsound. */
  lemma EverSoundLostExactlyByALateUndo(m: Matcher, s: State, step: Step)
    requires Inv(m, s) && Enabled(m, s, step)
    ensures EverSound(m, After(m, s, step)) <==> !(step.Undo? && s.phase.renamed)
  {
    var t := After(m, s, step);
    if step.Undo? && s.phase.renamed {
      assert AnchorOf(s.phase.e) in t.ever && s.phase.e.path !in t.files;
    } else {
      forall a | a in t.ever ensures a.put.Some? && Sound(m, t.files, a) {
        if a in s.ever {
          assert Sound(m, s.files, a);
          if step.TouchCanonical? { KnownHostsName.StagedIsNeverCanonical(a.path, step.source, step.name); }
        }
      }
    }
  }

  lemma KnownAreSound(m: Matcher, s: State)
    requires ConfigsInv(s) && EverSound(m, s)
    ensures AnchorsSound(m, s)
  {
    forall c: Anchors, id: SetId | c in s.couldBe && id in c && c[id].put.Some? ensures Sound(m, s.files, c[id]) {
      assert PutsOnlyKnown(c, s.ever);
    }
  }

  /** So the one step that can leave a configuration naming an edit's file that is not there is
      taking back a staged file while one still names it. */
  lemma AnchorsLostExactlyByUndoingANamedFile(m: Matcher, s: State, step: Step)
    requires Inv(m, s) && Enabled(m, s, step)
    ensures AnchorsSound(m, After(m, s, step)) <==> !(step.Undo? && Named(s, s.phase.e.path))
  {
    var t := After(m, s, step);
    StepKeepsConfigs(m, s, step);
    EverSoundLostExactlyByALateUndo(m, s, step);
    if !step.Undo? {
      KnownAreSound(m, t);
    } else if Named(s, s.phase.e.path) {
      var c: Anchors, id: SetId :| c in s.couldBe && id in c && c[id].put.Some? && c[id].path == s.phase.e.path;
      assert c in t.couldBe && !Sound(m, t.files, c[id]);
    } else {
      KnownAreSound(m, s);
      forall c: Anchors, id: SetId | c in t.couldBe && id in c && c[id].put.Some? ensures Sound(m, t.files, c[id]) {
        assert c[id].path != s.phase.e.path && Sound(m, s.files, c[id]);
      }
    }
  }

  // ----- over every run -----

  /** No staged file is taken back after the rename that named it. */
  ghost predicate TakesBackOnlyUnnamed(m: Matcher, s0: State, steps: seq<Step>)
  {
    steps == [] ||
    (&& TakesBackOnlyUnnamed(m, s0, steps[..|steps| - 1])
     && (steps[|steps| - 1].Undo? ==>
           match Run(m, s0, steps[..|steps| - 1])
           case None => true
           case Some(b) => b.phase.Undoing? ==> !b.phase.renamed))
  }

  predicate RenamesAreSynced(steps: seq<Step>)
  {
    forall i :: 0 <= i < |steps| ==> !steps[i].SyncConfigDirectoryFails?
  }

  /** None is, unless the directory sync after a rename failed. */
  lemma {:induction false} SyncedRenamesAreNeverTakenBack(m: Matcher, s0: State, steps: seq<Step>, s: State)
    requires Fresh(s0) && RenamesAreSynced(steps) && Run(m, s0, steps) == Some(s)
    ensures TakesBackOnlyUnnamed(m, s0, steps) && (s.phase.Undoing? ==> !s.phase.renamed)
  {
    if steps != [] {
      SyncedRenamesAreNeverTakenBack(m, s0, steps[..|steps| - 1], Run(m, s0, steps[..|steps| - 1]).value);
      assert !steps[|steps| - 1].SyncConfigDirectoryFails?;
    }
  }

  lemma {:induction false} RunKeepsInv(m: Matcher, s0: State, steps: seq<Step>, s: State)
    requires Fresh(s0) && Run(m, s0, steps) == Some(s) && TakesBackOnlyUnnamed(m, s0, steps)
    ensures Inv(m, s)
  {
    if steps != [] {
      var b, step := Run(m, s0, steps[..|steps| - 1]).value, steps[|steps| - 1];
      RunKeepsInv(m, s0, steps[..|steps| - 1], b);
      StepKeepsPhase(m, b, step);
      StepKeepsConfigs(m, b, step);
      EverSoundLostExactlyByALateUndo(m, b, step);
    }
  }

  /** The main result. Over every run of edits, creates and other writes, with hand edits of the
      configuration and crashes between any two steps and every other failure on the way: every
      path an edit put into the configuration on disk names a whole, synced file that verifies the
      address it was staged for, and so does every one a crash right now could bring back. */
  lemma EditAnchorsAlwaysVerify(m: Matcher, s0: State, steps: seq<Step>, s: State, id: SetId, files: map<string, TrustFile>, config: Anchors)
    requires Fresh(s0) && Run(m, s0, steps) == Some(s) && TakesBackOnlyUnnamed(m, s0, steps)
    requires Enabled(m, s, Crash(files, config))
    ensures id in s.now && s.now[id].put.Some? ==> Sound(m, s.files, s.now[id])
    ensures id in config && config[id].put.Some? ==> Sound(m, files, config[id])
    ensures id in config && config[id].put.Some? ==>
              var (path, p) := (config[id].path, config[id].put.value);
              path in files && VerifiesAddress(m, files[path].text, p.addr, p.key)
  {
    RunKeepsInv(m, s0, steps, s);
    KnownAreSound(m, s);
    if id in config && config[id].put.Some? {
      assert Sound(m, s.files, config[id]);
    }
  }

  /** A refused edit leaves the directory exactly as it found it, or with its own file too if the
      remove failed; no configuration names that file, and none is changed. */
  lemma RefusedEditLeavesNothing(m: Matcher, s0: State, steps: seq<Step>, s: State)
    requires Fresh(s0) && Run(m, s0, steps) == Some(s) && TakesBackOnlyUnnamed(m, s0, steps)
    requires s.phase.Undoing? && !s.phase.renamed
    ensures
      var e, gone, left := s.phase.e, After(m, s, Undo), After(m, s, UndoFails);
      && gone.files == e.before && left.files - {e.path} == e.before
      && !Named(gone, e.path) && !Named(left, e.path)
      && gone.now == left.now == s.now
  {
    RunKeepsInv(m, s0, steps, s);
    var e := s.phase.e;
    forall c: Anchors, id: SetId | c in s.couldBe && id in c && c[id].put.Some? ensures c[id].path != e.path {
      assert PutsOnlyKnown(c, s.ever);
    }
  }

  predicate WritesAreSynced(steps: seq<Step>)
  {
    RenamesAreSynced(steps) && forall i :: 0 <= i < |steps| && steps[i].OtherConfig? ==> steps[i].synced
  }

  /** What a crash could bring back: nothing older than a synced write, and everything that was there
      before one that is not. */
  lemma CouldBeAfter(m: Matcher, s: State, step: Step)
    requires s.now in s.couldBe && Enabled(m, s, step)
    ensures
      var t := After(m, s, step);
      && t.now in t.couldBe
      && (step.Crash? || (step.OtherConfig? && step.synced) ==> t.couldBe == {t.now})
      && (step.SyncConfigDirectory? && s.now == Edited(s.phase.e) ==> t.couldBe == {t.now})
      && (step.Rename? || (step.OtherConfig? && !step.synced) ==> t.couldBe == s.couldBe + {t.now})
      && (step.SyncConfigDirectory? && s.now != Edited(s.phase.e) ==> t.couldBe == s.couldBe)
  {}

  /** As long as every write is synced, and between a rename and its sync aside, the configuration on
      disk is all a crash could leave. */
  lemma {:induction false} SyncedRunsHaveOneConfiguration(m: Matcher, s0: State, steps: seq<Step>, s: State)
    requires Fresh(s0) && WritesAreSynced(steps) && Run(m, s0, steps) == Some(s)
    ensures (s.phase.Undoing? ==> !s.phase.renamed)
    ensures s.couldBe == {s.now} || (s.phase.Renamed? && s.now == Edited(s.phase.e))
  {
    if steps != [] {
      var b := Run(m, s0, steps[..|steps| - 1]).value;
      SyncedRunsHaveOneConfiguration(m, s0, steps[..|steps| - 1], b);
      var step := steps[|steps| - 1];
      assert !step.SyncConfigDirectoryFails? && (step.OtherConfig? ==> step.synced);
    }
  }

  // ----- the third outcome -----

  lemma Next(m: Matcher, s: State, steps: seq<Step>, b: State, step: Step) returns (longer: seq<Step>, n: State)
    requires Run(m, s, steps) == Some(b) && Enabled(m, b, step)
    ensures n == After(m, b, step) && Run(m, s, longer) == Some(n)
  {
    longer, n := steps + [step], After(m, b, step);
    assert longer[..|longer| - 1] == steps;
  }

  /** With the configuration renamed and its directory not synced, the edit answers with an error
      and takes its file back: the configuration on disk is left naming a file that is gone. */
  lemma UnsyncedRenameLosesTheAnchor(m: Matcher, s0: State, id: SetId, path: string, purpose: Purpose) returns (steps: seq<Step>, s: State)
    requires Fresh(s0) && id in s0.now && path !in s0.files && KnownHostsName.StagedName(path)
    requires VerifiesAddress(m, purpose.text, purpose.addr, purpose.key)
    ensures Run(m, s0, steps) == Some(s) && s.phase.Idle?
    ensures id in s.now && s.now[id] == Anchor(path, Some(purpose)) && path !in s.files
  {
    steps, s := Next(m, s0, [], s0, StartEdit(id, path, purpose));
    steps, s := Next(m, s0, steps, s, WriteLine);
    steps, s := Next(m, s0, steps, s, SyncLine);
    steps, s := Next(m, s0, steps, s, CloseLine);
    steps, s := Next(m, s0, steps, s, CheckLine);
    steps, s := Next(m, s0, steps, s, SyncDirectory);
    steps, s := Next(m, s0, steps, s, Rename);
    steps, s := Next(m, s0, steps, s, SyncConfigDirectoryFails);
    steps, s := Next(m, s0, steps, s, Undo);
  }
}
