/** The "connection unverified" mark over whole runs: a set this service wrote that does not carry
    it has had the very connection it dials now pass a check. And one that deletes from its source
    has had a check show it can. A test dials the configuration in force and its clear goes to the
    file, and a write can leave the two apart, until a restart or a power loss settles which it is. */
module Verified {
  import opened Wrappers
  import opened Config
  import opened Connection

  datatype TestId = TestId(n: nat)

  /** One press of the button: what it dialled; whether, when it looked, the file held that same
      connection under the id; what came back; and whether anything has moved the set's connection
      in the file since. */
  datatype Test = Test(id: SetId, dialled: Dialled, agreed: bool, passed: bool, writable: bool, disturbed: bool)

  /** The file as a write left it, with the history that goes with it. evidence and licence: the
      connection dialled by the check on whose strength an id was last written without a mark, and
      was last let to delete. ours: the ids whose entry this service wrote and nobody has edited by
      hand since. */
  datatype Saved = Saved(file: Config, evidence: map<SetId, Dialled>, licence: map<SetId, Dialled>, ours: set<SetId>)

  /** couldBe is everything a power loss at this moment could leave in the file. The rest is history:
      proven and canWrite, every connection a check has passed on and those where it could write;
      evidence, licence and ours as of the file, inForce of the configuration in force. */
  datatype State = State(
    disk: Config, live: Config, couldBe: set<Saved>, tests: map<TestId, Test>,
    proven: set<Dialled>, canWrite: set<Dialled>,
    evidence: map<SetId, Dialled>, licence: map<SetId, Dialled>,
    ours: set<SetId>, inForce: set<SetId>)

  datatype Step =
    | Create(id: SetId, bs: BackupSet, skip: bool, result: TestResult, w: WriteResult)
    | Update(id: SetId, edited: BackupSet, skip: bool, result: TestResult, w: WriteResult)
    | Remove(id: SetId, w: WriteResult)
    | Toggle(id: SetId, disabled: bool, w: WriteResult)
    | TestStart(t: TestId, id: SetId)
    | TestPass(t: TestId, writable: bool)
    | Clear(t: TestId, w: WriteResult)
    | ReadOnlyOn(id: SetId, w: WriteResult)
    | ReadOnlyOff(t: TestId, w: WriteResult)
    | HandEdit(file: Config)
    | Restart
    | PowerLoss(saved: Saved)

  /** What does not change over a run: the deployment's key encryption, and what a set that says
      nothing about read-only inherits. */
  datatype Fixed = Fixed(enc: KeyEncryption, inherits: SetId -> bool)

  predicate Deletes(id: SetId, bs: BackupSet, fixed: Fixed)
  {
    !(match bs.readOnly case Some(r) => r case None => fixed.inherits(id))
  }

  predicate Checked(d: bool, skip: bool, result: TestResult)
  {
    skip || (result.ok && !RefuseDelete(result, !d))
  }

  predicate Enabled(s: State, step: Step, fixed: Fixed)
  {
    match step
    case Create(id, bs, skip, result, _) =>
      && Find(s.disk, id).None? && bs.name == id.name && bs.readOnly.Some? && bs.connectionUnverified == skip
      && Checked(Deletes(id, bs, fixed), skip, result)
    case Update(id, edited, skip, result, _) =>
      && Find(s.disk, id).Some? && edited.name == id.name
      && edited.connectionUnverified == Find(s.disk, id).value.connectionUnverified
      && edited.readOnly == Find(s.disk, id).value.readOnly
      && (ChangesTheConnection(Find(s.disk, id).value, edited, fixed.enc) ==> Checked(Deletes(id, edited, fixed), skip, result))
    case Remove(id, _) => Find(s.disk, id).Some?
    case Toggle(id, _, _) => Find(s.disk, id).Some?
    case TestStart(t, id) => t !in s.tests && Find(s.live, id).Some?
    case TestPass(t, _) => t in s.tests
    case Clear(t, _) => t in s.tests && s.tests[t].passed
    case ReadOnlyOn(id, _) => Find(s.disk, id).Some?
    case ReadOnlyOff(t, _) =>
      && t in s.tests && s.tests[t].passed && !RefuseDelete(TestResult(true, s.tests[t].writable), false)
      && Find(s.disk, s.tests[t].id).Some?
    case HandEdit(_) => true
    case Restart => true
    case PowerLoss(saved) => saved in s.couldBe
  }

  /** What a step writes: the file it would leave, the entry under its id there, whether the id's
      connection is declared anew, whether the id stays, and what the write goes on. */
  datatype Change = Change(
    id: SetId, next: Config, entry: Option<BackupSet>, declared: bool, kept: bool,
    evidence: Option<Dialled>, licence: Option<Dialled>)

  function When(c: bool, d: Dialled): Option<Dialled>
  {
    if c then Some(d) else None
  }

  function ChangeOf(s: State, step: Step, fixed: Fixed): Option<Change>
    requires Enabled(s, step, fixed)
  {
    match step
    case Create(id, bs, skip, result, _) =>
      var d := Proves(bs, fixed.enc);
      Some(Change(id, WithAdded(s.disk, id.source, bs), Some(bs), true, true, When(!skip, d), When(!skip && result.writable, d)))
    case Update(id, edited, skip, result, _) =>
      var target, d := Find(s.disk, id).value, Proves(edited, fixed.enc);
      var moved, after := ChangesTheConnection(target, edited, fixed.enc), Marked(target, edited, skip, fixed.enc);
      Some(Change(id, WithReplaced(s.disk, id, after), Some(after), moved, true,
                  When(moved && !skip, d), When(moved && !skip && result.writable, d)))
    case Remove(id, _) =>
      Some(Change(id, Without(s.disk, id), Find(Without(s.disk, id), id), false, false, None, None))
    case Toggle(id, disabled, _) =>
      Some(Change(id, Toggled(s.disk, id, disabled), Some(Find(s.disk, id).value.(disabled := disabled)), false, true, None, None))
    case Clear(t, _) =>
      var id := s.tests[t].id;
      if Find(s.disk, id).None? || !Find(s.disk, id).value.connectionUnverified then None
      else
        var after := Find(s.disk, id).value.(connectionUnverified := false);
        Some(Change(id, WithReplaced(s.disk, id, after), Some(after), false, true, Some(s.tests[t].dialled), None))
    case ReadOnlyOn(id, _) =>
      var after := Find(s.disk, id).value.(readOnly := Some(true));
      Some(Change(id, WithReplaced(s.disk, id, after), Some(after), false, true, None, None))
    case ReadOnlyOff(t, _) =>
      var id := s.tests[t].id;
      var after := Find(s.disk, id).value.(readOnly := Some(false));
      Some(Change(id, WithReplaced(s.disk, id, after), Some(after), false, true, None, Some(s.tests[t].dialled)))
    case _ => None
  }

  function WriteOf(step: Step): WriteResult
  {
    match step
    case TestStart(_, _) => LeftOld
    case TestPass(_, _) => LeftOld
    case HandEdit(_) => LeftOld
    case Restart => LeftOld
    case PowerLoss(_) => LeftOld
    case _ => step.w
  }

  function Disturbed(tests: map<TestId, Test>, id: SetId): map<TestId, Test>
  {
    map t | t in tests :: if tests[t].id == id then tests[t].(disturbed := true) else tests[t]
  }

  function OursAfter(s: State, c: Change): set<SetId>
  {
    if c.declared then s.ours + {c.id} else if c.kept then s.ours else s.ours - {c.id}
  }

  function Noted(m: map<SetId, Dialled>, id: SetId, d: Option<Dialled>): map<SetId, Dialled>
  {
    if d.Some? then m[id := d.value] else m
  }

  function SavedOf(s: State): Saved
  {
    Saved(s.disk, s.evidence, s.licence, s.ours)
  }

  function NextSaved(s: State, c: Change): Saved
  {
    Saved(c.next, Noted(s.evidence, c.id, c.evidence), Noted(s.licence, c.id, c.licence), OursAfter(s, c))
  }

  /** The file replaced, and the configuration in force with it if the write says so. */
  function Changed(s: State, c: Change, w: WriteResult): State
  {
    var next := NextSaved(s, c);
    s.(disk := next.file, live := LiveAfter(s.live, next.file, w),
       couldBe := if w.Replaced? then {next} else s.couldBe + {next},
       ours := next.ours, inForce := if w.Replaced? then next.ours else s.inForce,
       tests := if c.declared || !c.kept then Disturbed(s.tests, c.id) else s.tests,
       evidence := next.evidence, licence := next.licence)
  }

  /** What a check in front of a write proves, however the write then ends. */
  function Proved(s: State, c: Option<Change>): State
  {
    s.(proven := if c.Some? && c.value.declared && c.value.evidence.Some? then s.proven + {c.value.evidence.value} else s.proven,
       canWrite := if c.Some? && c.value.declared && c.value.licence.Some? then s.canWrite + {c.value.licence.value} else s.canWrite)
  }

  /** The file holds, under id, a set that dials d. */
  predicate DialsInFile(s: State, id: SetId, d: Dialled, fixed: Fixed)
  {
    Find(s.disk, id).Some? && Proves(Find(s.disk, id).value, fixed.enc) == d
  }

  function After(s: State, step: Step, fixed: Fixed): State
    requires Enabled(s, step, fixed)
  {
    match step
    case TestStart(t, id) =>
      var d := Proves(Find(s.live, id).value, fixed.enc);
      s.(tests := s.tests[t := Test(id, d, DialsInFile(s, id, d, fixed), false, false, false)])
    case TestPass(t, writable) =>
      var test := s.tests[t];
      s.(tests := s.tests[t := test.(passed := true, writable := writable)],
         proven := s.proven + {test.dialled},
         canWrite := if writable then s.canWrite + {test.dialled} else s.canWrite)
    case HandEdit(file) =>
      var ours := set id | id in s.ours && Find(file, id) == Find(s.disk, id);
      s.(disk := file, ours := ours, couldBe := s.couldBe + {Saved(file, s.evidence, s.licence, ours)},
         tests := map t | t in s.tests ::
           if Find(file, s.tests[t].id) == Find(s.disk, s.tests[t].id) then s.tests[t] else s.tests[t].(disturbed := true))
    case Restart => s.(live := s.disk, inForce := s.ours, tests := map[])
    case PowerLoss(saved) =>
      s.(disk := saved.file, live := saved.file, couldBe := {saved}, tests := map[], evidence := saved.evidence,
         licence := saved.licence, ours := saved.ours, inForce := saved.ours)
    case _ =>
      var c := ChangeOf(s, step, fixed);
      if c.Some? && !WriteOf(step).LeftOld? then Changed(Proved(s, c), c.value, WriteOf(step)) else Proved(s, c)
  }

  function Run(s: State, steps: seq<Step>, fixed: Fixed): Option<State>
  {
    if steps == [] then Some(s)
    else
      match Run(s, steps[..|steps| - 1], fixed)
      case None => None
      case Some(m) =>
        if Enabled(m, steps[|steps| - 1], fixed) then Some(After(m, steps[|steps| - 1], fixed)) else None
  }

  function Boot(cfg: Config): State
  {
    State(cfg, cfg, {Saved(cfg, map[], map[], {})}, map[], {}, {}, map[], map[], {}, {})
  }

  // ----- what a write makes of each set in the file -----

  ghost predicate IsLocal(disk: Config, c: Change)
  {
    forall o :: Find(c.next, o) == if o == c.id then c.entry else Find(disk, o)
  }

  /** A write touches one entry, and moves its connection only if it says so. */
  lemma ChangeIsLocal(s: State, step: Step, fixed: Fixed, c: Change)
    requires Enabled(s, step, fixed) && ChangeOf(s, step, fixed) == Some(c)
    ensures IsLocal(s.disk, c)
    ensures c.declared || c.kept ==> c.entry.Some?
    ensures c.kept && !c.declared ==>
      Find(s.disk, c.id).Some? && Proves(c.entry.value, fixed.enc) == Proves(Find(s.disk, c.id).value, fixed.enc)
  {
    FoundIffNamed(s.disk, c.id);
    forall o ensures Find(c.next, o) == if o == c.id then c.entry else Find(s.disk, o) {
      if step.Create? {
        FindAdded(s.disk, c.id, step.bs, o);
      } else if step.Remove? {
        FindWithout(s.disk, c.id, o);
      } else if step.Toggle? {
        FindToggled(s.disk, c.id, step.disabled, o);
      } else {
        FindReplaced(s.disk, c.id, c.entry.value, o);
      }
    }
  }

  predicate Writes(s: State, step: Step, fixed: Fixed)
    requires Enabled(s, step, fixed)
  {
    ChangeOf(s, step, fixed).Some? && !WriteOf(step).LeftOld?
  }

  // ----- what a test still says -----

  /** An undisturbed test dialled what its id dials in the file, exactly when it did so at the
      moment it looked. */
  ghost predicate TestsStand(s: State, fixed: Fixed)
  {
    forall t :: t in s.tests && !s.tests[t].disturbed ==>
      (s.tests[t].agreed <==> DialsInFile(s, s.tests[t].id, s.tests[t].dialled, fixed))
  }

  lemma ChangeKeepsTests(s: State, c: Change, w: WriteResult, fixed: Fixed)
    requires TestsStand(s, fixed) && IsLocal(s.disk, c)
    requires c.kept && !c.declared ==>
      c.entry.Some? && Find(s.disk, c.id).Some? && Proves(c.entry.value, fixed.enc) == Proves(Find(s.disk, c.id).value, fixed.enc)
    ensures TestsStand(Changed(s, c, w), fixed)
  {}

  lemma StepKeepsTests(s: State, step: Step, fixed: Fixed)
    requires TestsStand(s, fixed) && Enabled(s, step, fixed)
    ensures TestsStand(After(s, step, fixed), fixed)
  {
    if Writes(s, step, fixed) {
      var c := ChangeOf(s, step, fixed).value;
      ChangeIsLocal(s, step, fixed, c);
      ChangeKeepsTests(Proved(s, Some(c)), c, WriteOf(step), fixed);
    }
  }

  /** What passed is on record, and so is what a mark was taken off or a deletion allowed on. */
  ghost predicate OnRecord(s: State)
  {
    && (forall t :: t in s.tests && s.tests[t].passed ==>
          s.tests[t].dialled in s.proven && (s.tests[t].writable ==> s.tests[t].dialled in s.canWrite))
    && SavedOf(s) in s.couldBe
    && (forall v, id :: v in s.couldBe && id in v.evidence ==> v.evidence[id] in s.proven)
    && (forall v, id :: v in s.couldBe && id in v.licence ==> v.licence[id] in s.canWrite)
  }

  lemma ChangeKeepsRecord(s: State, c: Change, w: WriteResult)
    requires OnRecord(s)
    requires (c.evidence.Some? ==> c.evidence.value in s.proven) && (c.licence.Some? ==> c.licence.value in s.canWrite)
    ensures OnRecord(Changed(s, c, w))
  {}

  lemma ProvedKeepsRecord(s: State, c: Option<Change>)
    requires OnRecord(s)
    ensures OnRecord(Proved(s, c))
  {}

  lemma StepKeepsRecord(s: State, step: Step, fixed: Fixed)
    requires OnRecord(s) && Enabled(s, step, fixed)
    ensures OnRecord(After(s, step, fixed))
  {
    ProvedKeepsRecord(s, ChangeOf(s, step, fixed));
    if Writes(s, step, fixed) {
      var c := ChangeOf(s, step, fixed).value;
      assert c.evidence.Some? ==> c.evidence.value in Proved(s, Some(c)).proven;
      assert c.licence.Some? ==> c.licence.value in Proved(s, Some(c)).canWrite;
      ChangeKeepsRecord(Proved(s, Some(c)), c, WriteOf(step));
    }
  }

  // ----- the mark -----

  predicate BackedBy(found: Option<BackupSet>, evidence: map<SetId, Dialled>, id: SetId, fixed: Fixed)
  {
    && found.Some?
    && (!found.value.connectionUnverified ==> id in evidence && evidence[id] == Proves(found.value, fixed.enc))
  }

  ghost predicate BackedIn(v: Saved, fixed: Fixed)
  {
    forall id :: id in v.ours ==> BackedBy(Find(v.file, id), v.evidence, id, fixed)
  }

  /** No mark, no doubt: an unmarked set of ours in the file dials what the check dialled on whose
      strength it is unmarked. */
  ghost predicate Backed(s: State, fixed: Fixed)
  {
    BackedIn(SavedOf(s), fixed)
  }

  /** And so in whatever a power loss could leave. */
  ghost predicate BackedThroughout(s: State, fixed: Fixed)
  {
    SavedOf(s) in s.couldBe && forall v :: v in s.couldBe ==> BackedIn(v, fixed)
  }

  /** The clear goes by id: it takes the mark off whatever the file holds under it now, and that is
      not what the test dialled. */
  predicate ClearsAnother(s: State, step: Step, fixed: Fixed)
    requires Enabled(s, step, fixed)
  {
    && step.Clear? && !step.w.LeftOld?
    && var test := s.tests[step.t];
    && test.id in s.ours && Find(s.disk, test.id).Some? && Find(s.disk, test.id).value.connectionUnverified
    && !DialsInFile(s, test.id, test.dialled, fixed)
  }

  lemma ChangeBacks(s: State, step: Step, fixed: Fixed, c: Change)
    requires Backed(s, fixed) && Enabled(s, step, fixed) && ChangeOf(s, step, fixed) == Some(c) && !WriteOf(step).LeftOld?
    ensures ClearsAnother(s, step, fixed) ==> c.id in OursAfter(s, c) && !BackedBy(c.entry, Noted(s.evidence, c.id, c.evidence), c.id, fixed)
    ensures c.id in OursAfter(s, c) && !ClearsAnother(s, step, fixed) ==> BackedBy(c.entry, Noted(s.evidence, c.id, c.evidence), c.id, fixed)
  {
    assert c.id in s.ours ==> BackedBy(Find(s.disk, c.id), s.evidence, c.id, fixed);
  }

  lemma BackedAfterChange(s: State, c: Change, w: WriteResult, fixed: Fixed)
    requires Backed(s, fixed) && IsLocal(s.disk, c)
    ensures Backed(Changed(s, c, w), fixed) <==>
      (c.id in OursAfter(s, c) ==> BackedBy(c.entry, Noted(s.evidence, c.id, c.evidence), c.id, fixed))
  {
    var n := Changed(s, c, w);
    assert Find(n.disk, c.id) == c.entry;
    forall id | id in n.ours && id != c.id ensures BackedBy(Find(n.disk, id), n.evidence, id, fixed) {
      assert id in s.ours && Find(n.disk, id) == Find(s.disk, id);
    }
  }

  /** That is exactly how the mark can come to lie. */
  lemma MarkLiesExactlyAfterClearingAnother(s: State, step: Step, fixed: Fixed)
    requires BackedThroughout(s, fixed) && Enabled(s, step, fixed)
    ensures Backed(After(s, step, fixed), fixed) <==> !ClearsAnother(s, step, fixed)
  {
    assert Backed(s, fixed);
    if Writes(s, step, fixed) {
      var c := ChangeOf(s, step, fixed).value;
      ChangeIsLocal(s, step, fixed, c);
      ChangeBacks(s, step, fixed, c);
      BackedAfterChange(Proved(s, Some(c)), c, WriteOf(step), fixed);
    }
  }

  /** A step leaves in the file what it left there, or one of the things that could be there before. */
  lemma CouldBeAfter(s: State, step: Step, fixed: Fixed)
    requires SavedOf(s) in s.couldBe && Enabled(s, step, fixed)
    ensures var t := After(s, step, fixed); SavedOf(t) in t.couldBe && t.couldBe <= s.couldBe + {SavedOf(t)}
  {}

  /** Nothing older than a synced write can come back, and everything can that was there before one
      that is not. */
  lemma CouldBeAfterAWrite(s: State, step: Step, fixed: Fixed)
    requires Enabled(s, step, fixed) && ChangeOf(s, step, fixed).Some?
    ensures
      var t := After(s, step, fixed);
      match WriteOf(step)
      case Replaced => t.couldBe == {SavedOf(t)}
      case LeftOld => t.couldBe == s.couldBe
      case RenamedUnsynced => t.couldBe == s.couldBe + {SavedOf(t)}
  {}

  // ----- deleting from the source -----

  predicate LicensedBy(found: Option<BackupSet>, licence: map<SetId, Dialled>, id: SetId, fixed: Fixed)
  {
    found.Some? && Deletes(id, found.value, fixed) ==> id in licence && licence[id] == Proves(found.value, fixed.enc)
  }

  ghost predicate LicensedIn(v: Saved, fixed: Fixed)
  {
    forall id :: id in v.ours ==> LicensedBy(Find(v.file, id), v.licence, id, fixed)
  }

  /** A set of ours that deletes dials what the check dialled that let it. */
  ghost predicate Licensed(s: State, fixed: Fixed)
  {
    LicensedIn(SavedOf(s), fixed)
  }

  ghost predicate LicensedThroughout(s: State, fixed: Fixed)
  {
    SavedOf(s) in s.couldBe && forall v :: v in s.couldBe ==> LicensedIn(v, fixed)
  }

  /** Read-only off goes by id too. */
  predicate LetsAnotherDelete(s: State, step: Step, fixed: Fixed)
    requires Enabled(s, step, fixed)
  {
    && step.ReadOnlyOff? && !step.w.LeftOld?
    && var test := s.tests[step.t];
    && test.id in s.ours && !DialsInFile(s, test.id, test.dialled, fixed)
  }

  predicate Skips(step: Step)
  {
    (step.Create? || step.Update?) && step.skip
  }

  lemma ChangeLicenses(s: State, step: Step, fixed: Fixed, c: Change)
    requires Licensed(s, fixed) && Enabled(s, step, fixed) && ChangeOf(s, step, fixed) == Some(c) && !WriteOf(step).LeftOld?
    requires !Skips(step)
    ensures LetsAnotherDelete(s, step, fixed) ==> c.id in OursAfter(s, c) && !LicensedBy(c.entry, Noted(s.licence, c.id, c.licence), c.id, fixed)
    ensures c.id in OursAfter(s, c) && !LetsAnotherDelete(s, step, fixed) ==> LicensedBy(c.entry, Noted(s.licence, c.id, c.licence), c.id, fixed)
  {
    assert c.id in s.ours ==> LicensedBy(Find(s.disk, c.id), s.licence, c.id, fixed);
  }

  lemma LicensedAfterChange(s: State, c: Change, w: WriteResult, fixed: Fixed)
    requires Licensed(s, fixed) && IsLocal(s.disk, c)
    ensures Licensed(Changed(s, c, w), fixed) <==>
      (c.id in OursAfter(s, c) ==> LicensedBy(c.entry, Noted(s.licence, c.id, c.licence), c.id, fixed))
  {
    var n := Changed(s, c, w);
    assert Find(n.disk, c.id) == c.entry;
    forall id | id in n.ours && id != c.id ensures LicensedBy(Find(n.disk, id), n.licence, id, fixed) {
      assert id in s.ours && Find(n.disk, id) == Find(s.disk, id);
    }
  }

  lemma LicenceLostExactlyByLettingAnotherDelete(s: State, step: Step, fixed: Fixed)
    requires LicensedThroughout(s, fixed) && Enabled(s, step, fixed) && !Skips(step)
    ensures Licensed(After(s, step, fixed), fixed) <==> !LetsAnotherDelete(s, step, fixed)
  {
    assert Licensed(s, fixed);
    if Writes(s, step, fixed) {
      var c := ChangeOf(s, step, fixed).value;
      ChangeIsLocal(s, step, fixed, c);
      ChangeLicenses(s, step, fixed, c);
      LicensedAfterChange(Proved(s, Some(c)), c, WriteOf(step), fixed);
    }
  }

  // ----- whole runs -----

  /** Nothing moved the set's connection between the check and what the check is used for. If a
      write may also have left file and configuration in force apart, the two agreed on the set's
      connection when the test looked. */
  predicate Settled(s: State, step: Step, synced: bool)
  {
    && ((step.Clear? || step.ReadOnlyOff?) && step.t in s.tests ==>
          !s.tests[step.t].disturbed && (synced || s.tests[step.t].agreed))
    && (synced ==> !WriteOf(step).RenamedUnsynced?)
  }

  predicate SettledRun(s: State, steps: seq<Step>, fixed: Fixed, synced: bool)
  {
    steps == [] ||
      var before := steps[..|steps| - 1];
      SettledRun(s, before, fixed, synced) &&
      match Run(s, before, fixed)
      case None => false
      case Some(m) => Settled(m, steps[|steps| - 1], synced)
  }

  /** While every write is synced or leaves the old file, the file and the configuration in force
      agree on our sets, and with them every test of one that nothing disturbed. */
  ghost predicate InStep(s: State)
  {
    && (forall id :: id in s.ours ==> Find(s.live, id) == Find(s.disk, id))
    && (forall t :: t in s.tests && !s.tests[t].disturbed && s.tests[t].id in s.ours ==> s.tests[t].agreed)
  }

  lemma ChangeKeepsInStep(s: State, c: Change)
    requires InStep(s)
    ensures InStep(Changed(s, c, Replaced))
  {}

  lemma SyncedStepKeepsInStep(s: State, step: Step, fixed: Fixed)
    requires InStep(s) && Backed(s, fixed) && Enabled(s, step, fixed) && !WriteOf(step).RenamedUnsynced?
    ensures InStep(After(s, step, fixed))
  {
    if Writes(s, step, fixed) {
      ChangeKeepsInStep(Proved(s, ChangeOf(s, step, fixed)), ChangeOf(s, step, fixed).value);
    }
  }

  /** An undisturbed test is about another connection than the file's exactly when the two already
      differed as it looked; and in step they did not. */
  lemma SettledStepIsMatched(s: State, step: Step, fixed: Fixed, synced: bool)
    requires TestsStand(s, fixed) && Enabled(s, step, fixed) && Settled(s, step, synced) && (synced ==> InStep(s))
    ensures !ClearsAnother(s, step, fixed) && !LetsAnotherDelete(s, step, fixed)
  {}

  /** So for a test nothing disturbed, whether its clear lies was settled before it dialled: exactly
      when the file and the configuration in force were apart on that set. */
  lemma UndisturbedClearLiesExactlyIfApart(s: State, step: Step, fixed: Fixed)
    requires TestsStand(s, fixed) && BackedThroughout(s, fixed) && Enabled(s, step, fixed)
    requires step.Clear? && !step.w.LeftOld? && !s.tests[step.t].disturbed && s.tests[step.t].id in s.ours
    requires Find(s.disk, s.tests[step.t].id).Some? && Find(s.disk, s.tests[step.t].id).value.connectionUnverified
    ensures Backed(After(s, step, fixed), fixed) <==> s.tests[step.t].agreed
  {
    MarkLiesExactlyAfterClearingAnother(s, step, fixed);
  }

  predicate NothingSkipped(steps: seq<Step>)
  {
    forall i :: 0 <= i < |steps| ==> !Skips(steps[i])
  }

  lemma {:induction false} SettledRunIsBacked(cfg: Config, steps: seq<Step>, fixed: Fixed, s: State, synced: bool)
    requires Run(Boot(cfg), steps, fixed) == Some(s) && SettledRun(Boot(cfg), steps, fixed, synced)
    ensures TestsStand(s, fixed) && OnRecord(s) && BackedThroughout(s, fixed) && (synced ==> InStep(s))
    ensures NothingSkipped(steps) ==> LicensedThroughout(s, fixed)
  {
    if steps != [] {
      var before, step := steps[..|steps| - 1], steps[|steps| - 1];
      var m := Run(Boot(cfg), before, fixed).value;
      SettledRunIsBacked(cfg, before, fixed, m, synced);
      SettledStepIsMatched(m, step, fixed, synced);
      StepKeepsTests(m, step, fixed);
      StepKeepsRecord(m, step, fixed);
      CouldBeAfter(m, step, fixed);
      MarkLiesExactlyAfterClearingAnother(m, step, fixed);
      if synced { SyncedStepKeepsInStep(m, step, fixed); }
      if NothingSkipped(steps) {
        assert forall i :: 0 <= i < |before| ==> before[i] == steps[i];
        LicenceLostExactlyByLettingAnotherDelete(m, step, fixed);
      }
    }
  }

  /** The main result: over every run of creates, edits, removals, toggles, hand edits, tests, restarts
      and power losses, every write ending in any of its three ways, in which no edit moves a set between a test's
      check and its clear and, unless every write was synced, the file and the configuration in
      force agreed on the set when the test looked: a set this service wrote that is not marked
      unverified has had exactly what it dials now pass a check. */
  lemma UnmarkedMeansProven(cfg: Config, steps: seq<Step>, fixed: Fixed, s: State, id: SetId, synced: bool)
    requires Run(Boot(cfg), steps, fixed) == Some(s) && SettledRun(Boot(cfg), steps, fixed, synced)
    requires id in s.ours
    ensures Find(s.disk, id).Some?
    ensures Find(s.disk, id).value.connectionUnverified || Proves(Find(s.disk, id).value, fixed.enc) in s.proven
  {
    SettledRunIsBacked(cfg, steps, fixed, s, synced);
  }

  /** And the same of the configuration in force, which an unsynced write leaves behind the file. */
  ghost predicate HonestInForce(s: State, fixed: Fixed)
  {
    forall id :: id in s.inForce && Find(s.live, id).Some? && !Find(s.live, id).value.connectionUnverified ==>
      Proves(Find(s.live, id).value, fixed.enc) in s.proven
  }

  lemma HonestWhereTheFileIs(n: State, fixed: Fixed)
    requires n.live == n.disk && n.inForce == n.ours && Backed(n, fixed) && OnRecord(n)
    ensures HonestInForce(n, fixed)
  {
    forall id | id in n.inForce ensures BackedBy(Find(n.live, id), n.evidence, id, fixed) {}
    assert forall id :: id in n.evidence ==> n.evidence[id] in n.proven by {
      assert SavedOf(n) in n.couldBe;
    }
  }

  lemma StepKeepsHonestInForce(s: State, step: Step, fixed: Fixed)
    requires HonestInForce(s, fixed) && Enabled(s, step, fixed)
    requires Backed(After(s, step, fixed), fixed) && OnRecord(After(s, step, fixed))
    ensures HonestInForce(After(s, step, fixed), fixed)
  {
    var n := After(s, step, fixed);
    if (Writes(s, step, fixed) && WriteOf(step).Replaced?) || step.Restart? || step.PowerLoss? {
      HonestWhereTheFileIs(n, fixed);
    } else {
      assert n.live == s.live && n.inForce == s.inForce && s.proven <= n.proven;
    }
  }

  lemma {:induction false} UnmarkedInForceMeansProven(cfg: Config, steps: seq<Step>, fixed: Fixed, s: State, synced: bool)
    requires Run(Boot(cfg), steps, fixed) == Some(s) && SettledRun(Boot(cfg), steps, fixed, synced)
    ensures HonestInForce(s, fixed)
  {
    if steps != [] {
      var m := Run(Boot(cfg), steps[..|steps| - 1], fixed).value;
      UnmarkedInForceMeansProven(cfg, steps[..|steps| - 1], fixed, m, synced);
      SettledRunIsBacked(cfg, steps, fixed, s, synced);
      StepKeepsHonestInForce(m, steps[|steps| - 1], fixed);
    }
  }

  /** As long as nobody skips the check, a set this service wrote deletes from its source only
      after a check of that very connection showed it may. */
  lemma DeletingIsEarned(cfg: Config, steps: seq<Step>, fixed: Fixed, s: State, id: SetId, synced: bool)
    requires Run(Boot(cfg), steps, fixed) == Some(s) && SettledRun(Boot(cfg), steps, fixed, synced) && NothingSkipped(steps)
    requires id in s.ours && Find(s.disk, id).Some? && Deletes(id, Find(s.disk, id).value, fixed)
    ensures Proves(Find(s.disk, id).value, fixed.enc) in s.canWrite
  {
    SettledRunIsBacked(cfg, steps, fixed, s, synced);
  }

  // ----- the runs that are not settled -----

  lemma Next(s: State, steps: seq<Step>, m: State, step: Step, fixed: Fixed) returns (longer: seq<Step>, n: State)
    requires Run(s, steps, fixed) == Some(m) && Enabled(m, step, fixed)
    ensures n == After(m, step, fixed) && Run(s, longer, fixed) == Some(n)
    ensures NothingSkipped(steps) && !Skips(step) ==> NothingSkipped(longer)
  {
    longer, n := steps + [step], After(m, step, fixed);
    assert longer[..|longer| - 1] == steps;
  }

  /** A set created unchecked, and a test of it just begun. */
  lemma CreatedAndDialled(id: SetId, bs: BackupSet, fixed: Fixed, t: TestId) returns (steps: seq<Step>, s: State)
    requires bs.name == id.name && bs.connectionUnverified && bs.readOnly.Some?
    ensures Run(Boot([]), steps, fixed) == Some(s)
    ensures Find(s.disk, id) == Some(bs) && s.ours == {id} && s.proven == {}
    ensures t in s.tests && s.tests[t].id == id && s.tests[t].dialled == Proves(bs, fixed.enc)
  {
    FindAdded([], id, bs, id);
    steps, s := Next(Boot([]), [], Boot([]), Create(id, bs, true, TestResult(false, false), Replaced), fixed);
    steps, s := Next(Boot([]), steps, s, TestStart(t, id), fixed);
  }

  /** The test passes, and the clear goes to whatever the file holds under its id. */
  lemma PassThenClear(steps: seq<Step>, s: State, id: SetId, found: BackupSet, fixed: Fixed, t: TestId) returns (longer: seq<Step>, n: State)
    requires Run(Boot([]), steps, fixed) == Some(s) && t in s.tests && s.tests[t].id == id
    requires Find(s.disk, id) == Some(found) && found.connectionUnverified
    ensures Run(Boot([]), longer, fixed) == Some(n) && t in n.tests && n.tests[t].disturbed == s.tests[t].disturbed
    ensures Find(n.disk, id) == Find(n.live, id) == Some(found.(connectionUnverified := false))
    ensures n.ours == s.ours && n.proven == s.proven + {s.tests[t].dialled}
  {
    longer, n := Next(Boot([]), steps, s, TestPass(t, true), fixed);
    FoundIffNamed(n.disk, id);
    FindReplaced(n.disk, id, found.(connectionUnverified := false), id);
    longer, n := Next(Boot([]), longer, n, Clear(t, Replaced), fixed);
  }

  /** A test that passes on the old connection while an unchecked edit moves the set takes the mark
      off a connection nobody ever tried. */
  lemma EditBetweenCheckAndClearLies(id: SetId, bs: BackupSet, moved: BackupSet, fixed: Fixed, t: TestId) returns (steps: seq<Step>, s: State)
    requires bs.name == moved.name == id.name && bs.connectionUnverified && moved.connectionUnverified
    requires bs.readOnly.Some? && moved.readOnly == bs.readOnly && ChangesTheConnection(bs, moved, fixed.enc)
    ensures Run(Boot([]), steps, fixed) == Some(s)
    ensures id in s.ours && Find(s.disk, id) == Some(moved.(connectionUnverified := false))
    ensures Proves(moved, fixed.enc) !in s.proven
  {
    steps, s := CreatedAndDialled(id, bs, fixed, t);
    FindReplaced(s.disk, id, moved, id);
    steps, s := Next(Boot([]), steps, s, Update(id, moved, true, TestResult(false, false), Replaced), fixed);
    steps, s := PassThenClear(steps, s, id, moved, fixed, t);
    assert Proves(bs, fixed.enc) != Proves(moved, fixed.enc);
  }

  /** A set created, and then moved by an edit whose rename was not synced: the file holds the new
      connection, the old one is in force. */
  lemma MovedUnsynced(id: SetId, bs: BackupSet, moved: BackupSet, skip: bool, result: TestResult, fixed: Fixed) returns (steps: seq<Step>, s: State)
    requires bs.name == moved.name == id.name && bs.connectionUnverified == moved.connectionUnverified == skip
    requires bs.readOnly.Some? && moved.readOnly == bs.readOnly && ChangesTheConnection(bs, moved, fixed.enc)
    requires Checked(Deletes(id, moved, fixed), skip, result)
    ensures Run(Boot([]), steps, fixed) == Some(s) && (!skip ==> NothingSkipped(steps))
    ensures Find(s.disk, id) == Some(moved) && Find(s.live, id) == Some(bs) && s.ours == {id} && s.tests == map[]
    ensures s.proven == (if skip then {} else {Proves(bs, fixed.enc), Proves(moved, fixed.enc)})
    ensures s.canWrite == (if skip then {} else if result.writable then {Proves(bs, fixed.enc), Proves(moved, fixed.enc)} else {Proves(bs, fixed.enc)})
  {
    FindAdded([], id, bs, id);
    steps, s := Next(Boot([]), [], Boot([]), Create(id, bs, skip, TestResult(true, true), Replaced), fixed);
    FindReplaced(s.disk, id, moved, id);
    assert Marked(bs, moved, skip, fixed.enc) == moved;
    steps, s := Next(Boot([]), steps, s, Update(id, moved, skip, result, RenamedUnsynced), fixed);
    assert s.tests == map[];
  }

  /** With no edit in between at all: an unchecked edit whose rename was not synced leaves the old
      connection in force, the test dials that, and the clear goes to the file. */
  lemma UnsyncedEditThenTestLies(id: SetId, bs: BackupSet, moved: BackupSet, fixed: Fixed, t: TestId) returns (steps: seq<Step>, s: State)
    requires bs.name == moved.name == id.name && bs.connectionUnverified && moved.connectionUnverified
    requires bs.readOnly.Some? && moved.readOnly == bs.readOnly && ChangesTheConnection(bs, moved, fixed.enc)
    ensures Run(Boot([]), steps, fixed) == Some(s) && t in s.tests && !s.tests[t].disturbed
    ensures id in s.ours && Find(s.disk, id) == Find(s.live, id) == Some(moved.(connectionUnverified := false))
    ensures Proves(moved, fixed.enc) !in s.proven
  {
    steps, s := MovedUnsynced(id, bs, moved, true, TestResult(false, false), fixed);
    steps, s := Next(Boot([]), steps, s, TestStart(t, id), fixed);
    steps, s := PassThenClear(steps, s, id, moved, fixed, t);
    assert Proves(bs, fixed.enc) != Proves(moved, fixed.enc);
  }

  /** And with nothing skipped: a read-only set moved, checked, onto a source that cannot be written
      to, the rename not synced, is let to delete there on a test of the source it had. */
  lemma UnsyncedEditThenReadOnlyOffIsUnearned(id: SetId, bs: BackupSet, moved: BackupSet, fixed: Fixed, t: TestId) returns (steps: seq<Step>, s: State)
    requires bs.name == moved.name == id.name && !bs.connectionUnverified && !moved.connectionUnverified
    requires bs.readOnly == moved.readOnly == Some(true) && ChangesTheConnection(bs, moved, fixed.enc)
    ensures Run(Boot([]), steps, fixed) == Some(s) && NothingSkipped(steps) && t in s.tests && !s.tests[t].disturbed
    ensures id in s.ours && Find(s.disk, id) == Find(s.live, id) == Some(moved.(readOnly := Some(false)))
    ensures Proves(moved, fixed.enc) !in s.canWrite
  {
    steps, s := MovedUnsynced(id, bs, moved, false, TestResult(true, false), fixed);
    steps, s := Next(Boot([]), steps, s, TestStart(t, id), fixed);
    steps, s := Next(Boot([]), steps, s, TestPass(t, true), fixed);
    FindReplaced(s.disk, id, moved.(readOnly := Some(false)), id);
    steps, s := Next(Boot([]), steps, s, ReadOnlyOff(t, Replaced), fixed);
    assert Proves(bs, fixed.enc) != Proves(moved, fixed.enc) && s.canWrite == {Proves(bs, fixed.enc)};
  }
}
