/** What the repoint refusals and the address recorded at removal are for, over whole runs: every
    artifact on record for an id came from where the id points now, or pointed last. */
module HistoryCoherence {
  import opened Wrappers
  import opened Config
  import opened UpdateSet
  import opened Repoint

  datatype PassId = PassId(n: nat)

  /** The file, the configuration in force, every file a power loss at this moment could leave, the
      journal, and the configuration each running pass started with. */
  datatype State = State(disk: Config, live: Config, couldBe: set<Config>, j: Journal, passes: map<PassId, Config>)

  /** A removal that fails has recorded the address all the same. */
  datatype Step =
    | Create(id: SetId, bs: BackupSet, acknowledged: bool, w: WriteResult)
    | Update(id: SetId, r: Request, edited: BackupSet, w: WriteResult)
    | Toggle(id: SetId, disabled: bool, w: WriteResult)
    | Remove(id: SetId, w: WriteResult)
    | PassStart(p: PassId)
    | PassFinds(p: PassId, id: SetId, name: string, landed: string)
    | HandEdit(file: Config)
    | FirstRun(id: SetId, bs: BackupSet)
    | Restart
    | PowerLoss(file: Config)

  /** How a deployment's paths behave; nothing below depends on it. */
  datatype Paths = Paths(dir: string -> string, clean: string -> string)

  ghost predicate Enabled(s: State, step: Step, paths: Paths)
    requires s.j.Journal?
  {
    match step
    case Create(id, bs, ack, _) =>
      && bs.name == id.name && Unique(WithAdded(s.disk, id.source, bs))
      && (ack || !AdoptsFromElsewhere(s.j, id, AddressOf(bs), paths.dir, paths.clean))
    case Update(id, r, edited, _) =>
      && Find(s.disk, id).Some?
      && edited.name == id.name && AddressOf(edited) == AddressOf(Apply(Find(s.disk, id).value, r))
      && (r.acknowledgeRepoint || History(s.j, id) == [] || AddressOf(edited) == AddressOf(Find(s.disk, id).value))
    case Toggle(id, _, _) => Find(s.disk, id).Some?
    case Remove(id, _) => Find(s.disk, id).Some?
    case PassStart(_) => true
    case PassFinds(p, id, _, _) => p in s.passes && Find(s.passes[p], id).Some?
    case HandEdit(file) => Unique(file)
    case FirstRun(id, bs) => s.disk == [] && s.live == [] && bs.name == id.name
    case Restart => true
    case PowerLoss(file) => file in s.couldBe
  }

  /** Discovery matches a candidate against the journal by its name under the set. */
  predicate AlreadyKnown(s: State, id: SetId, name: string)
  {
    exists i :: 0 <= i < |History(s.j, id)| && History(s.j, id)[i].name == name
  }

  function Discovered(j: Journal, id: SetId, rec: Record): Journal
    requires j.Journal?
  {
    j.(records := j.records[id := History(j, id) + [rec]])
  }

  /** A write of next, by how it ended. */
  function Written(s: State, next: Config, w: WriteResult): State
  {
    s.(disk := FileAfter(s.disk, next, w), live := LiveAfter(s.live, next, w),
       couldBe := if w.Replaced? then {next} else if w.LeftOld? then s.couldBe else s.couldBe + {next})
  }

  ghost function After(s: State, step: Step, paths: Paths): (t: State)
    requires s.j.Journal? && Enabled(s, step, paths)
    ensures t.j.Journal?
  {
    match step
    case Create(id, bs, _, w) => Written(s, WithAdded(s.disk, id.source, bs), w)
    case Update(id, _, edited, w) => Written(s, WithReplaced(s.disk, id, edited), w)
    case Toggle(id, disabled, w) => Written(s, Toggled(s.disk, id, disabled), w)
    case Remove(id, w) =>
      Written(s, Without(s.disk, id), w).(j := Recorded(s.j, id, AddressOf(Find(s.disk, id).value)))
    case PassStart(p) => s.(passes := s.passes[p := s.live])
    case PassFinds(p, id, name, landed) =>
      if AlreadyKnown(s, id, name) then s
      else s.(j := Discovered(s.j, id, Record(name, landed, AddressOf(Find(s.passes[p], id).value))))
    case HandEdit(file) => s.(disk := file, couldBe := s.couldBe + {file})
    case FirstRun(id, bs) =>
      var cfg := [Source(id.source, [bs])];
      s.(disk := cfg, live := cfg, couldBe := {cfg})
    case Restart => s.(live := s.disk, passes := map[])
    case PowerLoss(file) => s.(disk := file, live := file, couldBe := {file}, passes := map[])
  }

  ghost function Run(s: State, steps: seq<Step>, paths: Paths): (r: Option<State>)
    requires s.j.Journal?
    ensures r.Some? ==> r.value.j.Journal?
  {
    if steps == [] then Some(s)
    else
      match Run(s, steps[..|steps| - 1], paths)
      case None => None
      case Some(m) =>
        if Enabled(m, steps[|steps| - 1], paths) then Some(After(m, steps[|steps| - 1], paths)) else None
  }

  function Boot(cfg: Config): State
  {
    State(cfg, cfg, {cfg}, Journal(map[], map[]), map[])
  }

  // ----- coherence -----

  /** Where a file points the id, or the id pointed when it was last removed. */
  function HomeIn(file: Config, j: Journal, id: SetId): Option<Address>
  {
    if Find(file, id).Some? then Some(AddressOf(Find(file, id).value))
    else if j.Journal? && id in j.addresses then Some(j.addresses[id])
    else None
  }

  function Home(s: State, id: SetId): Option<Address>
  {
    HomeIn(s.disk, s.j, id)
  }

  ghost predicate Coherent(s: State)
  {
    forall id, i :: 0 <= i < |History(s.j, id)| ==> Home(s, id) == Some(History(s.j, id)[i].origin)
  }

  predicate Moves(step: Step)
  {
    (step.Create? || step.Update?) && !step.w.LeftOld?
  }

  function MovesTo(step: Step): Address
    requires step.Create? || step.Update? || step.FirstRun?
  {
    AddressOf(if step.Update? then step.edited else step.bs)
  }

  /** The moves that put an id with history elsewhere, each by what could be looked at before it
      is made. */
  ghost predicate Breaks(s: State, step: Step)
    requires s.j.Journal?
  {
    if Moves(step) || step.FirstRun? then History(s.j, step.id) != [] && Home(s, step.id) != Some(MovesTo(step))
    else
      match step
      case PassFinds(p, id, name, _) =>
        && !AlreadyKnown(s, id, name)
        && p in s.passes && Find(s.passes[p], id).Some? && Home(s, id) != Some(AddressOf(Find(s.passes[p], id).value))
      case HandEdit(file) => exists id :: History(s.j, id) != [] && HomeIn(file, s.j, id) != Home(s, id)
      case PowerLoss(file) => exists id :: History(s.j, id) != [] && HomeIn(file, s.j, id) != Home(s, id)
      case _ => false
  }

  /** Step by step: for every id, where it points after a step other than a hand edit or a power loss. However a
      write ends, an id it was not about points where it did. */
  lemma HomeAfter(s: State, step: Step, paths: Paths, id: SetId)
    requires s.j.Journal? && Unique(s.disk) && Enabled(s, step, paths) && !step.HandEdit? && !step.PowerLoss?
    ensures var t := After(s, step, paths);
      Home(t, id) == if (Moves(step) || step.FirstRun?) && step.id == id then Some(MovesTo(step)) else Home(s, id)
  {
    match step
    case Create(at, bs, _, _) =>
      DuplicateIsRefused(s.disk, at, bs);
      FindAdded(s.disk, at, bs, id);
    case Update(at, _, edited, _) => FindReplaced(s.disk, at, edited, id);
    case Toggle(at, disabled, _) => FindToggled(s.disk, at, disabled, id);
    case Remove(at, _) => FindWithout(s.disk, at, id); FindWithout(s.disk, at, at);
    case FirstRun(at, bs) =>
      assert s.disk == [] && WithAdded([], at.source, bs) == [Source(at.source, [bs])];
      FindAdded([], at, bs, id);
    case _ =>
  }

  ghost predicate AllUnique(s: State)
  {
    s.disk in s.couldBe && forall c: Config :: c in s.couldBe ==> Unique(c)
  }

  lemma StaysUnique(s: State, step: Step, paths: Paths)
    requires s.j.Journal? && AllUnique(s) && Enabled(s, step, paths)
    ensures AllUnique(After(s, step, paths))
  {
    match step
    case Update(id, _, edited, _) => ReplacedStaysUnique(s.disk, id, edited);
    case Toggle(id, disabled, _) => ToggledStaysUnique(s.disk, id, disabled);
    case Remove(id, _) => WithoutStaysUnique(s.disk, id);
    case _ =>
  }

  /** Exactly those moves lose coherence. */
  lemma CoherenceLostExactlyByABreak(s: State, step: Step, paths: Paths)
    requires s.j.Journal? && Unique(s.disk) && Coherent(s) && Enabled(s, step, paths)
    ensures Coherent(After(s, step, paths)) <==> !Breaks(s, step)
  {
    var t := After(s, step, paths);
    if step.PassFinds? && !AlreadyKnown(s, step.id, step.name) {
      var earlier, now := History(s.j, step.id), History(t.j, step.id);
      assert now[|earlier|].origin == AddressOf(Find(s.passes[step.p], step.id).value);
      forall id, i | 0 <= i < |History(t.j, id)| && (id != step.id || i < |earlier|)
        ensures Home(t, id) == Some(History(t.j, id)[i].origin)
      {
        assert History(t.j, id)[i] == History(s.j, id)[i];
      }
    } else {
      assert forall id :: History(t.j, id) == History(s.j, id);
      if step.HandEdit? || step.PowerLoss? {
        if id :| History(s.j, id) != [] && HomeIn(step.file, s.j, id) != Home(s, id) {
          assert Home(s, id) == Some(History(s.j, id)[0].origin);
        }
      } else {
        forall id ensures
          Home(t, id) == if (Moves(step) || step.FirstRun?) && step.id == id then Some(MovesTo(step)) else Home(s, id)
        {
          HomeAfter(s, step, paths, id);
        }
        if Moves(step) || step.FirstRun? {
          assert History(s.j, step.id) != [] ==> Home(s, step.id) == Some(History(s.j, step.id)[0].origin);
        }
      }
    }
  }

  // ----- runs in which nobody says "I know" -----

  /** The file, or the address recorded when it was last removed, points the id where the
      configuration in force does. */
  predicate InStep(s: State, id: SetId)
  {
    Find(s.live, id).Some? ==> Home(s, id) == Some(AddressOf(Find(s.live, id).value))
  }

  /** And so does whatever a power loss could bring back. */
  ghost predicate NothingElseCouldBe(s: State, id: SetId)
  {
    forall c: Config :: c in s.couldBe ==> HomeIn(c, s.j, id) == Home(s, id)
  }

  /** No acknowledgement, no hand edit, no first-run create, and a pass touches a set only while
      the configuration it started with is still the one in force. And either no write is ever
      renamed without being synced, or a pass records something new only under an id that the file,
      the configuration in force and whatever could come back all point the same way. */
  ghost predicate Careful(s: State, step: Step, synced: bool)
  {
    match step
    case Create(_, _, ack, w) => !ack && (synced ==> !w.RenamedUnsynced?)
    case Update(_, r, _, w) => !r.acknowledgeRepoint && (synced ==> !w.RenamedUnsynced?)
    case Toggle(_, _, w) => synced ==> !w.RenamedUnsynced?
    case Remove(_, w) => synced ==> !w.RenamedUnsynced?
    case PassFinds(p, id, name, _) =>
      && p in s.passes && s.passes[p] == s.live
      && (synced || AlreadyKnown(s, id, name) || (InStep(s, id) && NothingElseCouldBe(s, id)))
    case HandEdit(_) => false
    case FirstRun(_, _) => false
    case _ => true
  }

  ghost predicate CarefulRun(s: State, steps: seq<Step>, paths: Paths, synced: bool)
    requires s.j.Journal?
  {
    steps == [] ||
      var before := steps[..|steps| - 1];
      CarefulRun(s, before, paths, synced) &&
      match Run(s, before, paths)
      case None => false
      case Some(m) => Careful(m, steps[|steps| - 1], synced)
  }

  /** An id with history is in step as long as coherence lasts: an unsynced write can only have left
      apart an id that has none. */
  ghost predicate HistoryInStep(s: State)
  {
    forall id :: History(s.j, id) != [] ==> InStep(s, id) && NothingElseCouldBe(s, id)
  }

  /** What the two refusals and the recorded address buy, in one step. */
  lemma CarefulStepNeverBreaks(s: State, step: Step, paths: Paths, synced: bool)
    requires s.j.Journal? && Unique(s.disk) && Coherent(s) && Enabled(s, step, paths) && Careful(s, step, synced)
    requires HistoryInStep(s) && (synced ==> s.live == s.disk)
    ensures !Breaks(s, step)
  {
    if step.Create? {
      DuplicateIsRefused(s.disk, step.id, step.bs);
      assert History(s.j, step.id) != [] ==> Home(s, step.id) == Some(History(s.j, step.id)[0].origin);
    }
  }

  /** And what an unsynced write costs, exactly: of the steps that are careful but for it, the ones
      that break are the passes that find something new under an id on which the file and the
      configuration in force are apart. */
  lemma OtherwiseCarefulBreaksExactlyOutOfStep(s: State, step: Step, paths: Paths)
    requires s.j.Journal? && Unique(s.disk) && Coherent(s) && Enabled(s, step, paths)
    requires step.PassFinds? && s.passes[step.p] == s.live
    ensures Coherent(After(s, step, paths)) <==> AlreadyKnown(s, step.id, step.name) || InStep(s, step.id)
  {
    CoherenceLostExactlyByABreak(s, step, paths);
  }

  /** For an id that had history already: it points where it did, in every file there still is. */
  lemma OneIdStaysInStep(s: State, step: Step, paths: Paths, id: SetId)
    requires s.j.Journal? && Unique(s.disk) && Coherent(s) && Enabled(s, step, paths) && !step.HandEdit?
    requires InStep(s, id) && NothingElseCouldBe(s, id) && Home(After(s, step, paths), id) == Home(s, id)
    ensures InStep(After(s, step, paths), id) && NothingElseCouldBe(After(s, step, paths), id)
  {
    var t := After(s, step, paths);
    forall c: Config | c in t.couldBe ensures HomeIn(c, t.j, id) == Home(t, id) {
      if c != t.disk {
        assert c in s.couldBe && HomeIn(c, s.j, id) == Home(s, id);
      }
    }
  }

  lemma CarefulStepKeepsHistoryInStep(s: State, step: Step, paths: Paths, synced: bool)
    requires s.j.Journal? && Unique(s.disk) && Coherent(s) && HistoryInStep(s) && s.disk in s.couldBe
    requires Enabled(s, step, paths) && Careful(s, step, synced) && (synced ==> s.live == s.disk && s.couldBe == {s.disk})
    ensures HistoryInStep(After(s, step, paths))
  {
    var t := After(s, step, paths);
    CarefulStepNeverBreaks(s, step, paths, synced);
    CoherenceLostExactlyByABreak(s, step, paths);
    forall id | History(t.j, id) != [] ensures InStep(t, id) && NothingElseCouldBe(t, id) {
      if History(s.j, id) == [] {
        assert step.PassFinds? && step.id == id && !AlreadyKnown(s, id, step.name);
      } else {
        assert History(t.j, id)[0] == History(s.j, id)[0];
        assert Home(s, id) == Some(History(s.j, id)[0].origin) == Home(t, id);
      }
      OneIdStaysInStep(s, step, paths, id);
    }
  }

  lemma {:induction false} CarefulRunStaysCoherent(cfg: Config, steps: seq<Step>, paths: Paths, s: State, synced: bool)
    requires Unique(cfg) && Run(Boot(cfg), steps, paths) == Some(s) && CarefulRun(Boot(cfg), steps, paths, synced)
    ensures AllUnique(s) && Coherent(s) && HistoryInStep(s) && (synced ==> s.live == s.disk && s.couldBe == {s.disk})
  {
    if steps != [] {
      var before, step := steps[..|steps| - 1], steps[|steps| - 1];
      var m := Run(Boot(cfg), before, paths).value;
      CarefulRunStaysCoherent(cfg, before, paths, m, synced);
      StaysUnique(m, step, paths);
      CarefulStepNeverBreaks(m, step, paths, synced);
      CoherenceLostExactlyByABreak(m, step, paths);
      CarefulStepKeepsHistoryInStep(m, step, paths, synced);
    }
  }

  predicate CameFromHere(s: State, id: SetId, origin: Address)
  {
    && (Find(s.live, id).Some? ==> origin == AddressOf(Find(s.live, id).value))
    && match Find(s.disk, id)
       case Some(bs) => origin == AddressOf(bs)
       case None => s.j.Journal? && id in s.j.addresses && origin == s.j.addresses[id]
  }

  lemma CoherentAt(s: State, id: SetId, i: nat)
    requires Coherent(s) && HistoryInStep(s) && i < |History(s.j, id)|
    ensures CameFromHere(s, id, History(s.j, id)[i].origin)
  {
    assert Home(s, id) == Some(History(s.j, id)[i].origin);
    assert InStep(s, id);
  }

  /** The main result: however often an id is removed, created, edited and polled, however its writes
      end, and whenever the process restarts or the power goes, a name a pass skips as already backed up was fetched from the very address the
      set points at, in the file and in force; and history whose set is gone came from the address
      recorded for it. */
  lemma HistoryCameFromHere(cfg: Config, steps: seq<Step>, paths: Paths, s: State, id: SetId, i: nat, synced: bool)
    requires Unique(cfg) && Run(Boot(cfg), steps, paths) == Some(s) && CarefulRun(Boot(cfg), steps, paths, synced)
    requires i < |History(s.j, id)|
    ensures CameFromHere(s, id, History(s.j, id)[i].origin)
  {
    CarefulRunStaysCoherent(cfg, steps, paths, s, synced);
    CoherentAt(s, id, i);
  }

  // ----- the runs that are not careful -----

  /** Nobody acknowledged anything, and nothing went round the service. */
  predicate NothingSaid(steps: seq<Step>)
  {
    forall i :: 0 <= i < |steps| ==>
      match steps[i]
      case Create(_, _, ack, _) => !ack
      case Update(_, r, _, _) => !r.acknowledgeRepoint
      case HandEdit(_) => false
      case FirstRun(_, _) => false
      case _ => true
  }

  lemma Next(s: State, steps: seq<Step>, m: State, step: Step, paths: Paths) returns (longer: seq<Step>, n: State)
    requires s.j.Journal? && Run(s, steps, paths) == Some(m) && Enabled(m, step, paths)
    requires NothingSaid(steps) && NothingSaid([step])
    ensures n == After(m, step, paths) && Run(s, longer, paths) == Some(n) && NothingSaid(longer)
  {
    longer, n := steps + [step], After(m, step, paths);
    assert longer[..|longer| - 1] == steps && [step][0] == step;
  }

  /** A set created, and moved before it had any history, so that nothing is asked. */
  lemma CreatedThenMoved(id: SetId, bs: BackupSet, host: string, early: bool, w: WriteResult, p: PassId, paths: Paths)
    returns (steps: seq<Step>, s: State)
    requires bs.name == id.name && bs.remote.host != host && !w.LeftOld?
    ensures var moved := Apply(bs, NOTHING.(host := Some(host)));
      && Run(Boot([]), steps, paths) == Some(s) && NothingSaid(steps) && s.j == Journal(map[], map[])
      && Find(s.disk, id) == Some(moved) && Find(s.live, id) == Some(if w.Replaced? then moved else bs)
      && (w.RenamedUnsynced? ==> [Source(id.source, [bs])] in s.couldBe)
      && s.passes == (if early then map[p := [Source(id.source, [bs])]] else map[])
      && Find([Source(id.source, [bs])], id) == Some(bs)
  {
    var cfg := [Source(id.source, [bs])];
    var r := NOTHING.(host := Some(host));
    assert WithAdded([], id.source, bs) == cfg;
    FindAdded([], id, bs, id);
    FindReplaced(cfg, id, Apply(bs, r), id);
    steps, s := Next(Boot([]), [], Boot([]), Create(id, bs, false, Replaced), paths);
    if early {
      steps, s := Next(Boot([]), steps, s, PassStart(p), paths);
    }
    steps, s := Next(Boot([]), steps, s, Update(id, r, Apply(bs, r), w), paths);
  }

  /** A pass that outlives the configuration it started with is enough to lose coherence. */
  lemma PassOutlivingAMoveBreaks(id: SetId, bs: BackupSet, host: string, name: string, paths: Paths) returns (steps: seq<Step>, s: State)
    requires bs.name == id.name && bs.remote.host != host
    ensures Run(Boot([]), steps, paths) == Some(s) && NothingSaid(steps) && !Coherent(s)
  {
    var p := PassId(0);
    steps, s := CreatedThenMoved(id, bs, host, true, Replaced, p, paths);
    steps, s := Next(Boot([]), steps, s, PassFinds(p, id, name, ""), paths);
    assert History(s.j, id)[0].origin == AddressOf(bs) && Home(s, id) != Some(AddressOf(bs));
  }

  /** And so is a pass on the configuration in force, when that is not what the file says: the move
      was renamed and not synced, and the next write of anything else puts it in force, over
      history from the old address. */
  lemma PassAfterAnUnsyncedMoveBreaks(id: SetId, bs: BackupSet, host: string, name: string, paths: Paths) returns (steps: seq<Step>, s: State)
    requires bs.name == id.name && bs.remote.host != host
    ensures Run(Boot([]), steps, paths) == Some(s) && NothingSaid(steps)
    ensures s.live == s.disk && Find(s.live, id).Some? && AddressOf(Find(s.live, id).value).host == host
    ensures |History(s.j, id)| == 1 && History(s.j, id)[0] == Record(name, "", AddressOf(bs)) && !Coherent(s)
  {
    var p := PassId(0);
    steps, s := CreatedThenMoved(id, bs, host, false, RenamedUnsynced, p, paths);
    steps, s := Next(Boot([]), steps, s, PassStart(p), paths);
    steps, s := Next(Boot([]), steps, s, PassFinds(p, id, name, ""), paths);
    FindToggled(s.disk, id, true, id);
    steps, s := Next(Boot([]), steps, s, Toggle(id, true, Replaced), paths);
    assert History(s.j, id)[0].origin == AddressOf(bs) && Home(s, id) != Some(AddressOf(bs));
  }

  /** And so is one on the configuration both in force and in the file, when the rename that made it so
      was not synced: a restart puts the move in force, the pass records from there, and the power
      goes. */
  lemma PowerLossAfterAnUnsyncedMoveBreaks(id: SetId, bs: BackupSet, host: string, name: string, paths: Paths) returns (steps: seq<Step>, s: State)
    requires bs.name == id.name && bs.remote.host != host
    ensures Run(Boot([]), steps, paths) == Some(s) && NothingSaid(steps)
    ensures s.live == s.disk && Find(s.live, id) == Some(bs)
    ensures |History(s.j, id)| == 1 && History(s.j, id)[0].origin.host == host && !Coherent(s)
  {
    var p, before := PassId(0), [Source(id.source, [bs])];
    steps, s := CreatedThenMoved(id, bs, host, false, RenamedUnsynced, p, paths);
    steps, s := Next(Boot([]), steps, s, Restart, paths);
    steps, s := Next(Boot([]), steps, s, PassStart(p), paths);
    steps, s := Next(Boot([]), steps, s, PassFinds(p, id, name, ""), paths);
    steps, s := Next(Boot([]), steps, s, PowerLoss(before), paths);
    assert History(s.j, id)[0].origin.host == host && Home(s, id) == Some(AddressOf(bs));
  }
}
