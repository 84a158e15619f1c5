/** One service behind every machine: what a call of the service leaves in the file and in force is
    what the step of its name does there, in the machine for the holds, the mark, the history and the
    trust files alike. The first is kept by the service object itself; the other three are here. */
module Agreement {
  import opened Wrappers
  import opened Config
  import B = BackupService
  import U = UpdatePath
  import UpdateSet
  import Connection
  import V = Verified
  import H = HistoryCoherence
  import C = CanonicalTrust
  import Repoint
  import Trust = HostKeyTrust

  /** A call that got as far as its write has left the file and the configuration in force where the
      machines' write leaves them; one that did not has left both as they were. */
  lemma AWriteIsTheMachinesWrite(o: B.Outcome, disk0: Config, live0: Config, next: Config, w: B.World, disk: Option<Config>, live: Config)
    requires o == B.TailOutcome(next, w) && B.WriteEffect(o, Some(disk0), live0, next, w, disk, live)
    ensures o.Done? || o.NotWritten? ==> disk == Some(FileAfter(disk0, next, w.write)) && live == LiveAfter(live0, next, w.write)
    ensures !(o.Done? || o.NotWritten?) ==> disk == Some(disk0) && live == live0
  {}

  // ----- the mark -----

  /** The clear the service runs after a passing test is the clear of the machine: written exactly over
      a mark, and the same file. */
  lemma ClearIsTheMachines(s: V.State, t: V.TestId, fixed: V.Fixed, w: B.World)
    requires t in s.tests && s.tests[t].passed && w.loads
    ensures
      var id, step := s.tests[t].id, V.Clear(t, w.write);
      var c := V.ChangeOf(s, step, fixed);
      && V.Enabled(s, step, fixed)
      && (c.Some? <==> !B.ClearOutcome(Some(s.disk), id, w).NotFound?)
      && (c.Some? ==> c.value.next == B.Cleared(Some(s.disk), id) && c.value.id == id)
  {}

  lemma ToggleAndRemoveAreTheMachines(s: V.State, id: SetId, disabled: bool, fixed: V.Fixed, w: B.World)
    requires Find(s.disk, id).Some?
    ensures V.ChangeOf(s, V.Toggle(id, disabled, w.write), fixed).Some? && V.ChangeOf(s, V.Remove(id, w.write), fixed).Some?
    ensures V.ChangeOf(s, V.Toggle(id, disabled, w.write), fixed).value.next == Toggled(s.disk, id, disabled)
    ensures V.ChangeOf(s, V.Remove(id, w.write), fixed).value.next == Without(s.disk, id)
  {}

  lemma CreateIsTheMachines(s: V.State, id: SetId, bs: BackupSet, skip: bool, result: Connection.TestResult, fixed: V.Fixed, w: B.World)
    requires V.Enabled(s, V.Create(id, Trust.Anchored(bs, id), skip, result, w.write), fixed)
    ensures V.ChangeOf(s, V.Create(id, Trust.Anchored(bs, id), skip, result, w.write), fixed).value.next == B.Created(Some(s.disk), id, bs)
  {}

  /** The edit of the machine, made of what the request makes of the set, writes what the service
      writes; and a service that gets to its write has met the machine's conditions. */
  lemma UpdateIsTheMachines(s: V.State, id: SetId, r: UpdateSet.Request, d: U.Deployment, w: U.World)
    requires Find(s.disk, id).Some?
    ensures
      var target := Find(s.disk, id).value;
      var edited := U.Trusted(U.WithoutTrust(target, r, w.keyFile), r, w.name);
      var step, fixed := V.Update(id, edited, r.skipConnectionCheck, w.check, w.write), V.Fixed(d.enc, d.inherits);
      U.ConnectionAnswered(id, target, U.EditedSet(target, r, w.keyFile, w.name, d.enc), r, d, w) ==>
        && V.Enabled(s, step, fixed)
        && V.ChangeOf(s, step, fixed).value.next == U.Updated(Some(s.disk), id, r, d, w)
  {
    var target := Find(s.disk, id).value;
    FoundIffNamed(s.disk, id);
    Connection.MarkFollowsTheConnection(target, U.Trusted(U.WithoutTrust(target, r, w.keyFile), r, w.name), r.skipConnectionCheck, d.enc);
  }

  // ----- the history -----

  lemma HistorySeesTheSameWrites(s: H.State, id: SetId, bs: BackupSet, disabled: bool, w: B.World, paths: H.Paths)
    requires s.j.Journal? && bs.name == id.name
    ensures H.Enabled(s, H.Create(id, Trust.Anchored(bs, id), false, w.write), paths) ==>
      var t := H.After(s, H.Create(id, Trust.Anchored(bs, id), false, w.write), paths);
      t.disk == FileAfter(s.disk, B.Created(Some(s.disk), id, bs), w.write) && t.live == LiveAfter(s.live, B.Created(Some(s.disk), id, bs), w.write)
    ensures Find(s.disk, id).Some? ==>
      var t := H.After(s, H.Toggle(id, disabled, w.write), paths);
      t.disk == FileAfter(s.disk, Toggled(s.disk, id, disabled), w.write) && t.live == LiveAfter(s.live, Toggled(s.disk, id, disabled), w.write)
    ensures Find(s.disk, id).Some? ==>
      var t := H.After(s, H.Remove(id, w.write), paths);
      t.disk == FileAfter(s.disk, Without(s.disk, id), w.write) && t.live == LiveAfter(s.live, Without(s.disk, id), w.write)
  {}

  /** A removal that got past its record leaves the journal the machine's removal leaves. */
  lemma HistorySeesTheSameRecord(s: H.State, id: SetId, w: B.World, paths: H.Paths)
    requires s.j.Journal? && Find(s.disk, id).Some? && w.loads && w.records
    ensures H.After(s, H.Remove(id, w.write), paths).j
         == B.JournalAfterRemoval(B.RemovalOutcome(Some(s.disk), id, s.j, w), Some(s.disk), id, s.j)
  {
    FoundIffNamed(s.disk, id);
  }

  /** An edit the service lets through unacknowledged is one the machine lets through, at the same
      address. */
  lemma HistorySeesTheSameEdit(s: H.State, id: SetId, r: UpdateSet.Request, d: U.Deployment, w: U.World, paths: H.Paths)
    requires s.j.Journal? && Find(s.disk, id).Some?
    ensures
      var target := Find(s.disk, id).value;
      var after := U.EditedSet(target, r, w.keyFile, w.name, d.enc);
      U.RepointAnswered(s.j, id, target, r, w.journal) ==>
        && H.Enabled(s, H.Update(id, r, after, w.write), paths)
        && H.After(s, H.Update(id, r, after, w.write), paths).disk == FileAfter(s.disk, U.Updated(Some(s.disk), id, r, d, w), w.write)
  {
    FoundIffNamed(s.disk, id);
    U.BeyondTheEdit(Find(s.disk, id).value, r, w.keyFile, w.name, d.enc);
  }

  // ----- the trust files -----

  /** A create writes the same bytes at the same name, and the same configuration after it. */
  lemma TrustSeesTheSameCreate(s: C.State, files: Trust.Files, id: SetId, bs: BackupSet, line: string, acknowledged: bool,
                               j: Repoint.Journal, w: B.World, dir: string -> string, clean: string -> string)
    requires forall p :: (p in s.files <==> p in files) && (p in files ==> s.files[p].text == files[p])
    requires B.CreateRefusal(Some(s.disk.cfg), id, bs, acknowledged, j, w, dir, clean).Done?
    ensures
      var t, after := C.AfterTrustWrite(s, id, line, w.trust), B.FilesAfterCreate(files, Some(s.disk.cfg), id, bs, line, acknowledged, j, w, dir, clean);
      forall p :: (p in t.files <==> p in after) && (p in after ==> t.files[p].text == after[p])
    ensures C.CreatedVersion(s, id, bs, line).cfg == B.Created(Some(s.disk.cfg), id, bs)
  {}
}
