/** What a connection test is about: the source it dials, built from a set's configuration, and
    when an edit changes it. */
module Connection {
  import opened Wrappers
  import opened Config
  import opened HostKeyTrust
  import opened UpdateSet

  datatype KeyEncryption = KeyEncryption(file: string, env: string, command: Slice)

  datatype Dialled = Dialled(
    kind: string, host: string, port: int, user: string,
    keyFile: string, keyEnv: string, keyCommand: Slice,
    passphrase: Secret, maxConnections: int, encryption: KeyEncryption,
    knownHosts: string, root: string, excludePaths: Slice)

  /** A key file under either of its two spellings. */
  function KeyFileOf(r: Remote): string
  {
    if r.key.file != "" then r.key.file else r.keyFile
  }

  function ConnectionTestPort(r: Remote): int
  {
    if r.kind == "sftp" then EffectivePort(r.port) else r.port
  }

  function ConnectionSourceFor(bs: BackupSet, enc: KeyEncryption): Dialled
  {
    var r := bs.remote;
    Dialled(
      r.kind, r.host, ConnectionTestPort(r), r.user,
      KeyFileOf(r), r.key.env, r.key.command,
      r.key.passphrase, r.maxConnections, enc,
      r.knownHosts, if bs.remotePath == "" then "/" else bs.remotePath, bs.excludePaths)
  }

  /** An empty slice made an absent one. */
  function Comparable(s: Slice): Slice
  {
    if Items(s) == [] then Nil else s
  }

  function ComparableSource(d: Dialled): Dialled
  {
    d.(keyCommand := Comparable(d.keyCommand),
       passphrase := d.passphrase.(command := Comparable(d.passphrase.command)),
       encryption := d.encryption.(command := Comparable(d.encryption.command)),
       excludePaths := Comparable(d.excludePaths))
  }

  /** What a check of this set proves. */
  function Proves(bs: BackupSet, enc: KeyEncryption): Dialled
  {
    ComparableSource(ConnectionSourceFor(bs, enc))
  }

  predicate ChangesTheConnection(before: BackupSet, after: BackupSet, enc: KeyEncryption)
  {
    Proves(before, enc) != Proves(after, enc)
  }

  /** All there is to a connection, and nothing else: what is dialled, as whom, with what key, on
      whose word, into which folder. Two sets connect alike exactly when they agree on that. */
  lemma ConnectionIsExactly(a: BackupSet, b: BackupSet, enc: KeyEncryption)
    ensures !ChangesTheConnection(a, b, enc) <==>
      var r, q := a.remote, b.remote;
      && r.kind == q.kind && r.host == q.host && r.user == q.user
      && (if r.kind == "sftp" then (if r.port <= 0 then 22 else r.port) == (if q.port <= 0 then 22 else q.port) else r.port == q.port)
      && (if r.key.file != "" then r.key.file else r.keyFile) == (if q.key.file != "" then q.key.file else q.keyFile)
      && r.key.env == q.key.env && Items(r.key.command) == Items(q.key.command)
      && r.key.passphrase.file == q.key.passphrase.file && r.key.passphrase.env == q.key.passphrase.env
      && Items(r.key.passphrase.command) == Items(q.key.passphrase.command)
      && r.maxConnections == q.maxConnections && r.knownHosts == q.knownHosts
      && (if a.remotePath == "" then "/" else a.remotePath) == (if b.remotePath == "" then "/" else b.remotePath)
      && Items(a.excludePaths) == Items(b.excludePaths)
  {}

  /** The edited set as it is written. The mark follows the connection: moved unchecked, it is set;
      moved and checked, it is not; not moved, it stays as it was. */
  function Marked(target: BackupSet, edited: BackupSet, skip: bool, enc: KeyEncryption): BackupSet
  {
    if ChangesTheConnection(target, edited, enc) then edited.(connectionUnverified := skip) else edited
  }

  /** The mark is no part of the connection, so it says what the edit did about it. */
  lemma MarkFollowsTheConnection(target: BackupSet, edited: BackupSet, skip: bool, enc: KeyEncryption)
    ensures
      var after := Marked(target, edited, skip, enc);
      && (ChangesTheConnection(target, after, enc) <==> ChangesTheConnection(target, edited, enc))
      && Proves(after, enc) == Proves(edited, enc)
      && after.connectionUnverified == if ChangesTheConnection(target, after, enc) then skip else edited.connectionUnverified
  {}

  // ----- spelling is not connection -----

  function Respelled(s: Slice): Slice
  {
    if s.Nil? then Elems([]) else s
  }

  /** The set as it comes back once this product has written it: an absent command is written as
      an empty one. */
  function WrittenAndRead(bs: BackupSet): BackupSet
  {
    var key := bs.remote.key;
    bs.(remote := bs.remote.(key := key.(command := Respelled(key.command),
                                         passphrase := key.passphrase.(command := Respelled(key.passphrase.command)))),
        includes := Respelled(bs.includes))
  }

  /** The set once Validate has made its two spellings of the key file agree. */
  function Validated(bs: BackupSet): BackupSet
  {
    var file := if bs.remote.keyFile == "" then bs.remote.key.file else bs.remote.keyFile;
    if file == "" then bs else bs.(remote := bs.remote.(keyFile := file, key := bs.remote.key.(file := file)))
  }

  /** A set this product wrote, read back and validated dials what it dialled before; two different
      key files under the two spellings Validate refuses. */
  lemma SpellingIsNotConnection(bs: BackupSet, enc: KeyEncryption)
    ensures !ChangesTheConnection(bs, WrittenAndRead(bs), enc)
    ensures (bs.remote.keyFile == "" || bs.remote.key.file == "" || bs.remote.keyFile == bs.remote.key.file) ==>
      !ChangesTheConnection(bs, Validated(bs), enc)
  {}

  /** Validate only makes the two spellings of the key file agree, on the one that is there. */
  lemma ValidatedSpellingsAgree(bs: BackupSet)
    ensures
      var r, was := Validated(bs).remote, bs.remote;
      && r.keyFile == r.key.file == (if was.keyFile != "" then was.keyFile else was.key.file)
      && Validated(bs) == bs.(remote := was.(keyFile := r.keyFile, key := was.key.(file := r.key.file)))
  {}

  // ----- which edits need a check -----

  /** The sftp edits a request can make apart from the key and the trusted line: the check runs
      exactly when host, port, user or folder really end up different. */
  lemma EditNeedsACheckExactly(bs: BackupSet, r: Request, enc: KeyEncryption)
    requires bs.remote.kind == "sftp"
    ensures ChangesTheConnection(bs, Apply(bs, r), enc) <==>
      || (r.host.Some? && r.host.value != bs.remote.host)
      || (r.port.Some? && EffectivePort(r.port.value) != EffectivePort(bs.remote.port))
      || (r.user.Some? && r.user.value != bs.remote.user)
      || (r.remotePath.Some? && r.remotePath.value != bs.remotePath
          && !({r.remotePath.value, bs.remotePath} == {"", "/"}))
  {}

  /** The key an edit names replaces the whole key, and the old spelling with it; its passphrase
      stays only when the file is the one the set uses already. */
  function WithKey(bs: BackupSet, file: string): BackupSet
  {
    var r := bs.remote;
    var passphrase := if file == r.key.file || file == r.keyFile then r.key.passphrase else Secret("", "", Nil);
    bs.(remote := r.(key := Key(file, "", Nil, passphrase), keyFile := ""))
  }

  /** The whole key is replaced, so that no second source of one is left beside it, and the old
      spelling of the file with it. The passphrase stays exactly when the file is one the set named
      already, and nothing but the key moves. */
  lemma TheWholeKeyIsReplaced(bs: BackupSet, file: string)
    ensures
      var r, was := WithKey(bs, file).remote, bs.remote;
      && r.key.file == file && r.key.env == "" && r.key.command == Nil && r.keyFile == ""
      && r.key.passphrase == (if file == was.key.file || file == was.keyFile then was.key.passphrase else Secret("", "", Nil))
      && WithKey(bs, file) == bs.(remote := was.(key := r.key, keyFile := ""))
  {}

  /** Sending the key the set already uses changes nothing, passphrase and all; sending any other
      always asks for a check. */
  lemma KeyEditNeedsACheckExactly(bs: BackupSet, file: string, enc: KeyEncryption)
    requires file != ""
    ensures ChangesTheConnection(bs, WithKey(bs, file), enc) <==>
      !(file == KeyFileOf(bs.remote) && bs.remote.key.env == "" && Items(bs.remote.key.command) == [])
    ensures file == KeyFileOf(bs.remote) ==> WithKey(bs, file).remote.key.passphrase == bs.remote.key.passphrase
  {}

  // ----- a create -----

  /** What the check in front of a create dials: the request's own fields, with the trusted line
      in a file of its own. */
  function Candidate(bs: BackupSet, line: string, enc: KeyEncryption): Dialled
  {
    Dialled("sftp", bs.remote.host, bs.remote.port, bs.remote.user,
            bs.remote.key.file, "", Nil, Secret("", "", Nil), 0, enc,
            line, if bs.remotePath == "" then "/" else bs.remotePath, Nil)
  }

  /** The port its steps dial and verify against; the source beside it keeps the one asked for. */
  function CandidatePort(bs: BackupSet): int
  {
    if bs.remote.port <= 0 then DEFAULT_PORT else bs.remote.port
  }

  /** A set built from a create request names a key file and nothing else about keys. */
  predicate FromARequest(bs: BackupSet)
  {
    && bs.remote.kind == "sftp" && bs.remote.keyFile == "" && bs.remote.maxConnections == 0
    && bs.remote.key == Key(bs.remote.key.file, "", Nil, Secret("", "", Nil)) && bs.excludePaths == Nil
  }

  /** The candidate and the set written from it are one connection: the same number dialled, the same
      source but for where a port left open is filled in, and for which file the same trusted line is
      read from. */
  lemma CandidateIsTheSetItBecomes(bs: BackupSet, line: string, enc: KeyEncryption)
    requires FromARequest(bs)
    ensures Proves(bs, enc).port == CandidatePort(bs)
    ensures ComparableSource(Candidate(bs, line, enc)).(port := CandidatePort(bs), knownHosts := bs.remote.knownHosts) == Proves(bs, enc)
    ensures bs.remote.port > 0 ==> Candidate(bs, line, enc).port == CandidatePort(bs)
  {}

  // ----- deleting from the source -----

  datatype TestResult = TestResult(ok: bool, writable: bool)

  /** Only a check that ran, passed, and found the source read-only stands in the way of a set that
      deletes. */
  predicate RefuseDelete(result: TestResult, readOnly: bool)
  {
    !(readOnly || result.writable || !result.ok)
  }

  lemma DeleteRefusedExactly(result: TestResult, readOnly: bool)
    ensures RefuseDelete(result, readOnly) <==> result.ok && !result.writable && !readOnly
  {}
}
