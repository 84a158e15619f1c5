/** A sparse edit of one backup set: an absent field leaves the setting alone, a present one
    replaces it. The edit is made on a copy and judged by its result. */
module UpdateSet {
  import opened Wrappers
  import opened Config

  datatype Request = Request(
    host: Option<string>,
    port: Option<int>,
    user: Option<string>,
    remotePath: Option<string>,
    localPath: Option<string>,
    includes: Option<Slice>,
    strategy: Option<string>,
    stableFor: Option<int>,
    staleAfter: Option<int>,
    pollInterval: Option<int>,
    consistency: Option<string>,
    verificationLevel: Option<string>,
    samplePercent: Option<int>,
    fullEvery: Option<int>,
    drillEvery: Option<int>,
    sshKeyId: Option<string>,
    knownHostsLine: Option<string>,
    validatorId: Option<string>,
    acknowledgeRepoint: bool,
    acknowledgeHostKeyChange: bool,
    skipConnectionCheck: bool)

  /** Neither an acknowledgement nor the skip names a field. */
  predicate IsEmpty(r: Request)
  {
    r == NOTHING.(acknowledgeRepoint := r.acknowledgeRepoint,
                  acknowledgeHostKeyChange := r.acknowledgeHostKeyChange,
                  skipConnectionCheck := r.skipConnectionCheck)
  }

  const NOTHING := Request(None, None, None, None, None, None, None, None, None, None, None, None, None, None, None,
                           None, None, None, false, false, false)

  function Or<T>(named: Option<T>, otherwise: T): T
  {
    if named.Some? then named.value else otherwise
  }

  /** A slice copied element by element onto an absent one: no elements, no slice. */
  function Copied(s: Slice): Slice
  {
    if s.Elems? && s.items != [] then s else Nil
  }

  /** The edit of a copy. The key reference and the trusted line are not applied here: both
      resolve to files and can fail doing it. */
  function Apply(bs: BackupSet, r: Request): BackupSet
  {
    var strategy := Or(r.strategy, bs.completion.strategy);
    bs.(
      remote := bs.remote.(host := Or(r.host, bs.remote.host), port := Or(r.port, bs.remote.port), user := Or(r.user, bs.remote.user)),
      remotePath := Or(r.remotePath, bs.remotePath),
      localPath := Or(r.localPath, bs.localPath),
      includes := if r.includes.Some? then Copied(r.includes.value) else bs.includes,
      completion := Completion(strategy, if strategy == "stable" then Or(r.stableFor, bs.completion.stableFor) else 0),
      staleAfter := Or(r.staleAfter, bs.staleAfter),
      pollInterval := match r.pollInterval
                      case None => bs.pollInterval
                      case Some(d) => (if d == 0 then None else Some(d)),
      consistency := Or(r.consistency, bs.consistency),
      verificationLevel := Or(r.verificationLevel, bs.verificationLevel),
      samplePercent := Or(r.samplePercent, bs.samplePercent),
      fullEvery := Or(r.fullEvery, bs.fullEvery),
      drillEvery := Or(r.drillEvery, bs.drillEvery),
      validatorId := Or(r.validatorId, bs.validatorId),
      validatorCommand := if r.validatorId.Some? then Nil else bs.validatorCommand)
  }

  datatype Problem =
    | HostRequired | UserRequired | RemotePathRequired | LocalPathRequired
    | NotAnSftpRemote | EmptyKeyId | UnusableLine
    | UnknownStrategy | WindowNotPositive | WindowNotKept
    | StaleAfterNotPositive | UnknownValidator

  function If(c: bool, p: Problem): seq<Problem>
  {
    if c then [p] else []
  }

  function CompletionProblems(strategy: string, stableFor: int): seq<Problem>
  {
    If(strategy !in {"rename", "marker", "stable"}, UnknownStrategy)
    + If(strategy == "stable" && stableFor <= 0, WindowNotPositive)
  }

  function RequiredProblems(bs: BackupSet, r: Request): seq<Problem>
  {
    If(r.host.Some? && bs.remote.host == "", HostRequired)
    + (If(r.user.Some? && bs.remote.user == "", UserRequired)
    + (If(r.remotePath.Some? && bs.remotePath == "", RemotePathRequired)
    + If(r.localPath.Some? && bs.localPath == "", LocalPathRequired)))
  }

  function TrustProblems(bs: BackupSet, r: Request, lineOk: string -> bool): seq<Problem>
  {
    If((r.sshKeyId.Some? || r.knownHostsLine.Some?) && bs.remote.kind != "sftp", NotAnSftpRemote)
    + (If(r.sshKeyId == Some(""), EmptyKeyId)
    + If(r.knownHostsLine.Some? && !lineOk(r.knownHostsLine.value), UnusableLine))
  }

  function ValueProblems(bs: BackupSet, r: Request, validators: set<string>): seq<Problem>
  {
    (if bs.engine == INCREMENTAL then [] else CompletionProblems(bs.completion.strategy, bs.completion.stableFor))
    + (If(r.stableFor.Some? && bs.completion.stableFor != r.stableFor.value, WindowNotKept)
    + (If(r.staleAfter.Some? && bs.staleAfter <= 0, StaleAfterNotPositive)
    + If(bs.validatorId != "" && bs.validatorId !in validators, UnknownValidator)))
  }

  /** Everything wrong with an edit, in the order it is reported. bs is the edited set; lineOk is
      the rule for a known_hosts line. */
  function Problems(bs: BackupSet, r: Request, lineOk: string -> bool, validators: set<string>): seq<Problem>
  {
    RequiredProblems(bs, r) + (TrustProblems(bs, r, lineOk) + ValueProblems(bs, r, validators))
  }

  predicate Accepted(bs: BackupSet, r: Request, lineOk: string -> bool, validators: set<string>)
  {
    Problems(Apply(bs, r), r, lineOk, validators) == []
  }

  // ----- what an accepted edit did -----

  function Items(s: Slice): seq<string>
  {
    if s.Nil? then [] else s.items
  }

  /** Every field the request named is there. */
  predicate Granted(after: BackupSet, r: Request)
  {
    && (r.host.Some? ==> after.remote.host == r.host.value)
    && (r.port.Some? ==> after.remote.port == r.port.value)
    && (r.user.Some? ==> after.remote.user == r.user.value)
    && (r.remotePath.Some? ==> after.remotePath == r.remotePath.value)
    && (r.localPath.Some? ==> after.localPath == r.localPath.value)
    && (r.includes.Some? ==> Items(after.includes) == Items(r.includes.value))
    && (r.strategy.Some? ==> after.completion.strategy == r.strategy.value)
    && (r.stableFor.Some? ==> after.completion.stableFor == r.stableFor.value)
    && (r.staleAfter.Some? ==> after.staleAfter == r.staleAfter.value)
    && (r.pollInterval.Some? ==> after.pollInterval == if r.pollInterval.value == 0 then None else r.pollInterval)
    && (r.consistency.Some? ==> after.consistency == r.consistency.value)
    && (r.verificationLevel.Some? ==> after.verificationLevel == r.verificationLevel.value)
    && (r.samplePercent.Some? ==> after.samplePercent == r.samplePercent.value)
    && (r.fullEvery.Some? ==> after.fullEvery == r.fullEvery.value)
    && (r.drillEvery.Some? ==> after.drillEvery == r.drillEvery.value)
    && (r.validatorId.Some? ==> after.validatorId == r.validatorId.value && after.validatorCommand == Nil)
    && (r.includes.Some? && Items(r.includes.value) == [] ==> after.includes == Nil)
  }

  /** Every setting the request did not name is as it was; the window and the resolved validator
      command, which follow other fields, aside. */
  predicate Untouched(before: BackupSet, after: BackupSet, r: Request)
  {
    && (r.host.None? ==> after.remote.host == before.remote.host)
    && (r.port.None? ==> after.remote.port == before.remote.port)
    && (r.user.None? ==> after.remote.user == before.remote.user)
    && (r.remotePath.None? ==> after.remotePath == before.remotePath)
    && (r.localPath.None? ==> after.localPath == before.localPath)
    && (r.includes.None? ==> after.includes == before.includes)
    && (r.strategy.None? ==> after.completion.strategy == before.completion.strategy)
    && (r.staleAfter.None? ==> after.staleAfter == before.staleAfter)
    && (r.pollInterval.None? ==> after.pollInterval == before.pollInterval)
    && (r.consistency.None? ==> after.consistency == before.consistency)
    && (r.verificationLevel.None? ==> after.verificationLevel == before.verificationLevel)
    && (r.samplePercent.None? ==> after.samplePercent == before.samplePercent)
    && (r.fullEvery.None? ==> after.fullEvery == before.fullEvery)
    && (r.drillEvery.None? ==> after.drillEvery == before.drillEvery)
    && (r.validatorId.None? ==> after.validatorId == before.validatorId && after.validatorCommand == before.validatorCommand)
    // what no request can name
    && after.name == before.name && after.engine == before.engine
    && after.excludePaths == before.excludePaths
    && after.disabled == before.disabled && after.readOnly == before.readOnly
    && after.connectionUnverified == before.connectionUnverified
    && after.remote.(host := "", port := 0, user := "") == before.remote.(host := "", port := 0, user := "")
  }

  /** No success for a discarded write: an edit that is accepted holds everything it was asked
      for, moves nothing else, and leaves a window only under the strategy that reads one, where
      an artifact set's is positive. */
  lemma AcceptedEditDiscardsNothing(bs: BackupSet, r: Request, lineOk: string -> bool, validators: set<string>)
    requires Accepted(bs, r, lineOk, validators)
    ensures var after := Apply(bs, r);
      && Granted(after, r) && Untouched(bs, after, r)
      && (after.completion.strategy != "stable" ==> after.completion.stableFor == 0)
      && (after.completion.strategy == "stable" && r.stableFor.None? ==> after.completion.stableFor == bs.completion.stableFor)
      && (after.engine != INCREMENTAL ==> after.completion.strategy in {"rename", "marker", "stable"})
      && (after.engine != INCREMENTAL && after.completion.strategy == "stable" ==> after.completion.stableFor > 0)
  {}

  /** What it takes, said of the request and the set as it was: nothing named may be empty that has
      to be there, a key or a line only on an sftp remote, a strategy there is with a window it
      reads, no window thrown away, a freshness budget that is one, a validator that is listed. */
  lemma AcceptedExactly(bs: BackupSet, r: Request, lineOk: string -> bool, validators: set<string>)
    ensures Accepted(bs, r, lineOk, validators) <==>
      var strategy, window := Or(r.strategy, bs.completion.strategy), Or(r.stableFor, bs.completion.stableFor);
      && r.host != Some("") && r.user != Some("") && r.remotePath != Some("") && r.localPath != Some("") && r.sshKeyId != Some("")
      && (r.sshKeyId.Some? || r.knownHostsLine.Some? ==> bs.remote.kind == "sftp")
      && (r.knownHostsLine.Some? ==> lineOk(r.knownHostsLine.value))
      && (bs.engine != INCREMENTAL ==> strategy in {"rename", "marker", "stable"} && (strategy == "stable" ==> window > 0))
      && (r.stableFor.Some? && strategy != "stable" ==> window == 0)
      && (r.staleAfter.Some? ==> r.staleAfter.value > 0)
      && (Or(r.validatorId, bs.validatorId) != "" ==> Or(r.validatorId, bs.validatorId) in validators)
  {}

  /** And the window rule refuses nothing else: a named window is turned away exactly when the
      edit would have thrown it away. */
  lemma WindowRefusedExactlyWhenDropped(bs: BackupSet, r: Request, lineOk: string -> bool, validators: set<string>)
    ensures WindowNotKept in Problems(Apply(bs, r), r, lineOk, validators) <==>
      r.stableFor.Some? && r.stableFor.value != 0 && Or(r.strategy, bs.completion.strategy) != "stable"
  {}

  /** A request is empty exactly when it names no setting; what it acknowledges is no setting. And
      naming none changes none, but for a window nothing reads. */
  lemma EmptyExactlyWhenNothingIsNamed(bs: BackupSet, r: Request)
    ensures IsEmpty(r) <==>
      && r.host.None? && r.port.None? && r.user.None? && r.remotePath.None? && r.localPath.None? && r.includes.None?
      && r.strategy.None? && r.stableFor.None? && r.staleAfter.None? && r.pollInterval.None? && r.consistency.None?
      && r.verificationLevel.None? && r.samplePercent.None? && r.fullEvery.None? && r.drillEvery.None?
      && r.sshKeyId.None? && r.knownHostsLine.None? && r.validatorId.None?
    ensures IsEmpty(r) && (bs.completion.strategy == "stable" || bs.completion.stableFor == 0) ==> Apply(bs, r) == bs
  {}

  /** Each problem is reported exactly when there is one, said of the edited set and the request: what
      must not be emptied, */
  lemma EmptiedFieldsReported(bs: BackupSet, r: Request)
    ensures HostRequired in RequiredProblems(bs, r) <==> r.host.Some? && bs.remote.host == ""
    ensures UserRequired in RequiredProblems(bs, r) <==> r.user.Some? && bs.remote.user == ""
    ensures RemotePathRequired in RequiredProblems(bs, r) <==> r.remotePath.Some? && bs.remotePath == ""
    ensures LocalPathRequired in RequiredProblems(bs, r) <==> r.localPath.Some? && bs.localPath == ""
  {}

  /** the key and the line, */
  lemma TrustProblemsReported(bs: BackupSet, r: Request, lineOk: string -> bool)
    ensures NotAnSftpRemote in TrustProblems(bs, r, lineOk) <==> (r.sshKeyId.Some? || r.knownHostsLine.Some?) && bs.remote.kind != "sftp"
    ensures EmptyKeyId in TrustProblems(bs, r, lineOk) <==> r.sshKeyId == Some("")
    ensures UnusableLine in TrustProblems(bs, r, lineOk) <==> r.knownHostsLine.Some? && !lineOk(r.knownHostsLine.value)
  {}

  /** and how a backup is known to be complete, how stale it may be, and what checks it. */
  lemma ValueProblemsReported(bs: BackupSet, r: Request, validators: set<string>)
    ensures
      var p, c := ValueProblems(bs, r, validators), bs.completion;
      && (UnknownStrategy in p <==> bs.engine != "kopia" && c.strategy !in {"rename", "marker", "stable"})
      && (WindowNotPositive in p <==> bs.engine != "kopia" && c.strategy == "stable" && c.stableFor <= 0)
      && (WindowNotKept in p <==> r.stableFor.Some? && c.stableFor != r.stableFor.value)
      && (StaleAfterNotPositive in p <==> r.staleAfter.Some? && bs.staleAfter <= 0)
      && (UnknownValidator in p <==> bs.validatorId != "" && bs.validatorId !in validators)
  {}

  /** Saying it twice says it once. */
  lemma EditIsIdempotent(bs: BackupSet, r: Request)
    ensures Apply(Apply(bs, r), r) == Apply(bs, r)
  {}

  // ----- two edits -----

  function Later<T>(a: Option<T>, b: Option<T>): Option<T>
  {
    if b.Some? then b else a
  }

  /** One request saying what a and then b said. */
  function Merged(a: Request, b: Request): Request
  {
    Request(
      Later(a.host, b.host), Later(a.port, b.port), Later(a.user, b.user),
      Later(a.remotePath, b.remotePath), Later(a.localPath, b.localPath), Later(a.includes, b.includes),
      Later(a.strategy, b.strategy), Later(a.stableFor, b.stableFor), Later(a.staleAfter, b.staleAfter),
      Later(a.pollInterval, b.pollInterval), Later(a.consistency, b.consistency),
      Later(a.verificationLevel, b.verificationLevel), Later(a.samplePercent, b.samplePercent),
      Later(a.fullEvery, b.fullEvery), Later(a.drillEvery, b.drillEvery),
      Later(a.sshKeyId, b.sshKeyId), Later(a.knownHostsLine, b.knownHostsLine),
      Later(a.validatorId, b.validatorId),
      a.acknowledgeRepoint || b.acknowledgeRepoint,
      a.acknowledgeHostKeyChange || b.acknowledgeHostKeyChange,
      a.skipConnectionCheck || b.skipConnectionCheck)
  }

  /** a leaves the set off "stable" and so throws away a window that b, moving it onto "stable"
      without naming one, would have kept. */
  predicate WindowLostBetween(bs: BackupSet, a: Request, b: Request)
  {
    && Or(a.strategy, bs.completion.strategy) != "stable"
    && b.strategy == Some("stable") && b.stableFor.None?
    && Or(a.stableFor, bs.completion.stableFor) != 0
  }

  /** Two edits in turn are one merged edit, with exactly that exception. */
  lemma EditsMergeExactlyUnlessAWindowIsLost(bs: BackupSet, a: Request, b: Request)
    ensures Apply(Apply(bs, a), b) == Apply(bs, Merged(a, b)) <==> !WindowLostBetween(bs, a, b)
  {}

  predicate NotBoth<T>(a: Option<T>, b: Option<T>)
  {
    a.None? || b.None?
  }

  /** No field named by both. */
  predicate Disjoint(a: Request, b: Request)
  {
    && NotBoth(a.host, b.host) && NotBoth(a.port, b.port) && NotBoth(a.user, b.user)
    && NotBoth(a.remotePath, b.remotePath) && NotBoth(a.localPath, b.localPath) && NotBoth(a.includes, b.includes)
    && NotBoth(a.strategy, b.strategy) && NotBoth(a.stableFor, b.stableFor) && NotBoth(a.staleAfter, b.staleAfter)
    && NotBoth(a.pollInterval, b.pollInterval) && NotBoth(a.consistency, b.consistency)
    && NotBoth(a.verificationLevel, b.verificationLevel) && NotBoth(a.samplePercent, b.samplePercent)
    && NotBoth(a.fullEvery, b.fullEvery) && NotBoth(a.drillEvery, b.drillEvery)
    && NotBoth(a.sshKeyId, b.sshKeyId) && NotBoth(a.knownHostsLine, b.knownHostsLine)
    && NotBoth(a.validatorId, b.validatorId)
  }

  /** One of the two moves a set that is not "stable" onto it without naming the window, and
      either the other names one or the file still holds a dead one. */
  predicate SplitsStrategyFromWindow(bs: BackupSet, mover: Request, other: Request)
  {
    && bs.completion.strategy != "stable"
    && mover.strategy == Some("stable") && mover.stableFor.None?
    && Or(other.stableFor, bs.completion.stableFor) != 0
  }

  /** Edits of different fields may arrive in either order, exactly unless they split the
      strategy from its window. */
  lemma DisjointEditsCommuteExactly(bs: BackupSet, a: Request, b: Request)
    requires Disjoint(a, b)
    ensures Apply(Apply(bs, a), b) == Apply(Apply(bs, b), a) <==>
      !SplitsStrategyFromWindow(bs, a, b) && !SplitsStrategyFromWindow(bs, b, a)
  {}
}
