/** Changing the host key a backup set trusts: three refusals and a staged file, which together
    bound what an edit nobody acknowledged may do to the keys the set trusts. What a known_hosts
    file matches is the library's business and stays a parameter. */
module HostKeyTrust {
  import opened Wrappers
  import opened Config
  import opened Decimal
  import KnownHostsName

  datatype HostKey = HostKey(kind: string, blob: string)

  datatype Entry = Entry(marker: string, hosts: seq<string>, key: HostKey)

  /** What the matcher says of one key offered at one address. */
  datatype Check = Verified | Mismatch(want: seq<HostKey>) | CheckFailed

  /** The library. one reads a line that must be exactly one entry; list reads a whole file in
      order; compiles is whether it can be matched against at all. */
  datatype Matcher = Matcher(
    one: string -> Option<Entry>,
    list: string -> Option<seq<Entry>>,
    compiles: string -> bool,
    check: (string, string, HostKey) -> Check)

  type Files = map<string, string>

  const DEFAULT_PORT := 22

  /** net.JoinHostPort: a host with a colon in it goes in brackets. */
  function Bracketed(host: string): string
  {
    if ':' in host then "[" + host + "]" else host
  }

  function EffectivePort(port: int): (p: int)
    ensures p > 0
  {
    if port <= 0 then DEFAULT_PORT else port
  }

  /** The address a known_hosts entry for this remote is looked up under. */
  function HostKeyAddress(remote: Remote): string
  {
    Bracketed(remote.host) + (":" + FormatInt(EffectivePort(remote.port)))
  }

  lemma NoColonAfter(a: string, d: string)
    requires ':' !in d
    ensures (a + (":" + d))[|a|] == ':'
    ensures forall i :: |a| < i < |a + (":" + d)| ==> (a + (":" + d))[i] != ':'
  {}

  lemma LastColonSplits(a: string, d: string, b: string, e: string)
    requires a + (":" + d) == b + (":" + e) && ':' !in d && ':' !in e
    ensures a == b && d == e
  {
    NoColonAfter(a, d);
    NoColonAfter(b, e);
    var s := a + (":" + d);
    assert |a| == |b|;
    assert a == s[..|a|] == b && d == s[|a| + 1..] == e;
  }

  lemma NoColonInDigits(n: nat)
    ensures ':' !in FormatNat(n)
  {}

  lemma BracketedInjective(h: string, g: string)
    requires Bracketed(h) == Bracketed(g)
    ensures h == g
  {
    if ':' in h && ':' in g {
      assert Bracketed(h)[1..|h| + 1] == h && Bracketed(g)[1..|g| + 1] == g;
    }
  }

  /** Two remotes share an address exactly when they share host and port, the default spelled out
      or not. */
  lemma AddressIsHostAndPort(a: Remote, b: Remote)
    ensures HostKeyAddress(a) == HostKeyAddress(b) <==> a.host == b.host && EffectivePort(a.port) == EffectivePort(b.port)
  {
    var p, q := EffectivePort(a.port), EffectivePort(b.port);
    NoColonInDigits(p);
    NoColonInDigits(q);
    FormatNatReadsBack(p);
    FormatNatReadsBack(q);
    if HostKeyAddress(a) == HostKeyAddress(b) {
      LastColonSplits(Bracketed(a.host), FormatNat(p), Bracketed(b.host), FormatNat(q));
      BracketedInjective(a.host, b.host);
    }
  }

  /** How it is spelled, for a matcher that reads it: the host, in brackets if a colon is in it, and
      the port in decimal, 22 when none is given. */
  lemma AddressIsSpelled(r: Remote)
    ensures
      var port := if r.port > 0 then r.port else 22;
      HostKeyAddress(r) == (if ':' in r.host then "[" + r.host + "]" else r.host) + (":" + FormatNat(port))
  {}

  // ----- what a file trusts -----

  predicate Readable(m: Matcher, files: Files, path: string)
  {
    path in files && m.compiles(files[path])
  }

  /** A connection to addr that is offered key would be let through on this file. */
  predicate Trusts(m: Matcher, files: Files, path: string, addr: string, key: HostKey)
  {
    Readable(m, files, path) && m.check(files[path], addr, key).Verified?
  }

  datatype Pinned = Matched | Wants(keys: seq<HostKey>) | NoAnswer

  /** What the file pins for addr, and whether offered is among it. */
  function PinnedHostKeys(m: Matcher, files: Files, path: string, addr: string, offered: HostKey): Pinned
  {
    if !Readable(m, files, path) then NoAnswer
    else
      match m.check(files[path], addr, offered)
      case Verified => Matched
      case Mismatch(want) => Wants(want)
      case CheckFailed => NoAnswer
  }

  datatype Answer = Allowed | TrustUnreadable | KeyChange(addr: string, onRecord: seq<HostKey>)

  function RequireHostKeyChangeAcknowledgement(
    m: Matcher, files: Files, current: Remote, edited: Remote, acknowledged: bool, offered: HostKey): Answer
  {
    if acknowledged then Allowed
    else
      var there, here := HostKeyAddress(edited), HostKeyAddress(current);
      match PinnedHostKeys(m, files, current.knownHosts, there, offered)
      case NoAnswer => TrustUnreadable
      case Matched => Allowed
      case Wants(want) =>
        if |want| > 0 then KeyChange(there, want)
        else if here == there then Allowed
        else
          match PinnedHostKeys(m, files, current.knownHosts, here, offered)
          case NoAnswer => TrustUnreadable
          case Matched => Allowed
          case Wants(wantHere) =>
            if |wantHere| == 0 || edited.host != current.host then Allowed else KeyChange(here, wantHere)
  }

  /** The file says, of this address, that it pins nothing for it. */
  predicate NothingPinned(m: Matcher, files: Files, path: string, addr: string, offered: HostKey)
  {
    PinnedHostKeys(m, files, path, addr, offered) == Wants([])
  }

  /** Asking only about the address an edit moves to would let a change of port drop a pin unasked.
      So: let through unacknowledged exactly when the offered key was trusted there already, or
      nothing was pinned there and the same holds of the address the set has now, or the edit is
      to another host altogether and what is pinned here could at least be read. */
  lemma AllowedExactly(m: Matcher, files: Files, current: Remote, edited: Remote, offered: HostKey)
    ensures
      var path, there, here := current.knownHosts, HostKeyAddress(edited), HostKeyAddress(current);
      RequireHostKeyChangeAcknowledgement(m, files, current, edited, false, offered).Allowed? <==>
        || Trusts(m, files, path, there, offered)
        || (NothingPinned(m, files, path, there, offered)
            && (|| Trusts(m, files, path, here, offered)
                || NothingPinned(m, files, path, here, offered)
                || (edited.host != current.host && !PinnedHostKeys(m, files, path, here, offered).NoAnswer?)))
  {}

  /** What a refusal names: an address the set has or the edit gives it, the first of the two at which
      the file pins other keys, and those keys; the set's own only if the host stays and nothing is
      pinned at the other. And it is for want of an answer exactly when the file has none to the
      question as far as it is asked. */
  lemma RefusalNamesWhatIsPinned(m: Matcher, files: Files, current: Remote, edited: Remote, offered: HostKey)
    ensures
      var path, there, here := current.knownHosts, HostKeyAddress(edited), HostKeyAddress(current);
      var answer := RequireHostKeyChangeAcknowledgement(m, files, current, edited, false, offered);
      && (answer.KeyChange? ==>
            && answer.onRecord != [] && path in files && m.compiles(files[path])
            && m.check(files[path], answer.addr, offered) == Mismatch(answer.onRecord))
      && (answer.KeyChange? ==>
            || answer.addr == there
            || (answer.addr == here && edited.host == current.host && m.check(files[path], there, offered) == Mismatch([])))
      && (answer.TrustUnreadable? <==>
            || path !in files || !m.compiles(files[path]) || m.check(files[path], there, offered).CheckFailed?
            || (m.check(files[path], there, offered) == Mismatch([]) && here != there && m.check(files[path], here, offered).CheckFailed?))
    ensures RequireHostKeyChangeAcknowledgement(m, files, current, edited, true, offered).Allowed?
  {}

  // ----- what one line would take away -----

  datatype Loss = Rule(marker: string, hosts: seq<string>, key: HostKey) | Pin(key: HostKey)

  /** Entry by entry, in file order. */
  function Losses(m: Matcher, entries: seq<Entry>, files: Files, before: string, after: string, addr: string): seq<Loss>
  {
    if entries == [] then []
    else
      var e, rest := entries[|entries| - 1], Losses(m, entries[..|entries| - 1], files, before, after, addr);
      if e.marker != "" then rest + [Rule(e.marker, e.hosts, e.key)]
      else if Trusts(m, files, before, addr, e.key) && !Trusts(m, files, after, addr, e.key) then rest + [Pin(e.key)]
      else rest
  }

  /** Nothing the first file says of addr is gone from the second: no rule about who may vouch
      for a host, and no listed key that stops verifying. */
  predicate KeepsTrust(m: Matcher, entries: seq<Entry>, files: Files, before: string, after: string, addr: string)
  {
    forall i :: 0 <= i < |entries| ==>
      && entries[i].marker == ""
      && (Trusts(m, files, before, addr, entries[i].key) ==> Trusts(m, files, after, addr, entries[i].key))
  }

  lemma {:induction false} NoLossExactlyWhenTrustIsKept(m: Matcher, entries: seq<Entry>, files: Files, before: string, after: string, addr: string)
    ensures Losses(m, entries, files, before, after, addr) == [] <==> KeepsTrust(m, entries, files, before, after, addr)
  {
    if entries != [] {
      var front := entries[..|entries| - 1];
      NoLossExactlyWhenTrustIsKept(m, front, files, before, after, addr);
      assert forall i :: 0 <= i < |front| ==> front[i] == entries[i];
    }
  }

  /** What is on the list, and in what order: one item for every entry that is a marker rule or a key
      verified before and not after, saying that rule or that key, in the order of the file. */
  lemma {:induction false} LossesAreTheLostEntriesInOrder(m: Matcher, entries: seq<Entry>, files: Files, before: string, after: string, addr: string)
    returns (at: seq<int>)
    ensures |at| == |Losses(m, entries, files, before, after, addr)|
    ensures forall k :: 0 <= k < |at| ==> 0 <= at[k] < |entries|
    ensures forall j, k :: 0 <= j < k < |at| ==> at[j] < at[k]
    ensures forall k :: 0 <= k < |at| ==>
      var e, loss := entries[at[k]], Losses(m, entries, files, before, after, addr)[k];
      if e.marker != "" then loss == Rule(e.marker, e.hosts, e.key)
      else loss == Pin(e.key) && Trusts(m, files, before, addr, e.key) && !Trusts(m, files, after, addr, e.key)
    ensures forall i :: 0 <= i < |entries| && entries[i].marker != "" ==> i in at
    ensures forall i :: 0 <= i < |entries| && Trusts(m, files, before, addr, entries[i].key) && !Trusts(m, files, after, addr, entries[i].key) ==> i in at
  {
    if entries == [] {
      at := [];
    } else {
      var front, e := entries[..|entries| - 1], entries[|entries| - 1];
      var sofar := LossesAreTheLostEntriesInOrder(m, front, files, before, after, addr);
      assert forall i :: 0 <= i < |front| ==> front[i] == entries[i];
      var lost := e.marker != "" || (Trusts(m, files, before, addr, e.key) && !Trusts(m, files, after, addr, e.key));
      at := if lost then sofar + [|front|] else sofar;
      forall i | 0 <= i < |entries| && (|| entries[i].marker != ""
        || (Trusts(m, files, before, addr, entries[i].key) && !Trusts(m, files, after, addr, entries[i].key)))
        ensures i in at
      {
        if i < |front| { assert i in sofar; } else { assert at[|at| - 1] == i; }
      }
    }
  }

  method DroppedTrust(m: Matcher, files: Files, before: string, after: string, addr: string) returns (dropped: Option<seq<Loss>>)
    ensures dropped.None? <==> !(Readable(m, files, before) && m.list(files[before]).Some? && Readable(m, files, after))
    ensures dropped.Some? ==>
      dropped.value == Losses(m, m.list(files[before]).value, files, before, after, addr)
  {
    if before !in files || m.list(files[before]).None? {
      return None;
    }
    var entries := m.list(files[before]).value;
    if !m.compiles(files[before]) {
      return None;
    }
    if after !in files || !m.compiles(files[after]) {
      return None;
    }
    var out: seq<Loss> := [];
    for i := 0 to |entries|
      invariant out == Losses(m, entries[..i], files, before, after, addr)
    {
      assert entries[..i + 1][..i] == entries[..i];
      var e := entries[i];
      if e.marker != "" {
        out := out + [Rule(e.marker, e.hosts, e.key)];
        continue;
      }
      if !m.check(files[before], addr, e.key).Verified? {
        continue;
      }
      if m.check(files[after], addr, e.key).Verified? {
        continue;
      }
      out := out + [Pin(e.key)];
    }
    assert entries[..|entries|] == entries;
    return Some(out);
  }

  /** The plain keys a file verifies addr with, in file order. */
  function Shown(m: Matcher, entries: seq<Entry>, text: string, addr: string): seq<HostKey>
  {
    if entries == [] then []
    else
      var e, rest := entries[|entries| - 1], Shown(m, entries[..|entries| - 1], text, addr);
      if e.marker == "" && m.check(text, addr, e.key).Verified? then rest + [e.key] else rest
  }

  lemma {:induction false} ShownExactlyTheListedTrust(m: Matcher, entries: seq<Entry>, text: string, addr: string, key: HostKey)
    ensures key in Shown(m, entries, text, addr) <==>
      m.check(text, addr, key).Verified? && exists i :: 0 <= i < |entries| && entries[i].marker == "" && entries[i].key == key
  {
    if entries != [] {
      var front := entries[..|entries| - 1];
      ShownExactlyTheListedTrust(m, front, text, addr, key);
      if i :| 0 <= i < |entries| && entries[i].marker == "" && entries[i].key == key && i < |front| {
        assert front[i] == entries[i];
      }
    }
  }

  /** In the order of the file, one for every plain entry that verifies. */
  lemma {:induction false} ShownInFileOrder(m: Matcher, entries: seq<Entry>, text: string, addr: string) returns (at: seq<int>)
    ensures |at| == |Shown(m, entries, text, addr)|
    ensures forall k :: 0 <= k < |at| ==> 0 <= at[k] < |entries|
    ensures forall j, k :: 0 <= j < k < |at| ==> at[j] < at[k]
    ensures forall k :: 0 <= k < |at| ==>
      && entries[at[k]].marker == "" && m.check(text, addr, entries[at[k]].key).Verified?
      && Shown(m, entries, text, addr)[k] == entries[at[k]].key
    ensures forall i :: 0 <= i < |entries| && entries[i].marker == "" && m.check(text, addr, entries[i].key).Verified? ==> i in at
  {
    if entries == [] {
      at := [];
    } else {
      var front, e := entries[..|entries| - 1], entries[|entries| - 1];
      var sofar := ShownInFileOrder(m, front, text, addr);
      assert forall i :: 0 <= i < |front| ==> front[i] == entries[i];
      at := if e.marker == "" && m.check(text, addr, e.key).Verified? then sofar + [|front|] else sofar;
      forall i | 0 <= i < |entries| && entries[i].marker == "" && m.check(text, addr, entries[i].key).Verified? ensures i in at {
        if i < |front| { assert i in sofar; } else { assert at[|at| - 1] == i; }
      }
    }
  }

  method KeysTrustedFor(m: Matcher, files: Files, path: string, addr: string) returns (keys: Option<seq<HostKey>>)
    ensures keys.None? <==> !(Readable(m, files, path) && m.list(files[path]).Some?)
    ensures keys.Some? ==> keys.value == Shown(m, m.list(files[path]).value, files[path], addr)
  {
    if path !in files || m.list(files[path]).None? || !m.compiles(files[path]) {
      return None;
    }
    var entries := m.list(files[path]).value;
    var out: seq<HostKey> := [];
    for i := 0 to |entries|
      invariant out == Shown(m, entries[..i], files[path], addr)
    {
      assert entries[..i + 1][..i] == entries[..i];
      if entries[i].marker != "" {
        continue;
      }
      if m.check(files[path], addr, entries[i].key).Verified? {
        out := out + [entries[i].key];
      }
    }
    assert entries[..|entries|] == entries;
    return Some(out);
  }

  // ----- the canonical file -----

  /** What a create calls the file it writes a set's trusted line to. */
  function CanonicalPath(id: SetId): string
  {
    KnownHostsName.FileName(id.source, id.name)
  }

  /** The set a create writes reads the file it has just written. */
  function Anchored(bs: BackupSet, id: SetId): BackupSet
  {
    bs.(remote := bs.remote.(knownHosts := CanonicalPath(id)))
  }

  /** How writing it in place went: the file never opened; opened and truncated, and then not all of
      it written, or not synced or closed; or written and synced. */
  datatype TrustWrite = Untouched | Torn(landed: nat) | Whole

  function CreatedText(line: string): string
  {
    line + "\n"
  }

  /** What the file holds afterwards, if it was opened at all. */
  function LineLeft(line: string, w: TrustWrite): Option<string>
  {
    var text := CreatedText(line);
    match w
    case Untouched => None
    case Torn(n) => Some(text[..if n < |text| then n else |text|])
    case Whole => Some(text)
  }

  /** The line and a newline, or a beginning of that, no longer than what landed. */
  lemma WhatATrustWriteLeaves(line: string, w: TrustWrite)
    ensures LineLeft(line, w).None? <==> w.Untouched?
    ensures w.Whole? ==> LineLeft(line, w) == Some(line + "\n")
    ensures w.Torn? ==>
      var left := LineLeft(line, w).value;
      left <= line + "\n" && |left| == if w.landed < |line| + 1 then w.landed else |line| + 1
  {}

  function FilesLeft(files: Files, path: string, line: string, w: TrustWrite): Files
  {
    match LineLeft(line, w)
    case None => files
    case Some(text) => files[path := text]
  }

  function Contents(files: Files, path: string): Option<string>
  {
    if path in files then Some(files[path]) else None
  }

  /** The file a create writes is the one a set under other reads from its own create exactly when
      the two ids differ at most in how one run of underscores is split at the boundary; and what
      is read there changes exactly when, on top of that, other bytes land. */
  lemma AnchorRewrittenExactly(files: Files, id: SetId, line: string, w: TrustWrite, other: SetId)
    ensures CanonicalPath(id) == CanonicalPath(other) <==> KnownHostsName.BoundaryShift(id.source, id.name, other.source, other.name)
    ensures
      var path := CanonicalPath(other);
      Contents(FilesLeft(files, CanonicalPath(id), line, w), path) != Contents(files, path) <==>
        && KnownHostsName.BoundaryShift(id.source, id.name, other.source, other.name)
        && !w.Untouched? && LineLeft(line, w) != Contents(files, path)
  {
    KnownHostsName.NamesCollideExactlyOnABoundaryShift(id.source, id.name, other.source, other.name);
  }

  /** known_hosts.d. */
  class Directory {
    var files: Files

    constructor (files: Files)
      ensures this.files == files
    {
      this.files := files;
    }

    /** The canonical name is truncated and written in place, whatever is there; the path is handed
        out only once the line is on disk for good. */
    method WriteKnownHosts(id: SetId, line: string, w: TrustWrite) returns (path: Option<string>)
      modifies this
      ensures files == FilesLeft(old(files), CanonicalPath(id), line, w)
      ensures path == if w.Whole? then Some(CanonicalPath(id)) else None
    {
      var at := CanonicalPath(id);
      if w.Untouched? {
        return None;
      }
      files := files[at := ""];
      var text := line + "\n";
      if w.Torn? {
        files := files[at := text[..if w.landed < |text| then w.landed else |text|]];
        return None;
      }
      files := files[at := text];
      return Some(at);
    }
  }

  // ----- the staged file -----

  /** A trusted line already written under a name nothing else uses. */
  class StagedKnownHosts {
    const path: string
    const dir: Directory
    var kept: bool

    constructor (dir: Directory, path: string)
      ensures this.dir == dir && this.path == path && !kept
    {
      this.dir, this.path, kept := dir, path, false;
    }

    method Commit()
      modifies this
      ensures kept
    {
      kept := true;
    }

    /** Safe after Commit, and safe twice. Whether the remove worked is not looked at. */
    method Discard(works: bool)
      modifies dir
      ensures dir.files == if kept || !works then old(dir.files) else old(dir.files) - {path}
    {
      if kept {
        return;
      }
      if works {
        dir.files := dir.files - {path};
      }
    }
  }

  /** Which of the steps succeed, how much of the line a failed write left behind, and whether taking
      the file back works. */
  datatype Staging = Staging(
    mkdir: bool, create: bool, write: bool, partial: string, sync: bool, close: bool, chmod: bool, fsyncDir: bool, unstage: bool)

  function TrimNewlines(line: string): string
  {
    if line != "" && line[|line| - 1] == '\n' then TrimNewlines(line[..|line| - 1]) else line
  }

  function StagedText(line: string): string
  {
    TrimNewlines(line) + "\n"
  }

  /** The line without the newlines at its end, and then one. */
  lemma {:induction false} StagedTextIsOneLine(line: string)
    ensures
      var body := TrimNewlines(line);
      && StagedText(line) == body + "\n" && body <= line
      && (body != "" ==> body[|body| - 1] != '\n')
      && forall i :: |body| <= i < |line| ==> line[i] == '\n'
  {
    if line != "" && line[|line| - 1] == '\n' { StagedTextIsOneLine(line[..|line| - 1]); }
  }

  function AllSteps(s: Staging): bool
  {
    s.mkdir && s.create && s.write && s.sync && s.close && s.chmod && s.fsyncDir
  }

  predicate VerifiesAddress(m: Matcher, text: string, addr: string, offered: HostKey)
  {
    m.compiles(text) && m.check(text, addr, offered).Verified?
  }

  /** Writes the line under a fresh name and makes sure that file, as written, verifies addr with
      the key offered. Whatever fails on the way, no other file is touched, and the new one is gone
      again if it can be removed. */
  method StageKnownHostsLine(m: Matcher, dir: Directory, name: string, line: string, addr: string, offered: HostKey, steps: Staging)
    returns (staged: StagedKnownHosts?)
    requires name !in dir.files
    modifies dir
    ensures staged == null ==> dir.files - {name} == old(dir.files) && (steps.unstage ==> dir.files == old(dir.files))
    ensures staged != null ==>
      && fresh(staged) && !staged.kept && staged.dir == dir && staged.path == name
      && dir.files == old(dir.files)[name := StagedText(line)]
    ensures staged != null <==>
      && AllSteps(steps) && m.compiles(StagedText(line)) && m.check(StagedText(line), addr, offered).Verified?
    ensures staged != null ==>
      steps.mkdir && steps.create && steps.write && steps.sync && steps.close && steps.chmod && steps.fsyncDir
  {
    assert dir.files - {name} == dir.files;
    if !steps.mkdir || !steps.create {
      return null;
    }
    ghost var was := dir.files;
    dir.files := dir.files[name := ""];
    var s := new StagedKnownHosts(dir, name);
    var text := StagedText(line);
    dir.files := dir.files[name := if steps.write then text else steps.partial];
    assert dir.files - {name} == was;
    if !steps.write || !steps.sync || !steps.close || !steps.chmod {
      s.Discard(steps.unstage);
      return null;
    }
    if !VerifiesAddress(m, dir.files[name], addr, offered) {
      s.Discard(steps.unstage);
      return null;
    }
    if !steps.fsyncDir {
      s.Discard(steps.unstage);
      return null;
    }
    return s;
  }

  /** The field rule for a trusted line: something, one entry, and no marker. */
  function LineRule(m: Matcher): string -> bool
  {
    (line: string) => KnownHostsName.TrimSpace(line) != "" && m.one(line).Some? && m.one(line).value.marker == ""
  }

  lemma LineIsUsableExactly(m: Matcher, line: string)
    ensures LineRule(m)(line) <==>
      && (exists i :: 0 <= i < |line| && !KnownHostsName.IsSpace(line[i]))
      && m.one(line).Some? && m.one(line).value.marker == ""
  {
    KnownHostsName.TrimSpaceLeavesWhatIsNotSpace(line);
  }

  datatype Refusal = NoRefusal | UnparsableLine | HostKeyChange | StagingFailed | TrustDropped

  /** Everything the file at before says of addr, the one at after still does. */
  predicate TrustKept(m: Matcher, files: Files, before: string, after: string, addr: string)
  {
    && Readable(m, files, before) && m.list(files[before]).Some?
    && KeepsTrust(m, m.list(files[before]).value, files, before, after, addr)
  }

  /** What an edit of the trusted line has to satisfy, all of it, judged on the files as they would
      be with the line staged under path. */
  predicate MayChangeTrust(m: Matcher, files: Files, path: string, current: Remote, edited: Remote, line: string, acknowledged: bool)
  {
    && m.one(line).Some?
    && var key, addr, after := m.one(line).value.key, HostKeyAddress(edited), files[path := StagedText(line)];
    && RequireHostKeyChangeAcknowledgement(m, files, current, edited, acknowledged, key).Allowed?
    && Trusts(m, after, path, addr, key)
    && (acknowledged || TrustKept(m, after, current.knownHosts, path, addr))
  }

  /** The trust half of an edit. A refusal leaves the directory exactly as it was, but for a staged
      file that could not be removed. */
  method PrepareTrustChange(m: Matcher, dir: Directory, name: string, current: Remote, edited: Remote,
                            line: string, acknowledged: bool, steps: Staging)
    returns (staged: StagedKnownHosts?, refusal: Refusal)
    requires name !in dir.files
    modifies dir
    ensures staged == null <==> !refusal.NoRefusal?
    ensures refusal.UnparsableLine? <==> m.one(line).None?
    ensures refusal.HostKeyChange? <==>
      && m.one(line).Some?
      && !RequireHostKeyChangeAcknowledgement(m, old(dir.files), current, edited, acknowledged, m.one(line).value.key).Allowed?
    ensures refusal.StagingFailed? <==>
      && m.one(line).Some?
      && RequireHostKeyChangeAcknowledgement(m, old(dir.files), current, edited, acknowledged, m.one(line).value.key).Allowed?
      && !(AllSteps(steps) && VerifiesAddress(m, StagedText(line), HostKeyAddress(edited), m.one(line).value.key))
    ensures staged == null ==> dir.files - {name} == old(dir.files) && (steps.unstage ==> dir.files == old(dir.files))
    ensures staged != null ==>
      && fresh(staged) && !staged.kept && staged.dir == dir && staged.path == name
      && dir.files == old(dir.files)[name := StagedText(line)]
    ensures staged != null <==> AllSteps(steps) && MayChangeTrust(m, old(dir.files), name, current, edited, line, acknowledged)
  {
    assert dir.files - {name} == dir.files;
    var parsed := m.one(line);
    if parsed.None? {
      return null, UnparsableLine;
    }
    var offered := parsed.value.key;
    var answer := RequireHostKeyChangeAcknowledgement(m, dir.files, current, edited, acknowledged, offered);
    if !answer.Allowed? {
      return null, HostKeyChange;
    }
    var addr := HostKeyAddress(edited);
    ghost var was := dir.files;
    staged := StageKnownHostsLine(m, dir, name, line, addr, offered, steps);
    if staged == null {
      return null, StagingFailed;
    }
    if !acknowledged {
      var dropped := DroppedTrust(m, dir.files, current.knownHosts, staged.path, addr);
      if current.knownHosts in dir.files && m.list(dir.files[current.knownHosts]).Some? {
        NoLossExactlyWhenTrustIsKept(m, m.list(dir.files[current.knownHosts]).value, dir.files, current.knownHosts, name, addr);
      }
      if dropped.None? || |dropped.value| > 0 {
        staged.Discard(steps.unstage);
        assert dir.files - {name} == was;
        return null, TrustDropped;
      }
    }
    return staged, NoRefusal;
  }

  // ----- what an edit nobody acknowledged can do -----

  /** Accepted without an acknowledgement, exactly: the line verifies the address the set ends up
      at; nothing listed and trusted there stops being, and no rule about who may vouch was in the
      way; and the key offered was already trusted there, or nothing was pinned there and it was
      trusted, or nothing pinned, at the address the set has now, or the host is another one. */
  lemma AcceptedUnacknowledgedExactly(m: Matcher, files: Files, path: string, current: Remote, edited: Remote, line: string)
    requires path !in files && m.one(line).Some?
    ensures
      var key, now, text := m.one(line).value.key, current.knownHosts, StagedText(line);
      var there, here := HostKeyAddress(edited), HostKeyAddress(current);
      MayChangeTrust(m, files, path, current, edited, line, false) <==>
        && VerifiesAddress(m, text, there, key)
        && Readable(m, files, now) && m.list(files[now]).Some?
        && (forall i :: 0 <= i < |m.list(files[now]).value| ==>
              var e := m.list(files[now]).value[i];
              e.marker == "" && (Trusts(m, files, now, there, e.key) ==> VerifiesAddress(m, text, there, e.key)))
        && (|| Trusts(m, files, now, there, key)
            || (NothingPinned(m, files, now, there, key)
                && (|| Trusts(m, files, now, here, key)
                    || NothingPinned(m, files, now, here, key)
                    || (edited.host != current.host && !PinnedHostKeys(m, files, now, here, key).NoAnswer?))))
  {}

  lemma StagedOnlyIfEveryStepWorked(s: Staging)
    ensures AllSteps(s) <==> s.mkdir && s.create && s.write && s.sync && s.close && s.chmod && s.fsyncDir
  {}

  /** With the acknowledgement nothing is asked about what was trusted, only that the line is one entry
      and, as written, verifies where the set ends up. */
  lemma AcceptedAcknowledgedExactly(m: Matcher, files: Files, path: string, current: Remote, edited: Remote, line: string)
    ensures MayChangeTrust(m, files, path, current, edited, line, true) <==>
      && m.one(line).Some? && m.compiles(StagedText(line))
      && m.check(StagedText(line), HostKeyAddress(edited), m.one(line).value.key).Verified?
  {}

  predicate NoRules(entries: seq<Entry>)
  {
    forall i :: 0 <= i < |entries| ==> entries[i].marker == ""
  }

  predicate Lists(entries: seq<Entry>, key: HostKey)
  {
    exists i :: 0 <= i < |entries| && entries[i].key == key
  }

  /** What a sane matcher does: a file of one plain line verifies no key but that line's; a file
      with no rules in it verifies only keys it lists; and a file that pins nothing for an address
      verifies no key there. */
  ghost predicate Sane(m: Matcher)
  {
    && (forall line, addr, key ::
          m.one(line).Some? && m.one(line).value.marker == "" && m.check(StagedText(line), addr, key).Verified?
          ==> key == m.one(line).value.key)
    && (forall text, addr, key ::
          m.check(text, addr, key).Verified? && m.list(text).Some? && NoRules(m.list(text).value)
          ==> Lists(m.list(text).value, key))
    && (forall text, addr, key, other :: m.check(text, addr, key) == Mismatch([]) ==> !m.check(text, addr, other).Verified?)
  }

  /** For every key there is. After an accepted, unacknowledged edit the set trusts one key at its
      address, the one offered; before it, at that address, it trusted that key or none. And as
      long as the host is the same, a set that trusted anything at the address it had already
      trusted the key it ends up with, there or here: no key is ever replaced unasked. */
  lemma NoKeyIsReplacedUnasked(m: Matcher, files: Files, path: string, current: Remote, edited: Remote, line: string, key: HostKey)
    requires Sane(m) && path !in files && m.one(line).Some? && m.one(line).value.marker == ""
    requires MayChangeTrust(m, files, path, current, edited, line, false)
    ensures
      var offered, now, after := m.one(line).value.key, current.knownHosts, files[path := StagedText(line)];
      var there, here := HostKeyAddress(edited), HostKeyAddress(current);
      && (Trusts(m, after, path, there, key) <==> key == offered)
      && (Trusts(m, files, now, there, key) ==> key == offered)
      && (edited.host == current.host && Trusts(m, files, now, here, key) ==>
            Trusts(m, files, now, here, offered) || Trusts(m, files, now, there, offered))
  {}

  /** What a create asks nobody about. With a sane matcher the file it leaves trusts one key at most,
      its line's; so every other key is gone of every set that reads that file. */
  lemma CreateReplacesEveryOtherKey(m: Matcher, files: Files, path: string, line: string, addr: string, key: HostKey)
    requires Sane(m) && m.one(line).Some? && m.one(line).value.marker == "" && TrimNewlines(line) == line
    ensures
      Trusts(m, FilesLeft(files, path, line, Whole), path, addr, key) <==>
        key == m.one(line).value.key && VerifiesAddress(m, CreatedText(line), addr, key)
  {
    assert CreatedText(line) == StagedText(line);
  }

  function KeyIn(text: string): HostKey
  {
    HostKey("ssh-ed25519", TrimNewlines(text))
  }

  /** A matcher that reads one key out of a file, whatever the address. */
  function OneKeyAFile(): Matcher
  {
    Matcher(
      line => Some(Entry("", [], KeyIn(line))),
      text => Some([Entry("", [], KeyIn(text))]),
      text => true,
      (text, addr, k) => if k == KeyIn(text) then Verified else Mismatch([KeyIn(text)]))
  }

  lemma {:induction false} TrimmedOnce(line: string)
    ensures TrimNewlines(TrimNewlines(line)) == TrimNewlines(line)
  {
    if line != "" && line[|line| - 1] == '\n' { TrimmedOnce(line[..|line| - 1]); }
  }

  lemma {:induction false} StagedHoldsTheKey(line: string)
    ensures KeyIn(StagedText(line)) == KeyIn(line)
  {
    var trimmed := TrimNewlines(line);
    assert StagedText(line)[..|StagedText(line)| - 1] == trimmed;
    TrimmedOnce(line);
  }

  /** None of this is said of nothing: there is a sane matcher. */
  lemma SaneMatcherExists()
    ensures Sane(OneKeyAFile())
  {
    var m := OneKeyAFile();
    forall line: string ensures KeyIn(StagedText(line)) == KeyIn(line) { StagedHoldsTheKey(line); }
    forall text: string ensures Lists(m.list(text).value, KeyIn(text)) {
      assert m.list(text).value[0].key == KeyIn(text);
    }
  }

  /** And under it the key a set already trusts goes through unacknowledged, any other does not. */
  lemma SaneMatcherDecides(files: Files, current: Remote, edited: Remote, line: string, path: string)
    requires path !in files && current.knownHosts in files && edited.host == current.host
    ensures MayChangeTrust(OneKeyAFile(), files, path, current, edited, line, false) <==> KeyIn(line) == KeyIn(files[current.knownHosts])
  {
    var m, held := OneKeyAFile(), files[current.knownHosts];
    StagedHoldsTheKey(line);
    AcceptedUnacknowledgedExactly(m, files, path, current, edited, line);
    assert m.list(held).value == [Entry("", [], KeyIn(held))];
  }

  /** On one host, whatever the edit does to the port: it goes through unasked exactly when the key
      was trusted at the port it ends at, or nothing was pinned there and the key was trusted, or
      nothing pinned, at the port it leaves. Spelling out the default is no change at all. */
  lemma PortChangeStillAsks(m: Matcher, files: Files, current: Remote, edited: Remote, offered: HostKey)
    requires edited.host == current.host
    ensures
      var path, there, here := current.knownHosts, HostKeyAddress(edited), HostKeyAddress(current);
      var allowed := RequireHostKeyChangeAcknowledgement(m, files, current, edited, false, offered).Allowed?;
      && (allowed <==>
            || Trusts(m, files, path, there, offered)
            || (NothingPinned(m, files, path, there, offered)
                && (Trusts(m, files, path, here, offered) || NothingPinned(m, files, path, here, offered))))
      && (EffectivePort(edited.port) == EffectivePort(current.port) ==>
            (allowed <==> Trusts(m, files, path, here, offered) || NothingPinned(m, files, path, here, offered)))
  {
    AddressIsHostAndPort(current, edited);
  }
}
