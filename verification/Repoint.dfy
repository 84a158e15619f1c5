/** The one refusal on the create and update paths: moving a backup set that has history to
    other data, without saying so. */
module Repoint {
  import opened Wrappers
  import opened Config
  import opened UpdateSet

  /** One journal row. The journal holds the name and, once it landed, the local path. origin is
      where the bytes really came from, which no journal records and no decision below reads. */
  datatype Record = Record(name: string, localPath: string, origin: Address)

  datatype Journal =
    | NoJournal
    | Journal(records: map<SetId, seq<Record>>, addresses: map<SetId, Address>)

  function History(j: Journal, id: SetId): seq<Record>
  {
    if j.Journal? && id in j.records then j.records[id] else []
  }

  /** An id's last address, replacing whatever was recorded for it before. */
  function Recorded(j: Journal, id: SetId, at: Address): Journal
    requires j.Journal?
  {
    j.(addresses := j.addresses[id := at])
  }

  datatype Field = HostField | RemotePathField | LocalPathField

  /** from is a list because history may lie under several local roots. */
  datatype Move = Move(field: Field, from: seq<string>, to: string)

  function Moved(field: Field, from: string, to: string): seq<Move>
  {
    if from == to then [] else [Move(field, [from], to)]
  }

  /** The fields an edit names and changes. */
  function RepointedFields(current: BackupSet, r: Request): seq<Move>
  {
    (if r.host.Some? then Moved(HostField, current.remote.host, r.host.value) else [])
    + ((if r.remotePath.Some? then Moved(RemotePathField, current.remotePath, r.remotePath.value) else [])
    + (if r.localPath.Some? then Moved(LocalPathField, current.localPath, r.localPath.value) else []))
  }

  /** The fields a create puts elsewhere than where the id was recorded. */
  function CreateRepointedFields(recorded: Address, to: Address): seq<Move>
  {
    Moved(HostField, recorded.host, to.host)
    + (Moved(RemotePathField, recorded.remotePath, to.remotePath)
    + Moved(LocalPathField, recorded.localPath, to.localPath))
  }

  /** The two paths ask one question: an edit moves exactly what creating its result over the
      set's present address would, and nothing is listed exactly when the address stays. */
  lemma TheTwoPathsAskTheSameQuestion(current: BackupSet, r: Request)
    ensures RepointedFields(current, r) == CreateRepointedFields(AddressOf(current), AddressOf(Apply(current, r)))
    ensures RepointedFields(current, r) == [] <==> AddressOf(Apply(current, r)) == AddressOf(current)
  {}

  /** What is said of a move: each field that differs, once, from what was recorded to what is asked
      for, host before remote path before local path. */
  lemma MovesNameEveryDifference(recorded: Address, to: Address)
    ensures
      var moves := CreateRepointedFields(recorded, to);
      && (Move(HostField, [recorded.host], to.host) in moves <==> recorded.host != to.host)
      && (Move(RemotePathField, [recorded.remotePath], to.remotePath) in moves <==> recorded.remotePath != to.remotePath)
      && (Move(LocalPathField, [recorded.localPath], to.localPath) in moves <==> recorded.localPath != to.localPath)
      && (forall i :: 0 <= i < |moves| ==>
            moves[i] in {Move(HostField, [recorded.host], to.host), Move(RemotePathField, [recorded.remotePath], to.remotePath),
                         Move(LocalPathField, [recorded.localPath], to.localPath)})
      && (forall i, j :: 0 <= i < j < |moves| ==>
            || (moves[i].field.HostField? && !moves[j].field.HostField?)
            || (moves[i].field.RemotePathField? && moves[j].field.LocalPathField?))
  {}

  lemma NothingMovesExactlyWhenTheAddressStays(recorded: Address, to: Address)
    ensures CreateRepointedFields(recorded, to) == [] <==> recorded == to
  {}

  // ----- sort.Strings -----

  /** Byte order. */
  predicate Before(a: string, b: string)
  {
    a == "" || (b != "" && (a[0] < b[0] || (a[0] == b[0] && Before(a[1..], b[1..]))))
  }

  /** That is: a is b or a beginning of it, or has the smaller byte where the two first differ. */
  lemma {:induction false} BeforeIsAscending(a: string, b: string)
    ensures Before(a, b) <==> a <= b || exists k :: 0 <= k < |a| && k < |b| && a[..k] == b[..k] && a[k] < b[k]
  {
    if a != "" && b != "" {
      if a[0] == b[0] {
        BeforeIsAscending(a[1..], b[1..]);
        assert a[1..] <= b[1..] <==> a <= b;
        if k :| 0 <= k < |a[1..]| && k < |b[1..]| && a[1..][..k] == b[1..][..k] && a[1..][k] < b[1..][k] {
          assert a[..k + 1] == [a[0]] + a[1..][..k] && b[..k + 1] == [b[0]] + b[1..][..k] && a[k + 1] < b[k + 1];
        }
        if k :| 0 <= k < |a| && k < |b| && a[..k] == b[..k] && a[k] < b[k] {
          assert k > 0 && a[1..][..k - 1] == a[..k][1..] == b[..k][1..] == b[1..][..k - 1] && a[1..][k - 1] < b[1..][k - 1];
        }
      } else if a[0] < b[0] {
        assert a[..0] == b[..0] && a[0] < b[0];
      } else {
        assert forall k :: 0 < k < |a| && k < |b| ==> a[..k][0] != b[..k][0];
      }
    }
  }

  lemma {:induction false} BeforeIsTotal(a: string, b: string)
    ensures Before(a, b) || Before(b, a)
  {
    if a != "" && b != "" && a[0] == b[0] { BeforeIsTotal(a[1..], b[1..]); }
  }

  predicate IsSorted(s: seq<string>)
  {
    forall i :: 0 < i < |s| ==> Before(s[i - 1], s[i])
  }

  function Inserted(s: seq<string>, x: string): (r: seq<string>)
    ensures multiset(r) == multiset(s) + multiset{x}
  {
    if s == [] || Before(s[|s| - 1], x) then s + [x]
    else
      assert s == s[..|s| - 1] + [s[|s| - 1]];
      Inserted(s[..|s| - 1], x) + [s[|s| - 1]]
  }

  function Sorted(s: seq<string>): (r: seq<string>)
    ensures multiset(r) == multiset(s)
  {
    if s == [] then []
    else
      assert s == s[..|s| - 1] + [s[|s| - 1]];
      Inserted(Sorted(s[..|s| - 1]), s[|s| - 1])
  }

  lemma {:induction false} InsertedIsSorted(s: seq<string>, x: string)
    requires IsSorted(s)
    ensures IsSorted(Inserted(s, x))
    ensures |Inserted(s, x)| > 0 && (Inserted(s, x)[|Inserted(s, x)| - 1] == x || (s != [] && Inserted(s, x)[|Inserted(s, x)| - 1] == s[|s| - 1]))
  {
    if s != [] && !Before(s[|s| - 1], x) {
      var front, last := s[..|s| - 1], s[|s| - 1];
      InsertedIsSorted(front, x);
      BeforeIsTotal(x, last);
      var inner := Inserted(front, x);
      if front != [] { assert Before(s[|s| - 2], s[|s| - 1]); }
      assert Before(inner[|inner| - 1], last);
    }
  }

  lemma {:induction false} SortedIsSorted(s: seq<string>)
    ensures IsSorted(Sorted(s))
  {
    if s != [] {
      SortedIsSorted(s[..|s| - 1]);
      InsertedIsSorted(Sorted(s[..|s| - 1]), s[|s| - 1]);
    }
  }

  // ----- the fallback, for an id whose last address nobody recorded -----

  predicate Landed(rec: Record)
  {
    rec.localPath != ""
  }

  /** Something landed, and none of it where the request would look. */
  predicate Strands(records: seq<Record>, localPath: string, dir: string -> string, clean: string -> string)
  {
    && (exists i :: 0 <= i < |records| && Landed(records[i]))
    && (forall i :: 0 <= i < |records| && Landed(records[i]) ==> dir(records[i].localPath) != clean(localPath))
  }

  predicate LiesIn(records: seq<Record>, dir: string -> string, root: string)
  {
    exists i :: 0 <= i < |records| && Landed(records[i]) && dir(records[i].localPath) == root
  }

  /** The distinct directories history lies in. */
  ghost predicate AreRootsOf(roots: seq<string>, records: seq<Record>, dir: string -> string)
  {
    && (forall i, j :: 0 <= i < j < |roots| ==> roots[i] != roots[j])
    && (forall i :: 0 <= i < |records| && Landed(records[i]) ==> dir(records[i].localPath) in roots)
    && (forall k :: 0 <= k < |roots| ==> LiesIn(records, dir, roots[k]))
  }

  lemma RootsAreTheDirectories(roots: seq<string>, records: seq<Record>, dir: string -> string)
    requires AreRootsOf(roots, records, dir)
    ensures forall root :: root in roots <==>
      exists i :: 0 <= i < |records| && records[i].localPath != "" && dir(records[i].localPath) == root
  {
    forall root | root in roots ensures exists i :: 0 <= i < |records| && records[i].localPath != "" && dir(records[i].localPath) == root {
      var k :| 0 <= k < |roots| && roots[k] == root;
      assert LiesIn(records, dir, roots[k]);
      var i :| 0 <= i < |records| && Landed(records[i]) && dir(records[i].localPath) == root;
    }
  }

  lemma RootsOfMore(roots: seq<string>, records: seq<Record>, rec: Record, dir: string -> string)
    requires AreRootsOf(roots, records, dir)
    ensures !Landed(rec) || dir(rec.localPath) in roots ==> AreRootsOf(roots, records + [rec], dir)
    ensures Landed(rec) && dir(rec.localPath) !in roots ==> AreRootsOf(roots + [dir(rec.localPath)], records + [rec], dir)
  {
    var more := records + [rec];
    assert more[|records|] == rec;
    assert forall i :: 0 <= i < |records| ==> more[i] == records[i];
    forall k | 0 <= k < |roots| ensures LiesIn(more, dir, roots[k]) {
      assert LiesIn(records, dir, roots[k]);
      var i :| 0 <= i < |records| && Landed(records[i]) && dir(records[i].localPath) == roots[k];
      assert more[i] == records[i];
    }
  }

  lemma TwiceIsTwo(s: seq<string>, i: nat, j: nat)
    requires i < j < |s| && s[i] == s[j]
    ensures multiset(s)[s[i]] >= 2
  {
    assert s == s[..i] + [s[i]] + s[i + 1..j] + [s[j]] + s[j + 1..];
  }

  lemma {:induction false} OnceIsOne(s: seq<string>, x: string)
    requires forall i, j :: 0 <= i < j < |s| ==> s[i] != s[j]
    ensures multiset(s)[x] <= 1
  {
    if s != [] {
      assert s == [s[0]] + s[1..];
      assert forall i :: 0 <= i < |s[1..]| ==> s[1..][i] == s[i + 1];
      OnceIsOne(s[1..], x);
      if x == s[0] { assert x !in s[1..]; assert multiset(s[1..])[x] == 0; }
    }
  }

  lemma SameElements(s: seq<string>, r: seq<string>)
    requires multiset(r) == multiset(s)
    requires forall i, j :: 0 <= i < j < |s| ==> s[i] != s[j]
    ensures forall x :: x in r <==> x in s
    ensures forall i, j :: 0 <= i < j < |r| ==> r[i] != r[j]
  {
    forall x ensures x in r <==> x in s {
      assert x in multiset(r) <==> x in multiset(s);
    }
    forall i, j | 0 <= i < j < |r| ensures r[i] != r[j] {
      if r[i] == r[j] {
        TwiceIsTwo(r, i, j);
        OnceIsOne(s, r[i]);
      }
    }
  }

  /** Which directories they are does not depend on the order they are listed in. */
  lemma Reordered(roots: seq<string>, r: seq<string>, records: seq<Record>, dir: string -> string)
    requires AreRootsOf(roots, records, dir) && multiset(r) == multiset(roots)
    ensures AreRootsOf(r, records, dir) && (r == [] <==> roots == [])
  {
    SameElements(roots, r);
    forall k | 0 <= k < |r| ensures LiesIn(records, dir, r[k]) {
      assert r[k] in roots;
      var i :| 0 <= i < |roots| && roots[i] == r[k];
    }
  }

  method StrandedLocalPath(records: seq<Record>, localPath: string, dir: string -> string, clean: string -> string)
    returns (moves: seq<Move>)
    ensures moves == [] <==> !Strands(records, localPath, dir, clean)
    ensures moves == [] <==>
      || (forall i :: 0 <= i < |records| ==> records[i].localPath == "")
      || (exists i :: 0 <= i < |records| && records[i].localPath != "" && dir(records[i].localPath) == clean(localPath))
    ensures moves != [] ==> forall root :: root in moves[0].from <==>
      exists i :: 0 <= i < |records| && records[i].localPath != "" && dir(records[i].localPath) == root
    ensures moves != [] ==>
      && |moves| == 1 && moves[0].field == LocalPathField && moves[0].to == localPath
      && AreRootsOf(moves[0].from, records, dir) && IsSorted(moves[0].from)
  {
    var requested := clean(localPath);
    var roots: seq<string> := [];
    var seen: set<string> := {};
    for n := 0 to |records|
      invariant forall i :: 0 <= i < n && Landed(records[i]) ==> dir(records[i].localPath) != requested
      invariant forall root :: root in seen <==> root in roots
      invariant AreRootsOf(roots, records[..n], dir)
    {
      ghost var before := roots;
      assert records[..n + 1] == records[..n] + [records[n]];
      if records[n].localPath == "" {
        RootsOfMore(roots, records[..n], records[n], dir);
        continue;
      }
      var root := dir(records[n].localPath);
      if root == requested {
        return [];
      }
      if root !in seen {
        seen := seen + {root};
        roots := roots + [root];
      }
      RootsOfMore(before, records[..n], records[n], dir);
    }
    assert records[..|records|] == records;
    if |roots| == 0 {
      return [];
    }
    assert AreRootsOf(roots, records, dir) && LiesIn(records, dir, roots[0]);
    Reordered(roots, Sorted(roots), records, dir);
    SortedIsSorted(roots);
    RootsAreTheDirectories(Sorted(roots), records, dir);
    return [Move(LocalPathField, Sorted(roots), localPath)];
  }

  // ----- the two refusals -----

  datatype Answer = Proceed | Unreadable | NotAcknowledged(moves: seq<Move>)

  /** Creating to over id would adopt history from somewhere else, as far as anything on record
      can tell. */
  predicate AdoptsFromElsewhere(j: Journal, id: SetId, to: Address, dir: string -> string, clean: string -> string)
  {
    && History(j, id) != []
    && if id in j.addresses then j.addresses[id] != to else Strands(History(j, id), to.localPath, dir, clean)
  }

  /** What the two journal reads answered: whether each could be made at all. */
  datatype Reads = Reads(list: bool, address: bool)

  /** A create over id goes ahead: acknowledged, or there is nothing to adopt, or everything on
      record could be read and none of it says elsewhere. */
  predicate MayAdopt(j: Journal, id: SetId, to: Address, acknowledged: bool, io: Reads, dir: string -> string, clean: string -> string)
  {
    || acknowledged || j.NoJournal? || (io.list && History(j, id) == [])
    || (io.list && io.address && !AdoptsFromElsewhere(j, id, to, dir, clean))
  }

  /** Said of the journal itself: a create over id is let through exactly when it is acknowledged,
      there is no journal, no artifact is on record, or both reads could be made and either the
      address last recorded for the id is the one asked for or, with none recorded, nothing landed
      or something landed just where the request would look. */
  lemma MayAdoptExactly(j: Journal, id: SetId, to: Address, acknowledged: bool, io: Reads, dir: string -> string, clean: string -> string)
    ensures MayAdopt(j, id, to, acknowledged, io, dir, clean) <==>
      || acknowledged || j.NoJournal? || (io.list && (id !in j.records || j.records[id] == []))
      || (io.list && io.address &&
          if id in j.addresses then j.addresses[id] == to
          else
            || (forall i :: 0 <= i < |j.records[id]| ==> j.records[id][i].localPath == "")
            || (exists i :: 0 <= i < |j.records[id]| && j.records[id][i].localPath != "" && dir(j.records[id][i].localPath) == clean(to.localPath)))
  {}

  method RequireRepointAcknowledgement(j: Journal, id: SetId, current: BackupSet, r: Request, io: Reads) returns (a: Answer)
    ensures a.Proceed? <==>
      || r.acknowledgeRepoint || j.NoJournal? || AddressOf(Apply(current, r)) == AddressOf(current)
      || (io.list && History(j, id) == [])
    ensures a.Unreadable? <==>
      !r.acknowledgeRepoint && j.Journal? && AddressOf(Apply(current, r)) != AddressOf(current) && !io.list
    ensures a.NotAcknowledged? ==> io.list && a.moves == CreateRepointedFields(AddressOf(current), AddressOf(Apply(current, r)))
  {
    TheTwoPathsAskTheSameQuestion(current, r);
    if r.acknowledgeRepoint {
      return Proceed;
    }
    var changed := RepointedFields(current, r);
    if |changed| == 0 {
      return Proceed;
    }
    if j.NoJournal? {
      return Proceed;
    }
    if !io.list {
      return Unreadable;
    }
    if |History(j, id)| == 0 {
      return Proceed;
    }
    return NotAcknowledged(changed);
  }

  method RequireCreateRepointAcknowledgement(j: Journal, id: SetId, to: Address, acknowledged: bool, io: Reads,
                                             dir: string -> string, clean: string -> string)
    returns (a: Answer)
    ensures a.Proceed? <==> MayAdopt(j, id, to, acknowledged, io, dir, clean)
    ensures a.Unreadable? <==>
      !acknowledged && j.Journal? && (!io.list || (History(j, id) != [] && !io.address))
    ensures a.NotAcknowledged? ==> io.list && io.address
    ensures a.NotAcknowledged? && id in j.addresses ==> a.moves == CreateRepointedFields(j.addresses[id], to)
    ensures a.NotAcknowledged? && id !in j.addresses ==>
      && |a.moves| == 1 && a.moves[0].to == to.localPath
      && AreRootsOf(a.moves[0].from, History(j, id), dir) && IsSorted(a.moves[0].from)
  {
    if acknowledged {
      return Proceed;
    }
    if j.NoJournal? {
      return Proceed;
    }
    if !io.list {
      return Unreadable;
    }
    var records := History(j, id);
    if |records| == 0 {
      return Proceed;
    }
    if !io.address {
      return Unreadable;
    }
    var changed;
    if id in j.addresses {
      changed := CreateRepointedFields(j.addresses[id], to);
      NothingMovesExactlyWhenTheAddressStays(j.addresses[id], to);
    } else {
      changed := StrandedLocalPath(records, to.localPath, dir, clean);
    }
    if |changed| == 0 {
      return Proceed;
    }
    return NotAcknowledged(changed);
  }

  /** What the fallback cannot see, and the address recorded at removal is for. With none on record a
      create goes ahead unasked over any history with one artifact where the request would look,
      whatever host and remote path it came from; the same history with that artifact's address on
      record is refused for every other address, and for no other reason. */
  lemma FallbackNeverSeesTheRemoteHalf(j: Journal, id: SetId, i: nat, to: Address, dir: string -> string, clean: string -> string)
    requires j.Journal? && id !in j.addresses && i < |History(j, id)|
    requires Landed(History(j, id)[i]) && dir(History(j, id)[i].localPath) == clean(to.localPath)
    ensures MayAdopt(j, id, to, false, Reads(true, true), dir, clean)
    ensures var origin := History(j, id)[i].origin;
      MayAdopt(Recorded(j, id, origin), id, to, false, Reads(true, true), dir, clean) <==> to == origin
  {
    assert History(Recorded(j, id, History(j, id)[i].origin), id) == History(j, id);
  }
}
