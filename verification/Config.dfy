/** The configuration file: sources, the backup sets under them, and the four edits every
    write path makes of it (take one out, add one, replace one, toggle one). */
module Config {
  import opened Wrappers

  /** A Go slice: an absent one and an empty one are different values. */
  datatype Slice = Nil | Elems(items: seq<string>)

  datatype Secret = Secret(file: string, env: string, command: Slice)

  datatype Key = Key(file: string, env: string, command: Slice, passphrase: Secret)

  datatype Remote = Remote(kind: string, host: string, port: int, user: string,
                           keyFile: string, key: Key, knownHosts: string, maxConnections: int)

  datatype Completion = Completion(strategy: string, stableFor: int)

  datatype BackupSet = BackupSet(
    name: string,
    remote: Remote,
    remotePath: string,
    localPath: string,
    includes: Slice,
    excludePaths: Slice,
    completion: Completion,
    staleAfter: int,
    pollInterval: Option<int>,
    consistency: string,
    verificationLevel: string,
    samplePercent: int,
    fullEvery: int,
    drillEvery: int,
    validatorId: string,
    validatorCommand: Slice,
    engine: string,
    disabled: bool,
    readOnly: Option<bool>,
    connectionUnverified: bool)

  /** The engine that keeps a repository of its own. */
  const INCREMENTAL := "kopia"

  datatype Source = Source(name: string, sets: seq<BackupSet>)

  type Config = seq<Source>

  /** How an attempt to replace the file ended. The last is an error answered after the rename: the
      file has been replaced, and the caller is told it could not be. */
  datatype WriteResult = Replaced | LeftOld | RenamedUnsynced

  /** The file after an attempt to make it next. */
  function FileAfter(before: Config, next: Config, w: WriteResult): Config
  {
    if w.LeftOld? then before else next
  }

  /** The configuration in force after one: it follows only a write that succeeded. */
  function LiveAfter(before: Config, next: Config, w: WriteResult): Config
  {
    if w.Replaced? then next else before
  }

  /** Where a set's data comes from and where its bytes live: the three fields that together say
      what data a set is about. */
  datatype Address = Address(host: string, remotePath: string, localPath: string)

  function AddressOf(bs: BackupSet): Address
  {
    Address(bs.remote.host, bs.remotePath, bs.localPath)
  }

  /** "source/name". Neither half of a valid id holds a "/", so the pair and the rendered
      string name the same thing. */
  datatype SetId = SetId(source: string, name: string)

  // ----- reading -----

  function SetIds(source: string, sets: seq<BackupSet>): set<SetId>
  {
    if sets == [] then {} else {SetId(source, sets[0].name)} + SetIds(source, sets[1..])
  }

  /** Every id a configuration names. */
  function Ids(cfg: Config): set<SetId>
  {
    if cfg == [] then {} else SetIds(cfg[0].name, cfg[0].sets) + Ids(cfg[1..])
  }

  function FindIn(sets: seq<BackupSet>, name: string): Option<BackupSet>
  {
    if sets == [] then None
    else if sets[0].name == name then Some(sets[0])
    else FindIn(sets[1..], name)
  }

  /** The first set under the id, in file order. */
  function Find(cfg: Config, id: SetId): Option<BackupSet>
  {
    if cfg == [] then None
    else if cfg[0].name == id.source && FindIn(cfg[0].sets, id.name).Some? then FindIn(cfg[0].sets, id.name)
    else Find(cfg[1..], id)
  }

  ghost predicate UniqueNames(sets: seq<BackupSet>)
  {
    forall i, j :: 0 <= i < j < |sets| ==> sets[i].name != sets[j].name
  }

  /** What Validate insists on about names: no two sources of one name, no two sets of one id. */
  ghost predicate Unique(cfg: Config)
  {
    && (forall i, j :: 0 <= i < j < |cfg| ==> cfg[i].name != cfg[j].name)
    && (forall i :: 0 <= i < |cfg| ==> UniqueNames(cfg[i].sets))
  }

  // ----- editing -----

  function WithoutIn(sets: seq<BackupSet>, name: string): seq<BackupSet>
  {
    if sets == [] then []
    else if sets[0].name == name then sets[1..]
    else [sets[0]] + WithoutIn(sets[1..], name)
  }

  /** The first set under the id spliced out. Its source stays, even when it was the last. */
  function Without(cfg: Config, id: SetId): Config
  {
    if cfg == [] then []
    else if cfg[0].name == id.source && FindIn(cfg[0].sets, id.name).Some? then
      [cfg[0].(sets := WithoutIn(cfg[0].sets, id.name))] + cfg[1..]
    else [cfg[0]] + Without(cfg[1..], id)
  }

  /** A set appended to the first source of that name, or to a new source at the end. */
  function WithAdded(cfg: Config, source: string, bs: BackupSet): Config
  {
    if cfg == [] then [Source(source, [bs])]
    else if cfg[0].name == source then [cfg[0].(sets := cfg[0].sets + [bs])] + cfg[1..]
    else [cfg[0]] + WithAdded(cfg[1..], source, bs)
  }

  function WithReplacedIn(sets: seq<BackupSet>, name: string, bs: BackupSet): seq<BackupSet>
  {
    if sets == [] then []
    else if sets[0].name == name then [bs] + sets[1..]
    else [sets[0]] + WithReplacedIn(sets[1..], name, bs)
  }

  /** The first set under the id replaced in place. */
  function WithReplaced(cfg: Config, id: SetId, bs: BackupSet): Config
  {
    if cfg == [] then []
    else if cfg[0].name == id.source && FindIn(cfg[0].sets, id.name).Some? then
      [cfg[0].(sets := WithReplacedIn(cfg[0].sets, id.name, bs))] + cfg[1..]
    else [cfg[0]] + WithReplaced(cfg[1..], id, bs)
  }

  function ToggledIn(sets: seq<BackupSet>, name: string, disabled: bool): (r: seq<BackupSet>)
    ensures |r| == |sets|
  {
    seq(|sets|, j requires 0 <= j < |sets| =>
      if sets[j].name == name then sets[j].(disabled := disabled) else sets[j])
  }

  /** Every set under the id switched on or off. */
  function Toggled(cfg: Config, id: SetId, disabled: bool): (r: Config)
    ensures |r| == |cfg|
  {
    seq(|cfg|, i requires 0 <= i < |cfg| =>
      if cfg[i].name == id.source then cfg[i].(sets := ToggledIn(cfg[i].sets, id.name, disabled)) else cfg[i])
  }

  // ----- what an id means before and after -----

  lemma {:induction false} SetIdsHas(source: string, sets: seq<BackupSet>, id: SetId)
    ensures id in SetIds(source, sets) <==> id.source == source && FindIn(sets, id.name).Some?
  {
    if sets != [] { SetIdsHas(source, sets[1..], id); }
  }

  lemma {:induction false} FoundHasTheName(sets: seq<BackupSet>, name: string)
    ensures FindIn(sets, name).Some? ==> FindIn(sets, name).value.name == name
  {
    if sets != [] { FoundHasTheName(sets[1..], name); }
  }

  lemma {:induction false} FoundIffNamed(cfg: Config, id: SetId)
    ensures id in Ids(cfg) <==> Find(cfg, id).Some?
    ensures Find(cfg, id).Some? ==> Find(cfg, id).value.name == id.name
  {
    if cfg != [] {
      SetIdsHas(cfg[0].name, cfg[0].sets, id);
      FoundHasTheName(cfg[0].sets, id.name);
      FoundIffNamed(cfg[1..], id);
    }
  }

  lemma {:induction false} FoundSomewhere(sets: seq<BackupSet>, name: string)
    ensures FindIn(sets, name).Some? <==> exists i :: 0 <= i < |sets| && sets[i].name == name
  {
    if sets != [] {
      FoundSomewhere(sets[1..], name);
      if i :| 0 <= i < |sets| && sets[i].name == name && i > 0 { assert sets[1..][i - 1].name == name; }
    }
  }

  lemma {:induction false} FindInWithout(sets: seq<BackupSet>, name: string, other: string)
    ensures other != name ==> FindIn(WithoutIn(sets, name), other) == FindIn(sets, other)
    ensures UniqueNames(sets) ==> FindIn(WithoutIn(sets, name), name).None? && UniqueNames(WithoutIn(sets, name))
    ensures forall b :: b in WithoutIn(sets, name) ==> b in sets
  {
    if sets != [] {
      var rest, out := sets[1..], WithoutIn(sets, name);
      FindInWithout(rest, name, other);
      FoundSomewhere(rest, name);
      if sets[0].name == name {
        if UniqueNames(sets) { assert forall i :: 0 <= i < |rest| ==> rest[i] == sets[i + 1]; }
      } else {
        assert out[1..] == WithoutIn(rest, name);
        if UniqueNames(sets) {
          assert forall i, j :: 0 <= i < j < |rest| ==> rest[i] == sets[i + 1] && rest[j] == sets[j + 1];
          forall j | 0 < j < |out| ensures out[j].name != sets[0].name {
            assert out[j] == out[1..][j - 1] && out[j] in rest;
          }
        }
      }
    }
  }

  lemma {:induction false} NotUnderOtherSources(cfg: Config, id: SetId)
    requires forall i :: 0 <= i < |cfg| ==> cfg[i].name != id.source
    ensures Find(cfg, id).None?
  {
    if cfg != [] { NotUnderOtherSources(cfg[1..], id); }
  }

  /** Taking one out: every other id keeps its set; and in a file with no duplicates the id is
      gone and there is still no duplicate. */
  lemma {:induction false} FindWithout(cfg: Config, id: SetId, other: SetId)
    ensures other != id ==> Find(Without(cfg, id), other) == Find(cfg, other)
    ensures Unique(cfg) ==> Find(Without(cfg, id), id).None?
  {
    if cfg != [] {
      var out := Without(cfg, id);
      FindWithout(cfg[1..], id, other);
      FindInWithout(cfg[0].sets, id.name, other.name);
      if cfg[0].name == id.source && FindIn(cfg[0].sets, id.name).Some? {
        assert out[1..] == cfg[1..];
        if Unique(cfg) {
          assert forall i :: 0 <= i < |cfg[1..]| ==> cfg[1..][i] == cfg[i + 1];
          NotUnderOtherSources(cfg[1..], id);
        }
      } else {
        assert out[1..] == Without(cfg[1..], id);
        if Unique(cfg) { assert Unique(cfg[1..]); }
      }
    }
  }

  lemma {:induction false} WithoutStaysUnique(cfg: Config, id: SetId)
    requires Unique(cfg)
    ensures Unique(Without(cfg, id))
    ensures |Without(cfg, id)| == |cfg|
    ensures forall i :: 0 <= i < |cfg| ==> Without(cfg, id)[i].name == cfg[i].name
  {
    if cfg != [] {
      var rest, out := cfg[1..], Without(cfg, id);
      assert forall i :: 0 <= i < |rest| ==> rest[i] == cfg[i + 1];
      WithoutStaysUnique(rest, id);
      FindInWithout(cfg[0].sets, id.name, id.name);
      assert UniqueNames(cfg[0].sets) && UniqueNames(out[0].sets);
      if cfg[0].name == id.source && FindIn(cfg[0].sets, id.name).Some? {
        assert forall i :: 0 < i < |out| ==> out[i] == cfg[i];
      } else {
        assert forall i :: 0 < i < |out| ==> out[i] == Without(rest, id)[i - 1];
      }
    }
  }

  lemma {:induction false} FindInReplaced(sets: seq<BackupSet>, name: string, bs: BackupSet, other: string)
    requires bs.name == name
    ensures FindIn(WithReplacedIn(sets, name, bs), other) ==
      if other == name && FindIn(sets, name).Some? then Some(bs) else FindIn(sets, other)
  {
    if sets != [] {
      FindInReplaced(sets[1..], name, bs, other);
      assert WithReplacedIn(sets, name, bs)[1..] ==
        if sets[0].name == name then sets[1..] else WithReplacedIn(sets[1..], name, bs);
    }
  }

  /** Replacing one: that id answers with the new set, every other id as before. */
  lemma {:induction false} FindReplaced(cfg: Config, id: SetId, bs: BackupSet, other: SetId)
    requires bs.name == id.name
    ensures Find(WithReplaced(cfg, id, bs), other) ==
      if other == id && Find(cfg, id).Some? then Some(bs) else Find(cfg, other)
  {
    if cfg != [] {
      FindReplaced(cfg[1..], id, bs, other);
      FindInReplaced(cfg[0].sets, id.name, bs, other.name);
      assert WithReplaced(cfg, id, bs)[1..] ==
        if cfg[0].name == id.source && FindIn(cfg[0].sets, id.name).Some? then cfg[1..]
        else WithReplaced(cfg[1..], id, bs);
    }
  }

  lemma {:induction false} FindInAppended(sets: seq<BackupSet>, bs: BackupSet, other: string)
    ensures FindIn(sets + [bs], other) ==
      if FindIn(sets, other).Some? then FindIn(sets, other) else if other == bs.name then Some(bs) else None
  {
    if sets == [] {
      assert sets + [bs] == [bs];
    } else {
      FindInAppended(sets[1..], bs, other);
      assert (sets + [bs])[1..] == sets[1..] + [bs];
    }
  }

  /** Adding one under a free id: it answers, every other id as before. */
  lemma {:induction false} FindAdded(cfg: Config, id: SetId, bs: BackupSet, other: SetId)
    requires bs.name == id.name && Find(cfg, id).None?
    ensures Find(WithAdded(cfg, id.source, bs), other) == if other == id then Some(bs) else Find(cfg, other)
  {
    var out := WithAdded(cfg, id.source, bs);
    if cfg == [] {
      assert [] + [bs] == [bs];
      FindInAppended([], bs, other.name);
      assert out == [Source(id.source, [bs])] && out[1..] == [];
    } else {
      FindInAppended(cfg[0].sets, bs, other.name);
      if cfg[0].name == id.source {
        assert out[1..] == cfg[1..];
      } else {
        FindAdded(cfg[1..], id, bs, other);
        assert out[1..] == WithAdded(cfg[1..], id.source, bs);
      }
    }
  }

  lemma {:induction false} FindInToggled(sets: seq<BackupSet>, name: string, disabled: bool, other: string)
    ensures FindIn(ToggledIn(sets, name, disabled), other) ==
      match FindIn(sets, other)
      case None => None
      case Some(b) => Some(if other == name then b.(disabled := disabled) else b)
  {
    if sets != [] {
      FindInToggled(sets[1..], name, disabled, other);
      assert ToggledIn(sets, name, disabled)[1..] == ToggledIn(sets[1..], name, disabled);
    }
  }

  /** Toggling one moves its switch and nothing else of it, and no other id. */
  lemma {:induction false} FindToggled(cfg: Config, id: SetId, disabled: bool, other: SetId)
    ensures Find(Toggled(cfg, id, disabled), other) ==
      match Find(cfg, other)
      case None => None
      case Some(b) => Some(if other == id then b.(disabled := disabled) else b)
  {
    if cfg != [] {
      FindInToggled(cfg[0].sets, id.name, disabled, other.name);
      FindToggled(cfg[1..], id, disabled, other);
      assert Toggled(cfg, id, disabled)[1..] == Toggled(cfg[1..], id, disabled);
    }
  }

  /** Same ids, seen as sets. */
  lemma SameIds(a: Config, b: Config)
    requires forall id :: Find(a, id).Some? <==> Find(b, id).Some?
    ensures Ids(a) == Ids(b)
  {
    forall id ensures id in Ids(a) <==> id in Ids(b) {
      FoundIffNamed(a, id);
      FoundIffNamed(b, id);
    }
  }

  lemma IdsToggled(cfg: Config, id: SetId, disabled: bool)
    ensures Ids(Toggled(cfg, id, disabled)) == Ids(cfg)
  {
    forall o ensures Find(Toggled(cfg, id, disabled), o).Some? <==> Find(cfg, o).Some? {
      FindToggled(cfg, id, disabled, o);
    }
    SameIds(Toggled(cfg, id, disabled), cfg);
  }

  lemma IdsWithout(cfg: Config, id: SetId)
    ensures Ids(cfg) - {id} <= Ids(Without(cfg, id)) <= Ids(cfg) + {id}
    ensures Unique(cfg) ==> Ids(Without(cfg, id)) == Ids(cfg) - {id}
  {
    forall o ensures o != id ==> (o in Ids(Without(cfg, id)) <==> o in Ids(cfg)) {
      FindWithout(cfg, id, o);
      FoundIffNamed(cfg, o);
      FoundIffNamed(Without(cfg, id), o);
    }
    FindWithout(cfg, id, id);
    FoundIffNamed(Without(cfg, id), id);
  }

  lemma IdsReplaced(cfg: Config, id: SetId, bs: BackupSet)
    requires bs.name == id.name
    ensures Ids(WithReplaced(cfg, id, bs)) == Ids(cfg)
  {
    forall o ensures Find(WithReplaced(cfg, id, bs), o).Some? <==> Find(cfg, o).Some? {
      FindReplaced(cfg, id, bs, o);
    }
    SameIds(WithReplaced(cfg, id, bs), cfg);
  }

  lemma IdsAdded(cfg: Config, id: SetId, bs: BackupSet)
    requires bs.name == id.name && Find(cfg, id).None?
    ensures Ids(WithAdded(cfg, id.source, bs)) == Ids(cfg) + {id}
  {
    forall o ensures o in Ids(WithAdded(cfg, id.source, bs)) <==> o in Ids(cfg) + {id} {
      FindAdded(cfg, id, bs, o);
      FoundIffNamed(cfg, o);
      FoundIffNamed(WithAdded(cfg, id.source, bs), o);
    }
  }

  /** Adding one under an id the file already holds makes a file Validate refuses. */
  lemma {:induction false} DuplicateIsRefused(cfg: Config, id: SetId, bs: BackupSet)
    requires bs.name == id.name && Unique(WithAdded(cfg, id.source, bs))
    ensures Find(cfg, id).None?
  {
    if cfg != [] {
      var out := WithAdded(cfg, id.source, bs);
      if cfg[0].name == id.source {
        FoundSomewhere(cfg[0].sets, id.name);
        assert UniqueNames(out[0].sets);
        forall i | 0 <= i < |cfg[0].sets| ensures cfg[0].sets[i].name != id.name {
          assert out[0].sets[i] == cfg[0].sets[i] && out[0].sets[|cfg[0].sets|] == bs;
        }
        assert forall i :: 0 < i < |cfg| ==> out[i] == cfg[i];
        assert forall i :: 0 < i < |cfg| ==> out[0].name != out[i].name;
        assert forall i :: 0 <= i < |cfg[1..]| ==> cfg[1..][i] == cfg[i + 1];
        NotUnderOtherSources(cfg[1..], id);
      } else {
        assert forall i :: 0 <= i < |out[1..]| ==> out[1..][i] == out[i + 1];
        assert out[1..] == WithAdded(cfg[1..], id.source, bs);
        DuplicateIsRefused(cfg[1..], id, bs);
      }
    }
  }

  lemma {:induction false} ReplacedKeepsNames(sets: seq<BackupSet>, name: string, bs: BackupSet)
    requires bs.name == name
    ensures var out := WithReplacedIn(sets, name, bs);
      |out| == |sets| && forall i :: 0 <= i < |sets| ==> out[i].name == sets[i].name
  {
    if sets != [] { ReplacedKeepsNames(sets[1..], name, bs); }
  }

  lemma {:induction false} ReplacedStaysUnique(cfg: Config, id: SetId, bs: BackupSet)
    requires Unique(cfg) && bs.name == id.name
    ensures var out := WithReplaced(cfg, id, bs);
      && Unique(out)
      && |out| == |cfg| && forall i :: 0 <= i < |cfg| ==> out[i].name == cfg[i].name
  {
    if cfg != [] {
      var rest, out := cfg[1..], WithReplaced(cfg, id, bs);
      assert forall i :: 0 <= i < |rest| ==> rest[i] == cfg[i + 1];
      ReplacedStaysUnique(rest, id, bs);
      ReplacedKeepsNames(cfg[0].sets, id.name, bs);
      assert UniqueNames(out[0].sets);
      if cfg[0].name == id.source && FindIn(cfg[0].sets, id.name).Some? {
        assert forall i :: 0 < i < |out| ==> out[i] == cfg[i];
      } else {
        assert forall i :: 0 < i < |out| ==> out[i] == WithReplaced(rest, id, bs)[i - 1];
      }
    }
  }

  /** And adding one under a free id makes one it accepts: the names stay, at most one is new. */
  lemma {:induction false} AddedStaysUnique(cfg: Config, id: SetId, bs: BackupSet)
    requires Unique(cfg) && bs.name == id.name && Find(cfg, id).None?
    ensures var out := WithAdded(cfg, id.source, bs);
      && Unique(out)
      && |cfg| <= |out| <= |cfg| + 1
      && (forall i :: 0 <= i < |cfg| ==> out[i].name == cfg[i].name)
      && (|out| > |cfg| ==> out[|cfg|].name == id.source && forall i :: 0 <= i < |cfg| ==> cfg[i].name != id.source)
  {
    if cfg != [] {
      var rest, out := cfg[1..], WithAdded(cfg, id.source, bs);
      assert forall i :: 0 <= i < |rest| ==> rest[i] == cfg[i + 1];
      assert UniqueNames(cfg[0].sets);
      if cfg[0].name == id.source {
        FoundSomewhere(cfg[0].sets, id.name);
        assert UniqueNames(out[0].sets);
        assert forall i :: 0 < i < |out| ==> out[i] == cfg[i];
      } else {
        AddedStaysUnique(rest, id, bs);
        assert forall i :: 0 < i < |out| ==> out[i] == WithAdded(rest, id.source, bs)[i - 1];
      }
    }
  }

  lemma ToggledStaysUnique(cfg: Config, id: SetId, disabled: bool)
    requires Unique(cfg)
    ensures Unique(Toggled(cfg, id, disabled))
  {
    var t := Toggled(cfg, id, disabled);
    assert forall i :: 0 <= i < |t| ==> t[i].name == cfg[i].name;
    forall i | 0 <= i < |t| ensures UniqueNames(t[i].sets) {
      assert UniqueNames(cfg[i].sets);
      assert |t[i].sets| == |cfg[i].sets| && forall k :: 0 <= k < |t[i].sets| ==> t[i].sets[k].name == cfg[i].sets[k].name;
    }
  }
}
