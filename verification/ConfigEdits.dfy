/** The loops the write paths run over the configuration they have just read, each against the
    edit it is meant to make. */
module ConfigEdits {
  import opened Wrappers
  import opened Config

  /** The first set of the name spliced out of one source's sets. */
  method TakeOutOf(sets: seq<BackupSet>, name: string) returns (found: Option<BackupSet>, rest: seq<BackupSet>)
    ensures found == FindIn(sets, name)
    ensures rest == WithoutIn(sets, name)
  {
    for j := 0 to |sets|
      invariant FindIn(sets, name) == FindIn(sets[j..], name)
      invariant WithoutIn(sets, name) == sets[..j] + WithoutIn(sets[j..], name)
    {
      assert sets[j..][0] == sets[j] && sets[j..][1..] == sets[j + 1..];
      if sets[j].name == name {
        return Some(sets[j]), sets[..j] + sets[j + 1..];
      }
      assert sets[..j] + [sets[j]] == sets[..j + 1];
    }
    return None, sets;
  }

  predicate HoldsId(src: Source, id: SetId)
  {
    src.name == id.source && FindIn(src.sets, id.name).Some?
  }

  /** Wherever the id is first found, that is where it is looked up and taken out. */
  lemma {:induction false} FirstHolder(cfg: Config, i: nat, id: SetId)
    requires i <= |cfg| && forall k :: 0 <= k < i ==> !HoldsId(cfg[k], id)
    ensures i == |cfg| ==> Find(cfg, id).None?
    ensures i < |cfg| && HoldsId(cfg[i], id) ==>
      && Find(cfg, id) == FindIn(cfg[i].sets, id.name)
      && Without(cfg, id) == cfg[i := cfg[i].(sets := WithoutIn(cfg[i].sets, id.name))]
      && forall bs :: WithReplaced(cfg, id, bs) == cfg[i := cfg[i].(sets := WithReplacedIn(cfg[i].sets, id.name, bs))]
  {
    if 0 < i {
      FirstHolder(cfg[1..], i - 1, id);
    }
  }

  lemma {:induction false} FirstOfTheSets(sets: seq<BackupSet>, name: string) returns (j: nat)
    requires FindIn(sets, name).Some?
    ensures j < |sets| && sets[j].name == name && FindIn(sets, name) == Some(sets[j])
    ensures forall l :: 0 <= l < j ==> sets[l].name != name
    ensures WithoutIn(sets, name) == sets[..j] + sets[j + 1..]
    ensures forall bs :: WithReplacedIn(sets, name, bs) == sets[j := bs]
  {
    if sets[0].name == name {
      j := 0;
    } else {
      var k := FirstOfTheSets(sets[1..], name);
      j := k + 1;
      assert forall l :: 0 <= l < k ==> sets[1..][l] == sets[l + 1];
      assert [sets[0]] + sets[1..][..k] == sets[..j] && sets[1..][k + 1..] == sets[j + 1..];
    }
  }

  lemma {:induction false} FirstSourceHolding(cfg: Config, id: SetId) returns (i: nat)
    requires Find(cfg, id).Some?
    ensures i < |cfg| && HoldsId(cfg[i], id) && forall k :: 0 <= k < i ==> !HoldsId(cfg[k], id)
  {
    if HoldsId(cfg[0], id) {
      i := 0;
    } else {
      i := FirstSourceHolding(cfg[1..], id);
      i := i + 1;
    }
  }

  /** Which set an id means, and what taking it out or replacing it does to the file: the first of that
      name under a source of that name, that one alone, and every other stays where it stands. */
  lemma EditsAreOfTheFirst(cfg: Config, id: SetId) returns (i: nat, j: nat)
    requires Find(cfg, id).Some?
    ensures i < |cfg| && j < |cfg[i].sets| && cfg[i].name == id.source && cfg[i].sets[j].name == id.name
    ensures Find(cfg, id) == Some(cfg[i].sets[j])
    ensures forall l :: 0 <= l < j ==> cfg[i].sets[l].name != id.name
    ensures forall k, l :: 0 <= k < i && 0 <= l < |cfg[k].sets| && cfg[k].name == id.source ==> cfg[k].sets[l].name != id.name
    ensures Without(cfg, id) == cfg[i := cfg[i].(sets := cfg[i].sets[..j] + cfg[i].sets[j + 1..])]
    ensures forall bs :: WithReplaced(cfg, id, bs) == cfg[i := cfg[i].(sets := cfg[i].sets[j := bs])]
  {
    i := FirstSourceHolding(cfg, id);
    FirstHolder(cfg, i, id);
    j := FirstOfTheSets(cfg[i].sets, id.name);
    forall k, l | 0 <= k < i && 0 <= l < |cfg[k].sets| && cfg[k].name == id.source ensures cfg[k].sets[l].name != id.name {
      FoundSomewhere(cfg[k].sets, id.name);
    }
  }

  /** A toggle is of every one of them, first or not, and of nothing else. */
  lemma ToggleIsOfEvery(cfg: Config, id: SetId, disabled: bool, i: nat, j: nat)
    requires i < |cfg| && j < |cfg[i].sets|
    ensures
      var next := Toggled(cfg, id, disabled);
      && |next| == |cfg| && next[i].name == cfg[i].name && |next[i].sets| == |cfg[i].sets|
      && next[i].sets[j] ==
           if SetId(cfg[i].name, cfg[i].sets[j].name) == id then cfg[i].sets[j].(disabled := disabled) else cfg[i].sets[j]
  {}

  /** The first set under the id spliced out of the file as read. */
  method TakeOut(cfg: Config, id: SetId) returns (found: Option<BackupSet>, next: Config)
    ensures found == Find(cfg, id)
    ensures found.Some? ==> next == Without(cfg, id)
  {
    next := cfg;
    for i := 0 to |cfg|
      invariant forall k :: 0 <= k < i ==> !HoldsId(cfg[k], id)
    {
      if cfg[i].name == id.source {
        var rest;
        found, rest := TakeOutOf(cfg[i].sets, id.name);
        if found.Some? {
          FirstHolder(cfg, i, id);
          next := cfg[i := cfg[i].(sets := rest)];
          return;
        }
      }
    }
    FirstHolder(cfg, |cfg|, id);
    found := None;
  }

  /** The first set of the name overwritten where it stands. */
  method PutIn(sets: seq<BackupSet>, name: string, bs: BackupSet) returns (found: bool, next: seq<BackupSet>)
    ensures found <==> FindIn(sets, name).Some?
    ensures next == WithReplacedIn(sets, name, bs)
  {
    for j := 0 to |sets|
      invariant FindIn(sets, name) == FindIn(sets[j..], name)
      invariant WithReplacedIn(sets, name, bs) == sets[..j] + WithReplacedIn(sets[j..], name, bs)
    {
      assert sets[j..][0] == sets[j] && sets[j..][1..] == sets[j + 1..];
      if sets[j].name == name {
        next := sets[j := bs];
        assert next == sets[..j] + ([bs] + sets[j + 1..]);
        return true, next;
      }
      assert sets[..j] + [sets[j]] == sets[..j + 1];
    }
    return false, sets;
  }

  /** The first set under the id overwritten where the search found it. */
  method Put(cfg: Config, id: SetId, bs: BackupSet) returns (next: Config)
    requires Find(cfg, id).Some?
    ensures next == WithReplaced(cfg, id, bs)
  {
    next := cfg;
    for i := 0 to |cfg|
      invariant forall k :: 0 <= k < i ==> !HoldsId(cfg[k], id)
    {
      if cfg[i].name == id.source {
        var hit, sets := PutIn(cfg[i].sets, id.name, bs);
        if hit {
          FirstHolder(cfg, i, id);
          next := cfg[i := cfg[i].(sets := sets)];
          return;
        }
      }
    }
    FirstHolder(cfg, |cfg|, id);
    assert false;
  }

  /** Every set of the name switched, within one source. */
  method SwitchIn(sets: seq<BackupSet>, name: string, disabled: bool) returns (found: bool, next: seq<BackupSet>)
    ensures found <==> FindIn(sets, name).Some?
    ensures next == ToggledIn(sets, name, disabled)
  {
    found, next := false, sets;
    for j := 0 to |sets|
      invariant |next| == |sets| && next[j..] == sets[j..]
      invariant next[..j] == ToggledIn(sets, name, disabled)[..j]
      invariant FindIn(sets, name).Some? <==> found || FindIn(sets[j..], name).Some?
    {
      assert next[j] == next[j..][0] == sets[j];
      assert sets[j..][0] == sets[j] && sets[j..][1..] == sets[j + 1..];
      if next[j].name == name {
        next := next[j := next[j].(disabled := disabled)];
        found := true;
      }
    }
  }

  /** Every set under the id switched, in place. */
  method Switch(cfg: Config, id: SetId, disabled: bool) returns (found: bool, next: Config)
    ensures found <==> Find(cfg, id).Some?
    ensures next == Toggled(cfg, id, disabled)
  {
    found, next := false, cfg;
    for i := 0 to |cfg|
      invariant |next| == |cfg| && next[i..] == cfg[i..]
      invariant next[..i] == Toggled(cfg, id, disabled)[..i]
      invariant Find(cfg, id).Some? <==> found || Find(cfg[i..], id).Some?
    {
      assert next[i] == next[i..][0] == cfg[i];
      assert cfg[i..][0] == cfg[i] && cfg[i..][1..] == cfg[i + 1..];
      if cfg[i].name == id.source {
        var hit, sets := SwitchIn(cfg[i].sets, id.name, disabled);
        next := next[i := cfg[i].(sets := sets)];
        found := found || hit;
      }
    }
  }

  lemma {:induction false} FirstOfTheName(cfg: Config, i: nat, source: string, bs: BackupSet)
    requires i <= |cfg| && forall k :: 0 <= k < i ==> cfg[k].name != source
    ensures i == |cfg| ==> WithAdded(cfg, source, bs) == cfg + [Source(source, [bs])]
    ensures i < |cfg| && cfg[i].name == source ==>
      WithAdded(cfg, source, bs) == cfg[i := cfg[i].(sets := cfg[i].sets + [bs])]
  {
    if 0 < i {
      FirstOfTheName(cfg[1..], i - 1, source, bs);
    }
  }

  /** A set appended to its source, which is made when there is none. */
  method Append(cfg: Config, source: string, bs: BackupSet) returns (next: Config)
    ensures next == WithAdded(cfg, source, bs)
  {
    for i := 0 to |cfg|
      invariant forall k :: 0 <= k < i ==> cfg[k].name != source
    {
      if cfg[i].name == source {
        FirstOfTheName(cfg, i, source, bs);
        return cfg[i := cfg[i].(sets := cfg[i].sets + [bs])];
      }
    }
    FirstOfTheName(cfg, |cfg|, source, bs);
    next := cfg + [Source(source, [bs])];
  }

  ghost predicate NamedAmong(cfg: Config, o: SetId)
  {
    exists k, j :: 0 <= k < |cfg| && 0 <= j < |cfg[k].sets| && o == SetId(cfg[k].name, cfg[k].sets[j].name)
  }

  lemma UniqueWithOneMore(cfg: Config, src: Source)
    ensures Unique(cfg + [src]) <==>
      Unique(cfg) && (forall k :: 0 <= k < |cfg| ==> cfg[k].name != src.name) && UniqueNames(src.sets)
  {
    var more := cfg + [src];
    assert more[|cfg|] == src && forall k :: 0 <= k < |cfg| ==> more[k] == cfg[k];
    if Unique(more) {
      forall k | 0 <= k < |cfg| ensures UniqueNames(cfg[k].sets) { assert UniqueNames(more[k].sets); }
    }
  }

  lemma UniqueNamesWithOneMore(sets: seq<BackupSet>, bs: BackupSet)
    ensures UniqueNames(sets + [bs]) <==> UniqueNames(sets) && forall j :: 0 <= j < |sets| ==> sets[j].name != bs.name
  {
    var more := sets + [bs];
    assert more[|sets|] == bs && forall k :: 0 <= k < |sets| ==> more[k] == sets[k];
  }

  /** Under a source name not seen before, an id was seen exactly when its set name was. */
  lemma SeenBefore(cfg: Config, src: Source, j: nat)
    requires j < |src.sets|
    ensures
      var o := SetId(src.name, src.sets[j].name);
      var before, now := src.(sets := src.sets[..j]), src.(sets := src.sets[..j + 1]);
      && (forall p :: NamedAmong([now], p) <==> NamedAmong([before], p) || p == o)
      && (UniqueNames(now.sets) <==> UniqueNames(before.sets) && !NamedAmong([before], o))
      && ((forall k :: 0 <= k < |cfg| ==> cfg[k].name != src.name) ==> !NamedAmong(cfg, o))
  {
    var before, now := src.(sets := src.sets[..j]), src.(sets := src.sets[..j + 1]);
    assert now.sets == before.sets + [src.sets[j]] && now.sets[j] == src.sets[j];
    UniqueNamesWithOneMore(before.sets, src.sets[j]);
    var o := SetId(src.name, src.sets[j].name);
    assert [now][0] == now && [before][0] == before;
    forall p ensures NamedAmong([now], p) <==> NamedAmong([before], p) || p == o {
      if NamedAmong([now], p) {
        var k, i :| 0 <= k < 1 && 0 <= i < |[now][k].sets| && p == SetId([now][k].name, [now][k].sets[i].name);
        if i < j { assert now.sets[i] == before.sets[i]; }
      }
      if NamedAmong([before], p) {
        var k, i :| 0 <= k < 1 && 0 <= i < |[before][k].sets| && p == SetId([before][k].name, [before][k].sets[i].name);
        assert now.sets[i] == before.sets[i];
      }
    }
    if NamedAmong([before], o) {
      var k, i :| 0 <= k < 1 && 0 <= i < |[before][k].sets| && o == SetId([before][k].name, [before][k].sets[i].name);
      assert before.sets[i].name == src.sets[j].name;
    } else {
      forall i | 0 <= i < |before.sets| ensures before.sets[i].name != src.sets[j].name {
        assert o != SetId([before][0].name, [before][0].sets[i].name);
      }
    }
  }

  lemma NamedWithOneMore(cfg: Config, src: Source)
    ensures forall o :: NamedAmong(cfg + [src], o) <==> NamedAmong(cfg, o) || NamedAmong([src], o)
  {
    var more := cfg + [src];
    assert more[|cfg|] == src && forall k :: 0 <= k < |cfg| ==> more[k] == cfg[k];
    forall o | NamedAmong(more, o) ensures NamedAmong(cfg, o) || NamedAmong([src], o) {
      var k, j :| 0 <= k < |more| && 0 <= j < |more[k].sets| && o == SetId(more[k].name, more[k].sets[j].name);
      if k < |cfg| { assert cfg[k] == more[k]; } else { assert [src][0] == more[k]; }
    }
    forall o | NamedAmong(cfg, o) || NamedAmong([src], o) ensures NamedAmong(more, o) {
      if NamedAmong(cfg, o) {
        var k, j :| 0 <= k < |cfg| && 0 <= j < |cfg[k].sets| && o == SetId(cfg[k].name, cfg[k].sets[j].name);
        assert more[k] == cfg[k];
      } else {
        var k, j :| 0 <= k < 1 && 0 <= j < |[src][k].sets| && o == SetId([src][k].name, [src][k].sets[j].name);
        assert more[|cfg|] == src;
      }
    }
  }

  /** The rule about names in Validate, which goes on past the first problem it finds: one map of
      source names, one map of ids across the whole file. */
  method NamesAreDistinct(cfg: Config) returns (ok: bool)
    ensures ok <==> Unique(cfg)
  {
    ok := true;
    var sources: set<string>, ids: set<SetId> := {}, {};
    for i := 0 to |cfg|
      invariant forall n :: n in sources <==> exists k :: 0 <= k < i && cfg[k].name == n
      invariant forall o :: o in ids <==> NamedAmong(cfg[..i], o)
      invariant ok <==> Unique(cfg[..i])
    {
      var src := cfg[i];
      if src.name in sources {
        ok := false;
      }
      sources := sources + {src.name};
      for j := 0 to |src.sets|
        invariant forall o :: o in ids <==> NamedAmong(cfg[..i], o) || NamedAmong([src.(sets := src.sets[..j])], o)
        invariant ok <==> Unique(cfg[..i]) && (forall k :: 0 <= k < i ==> cfg[k].name != src.name) && UniqueNames(src.sets[..j])
      {
        var o := SetId(src.name, src.sets[j].name);
        SeenBefore(cfg[..i], src, j);
        if o in ids {
          ok := false;
        }
        ids := ids + {o};
      }
      assert src.(sets := src.sets[..|src.sets|]) == src;
      assert cfg[..i + 1] == cfg[..i] + [src];
      UniqueWithOneMore(cfg[..i], src);
      NamedWithOneMore(cfg[..i], src);
    }
    assert cfg[..|cfg|] == cfg;
  }
}
