/** What a backup set's trusted host-key file is called. The encoding was meant to give
    every (source, set) pair a name of its own; this module proves exactly when it does. */
module KnownHostsName {
  import opened Decimal

  const SUFFIX := "_known_hosts"

  function Doubled(c: char): string
  {
    if c == '_' then "__" else [c]
  }

  /** Every "_" doubled, everything else as it is. */
  function Token(v: string): string
  {
    if v == "" then "" else Doubled(v[0]) + Token(v[1..])
  }

  function FileName(source: string, name: string): string
  {
    Token(source) + "_" + Token(name) + SUFFIX
  }

  /** os.CreateTemp appends decimal digits to the pattern it is given. */
  ghost predicate StagedName(path: string)
  {
    exists source, name, digits ::
      AllDigits(digits) && digits != "" && path == FileName(source, name) + "." + digits
  }

  function Underscores(k: nat): (u: string)
    ensures |u| == k
  {
    if k == 0 then "" else "_" + Underscores(k - 1)
  }

  /** The two ids agree but for how one run of underscores at the boundary between them is
      split: k of them moved from the front of one name to the end of the other source. */
  ghost predicate SplitsDifferently(s: string, n: string, s': string, n': string, k: nat)
  {
    s' == s + Underscores(k) && n == Underscores(k) + n'
  }

  ghost predicate BoundaryShift(s: string, n: string, s': string, n': string)
  {
    || (exists k: nat :: SplitsDifferently(s, n, s', n', k))
    || (exists k: nat :: SplitsDifferently(s', n', s, n, k))
  }

  // ----- the encoding itself -----

  lemma {:induction false} TokenAppend(a: string, b: string)
    ensures Token(a + b) == Token(a) + Token(b)
  {
    if a == "" {
      assert a + b == b;
    } else {
      TokenAppend(a[1..], b);
      assert (a + b)[1..] == a[1..] + b;
      Assoc(Doubled(a[0]), Token(a[1..]), Token(b));
    }
  }

  lemma {:induction false} TokenUnderscores(k: nat)
    ensures Token(Underscores(k)) == Underscores(2 * k)
  {
    if k > 0 {
      TokenUnderscores(k - 1);
      assert Underscores(k)[1..] == Underscores(k - 1);
      assert Underscores(2 * k) == "_" + ("_" + Underscores(2 * (k - 1)));
    }
  }

  lemma {:induction false} UnderscoresSlide(k: nat)
    ensures Underscores(k) + "_" == "_" + Underscores(k)
  {
    if k > 0 {
      UnderscoresSlide(k - 1);
      assert Underscores(k) + "_" == "_" + (Underscores(k - 1) + "_");
    }
  }

  /** One segment on its own is encoded without loss. */
  lemma {:induction false} TokenInjective(a: string, b: string)
    requires Token(a) == Token(b)
    ensures a == b
  {
    if a == "" || b == "" {
    } else {
      assert Token(a)[0] == a[0] && Token(b)[0] == b[0];
      var w := if a[0] == '_' then 2 else 1;
      assert Token(a)[w..] == Token(a[1..]) && Token(b)[w..] == Token(b[1..]);
      TokenInjective(a[1..], b[1..]);
      assert a == [a[0]] + a[1..] && b == [b[0]] + b[1..];
    }
  }

  // ----- the collision theorem -----

  lemma {:induction false} ShiftCollides(s: string, n: string, s': string, n': string, k: nat)
    requires SplitsDifferently(s, n, s', n', k)
    ensures Token(s) + "_" + Token(n) == Token(s') + "_" + Token(n')
  {
    TokenAppend(s, Underscores(k));
    TokenAppend(Underscores(k), n');
    TokenUnderscores(k);
    UnderscoresSlide(2 * k);
    var u, ts, tn := Underscores(2 * k), Token(s), Token(n');
    assert Token(n) == u + tn && Token(s') == ts + u;
    calc {
      (ts + "_") + (u + tn);
      { Assoc(ts, "_", u + tn); Assoc("_", u, tn); }
      ts + (("_" + u) + tn);
      ts + ((u + "_") + tn);
      { Assoc(u, "_", tn); Assoc(ts, u, "_" + tn); Assoc(ts + u, "_", tn); }
      ((ts + u) + "_") + tn;
    }
  }

  lemma Shorter(p: string, a: string, b: string)
    requires p + a == p + b
    ensures a == b
  {
    assert a == (p + a)[|p|..] && b == (p + b)[|p|..];
  }

  lemma PeelUnderscore(n: string, t: string)
    requires "_" + Token(n) == "__" + t
    ensures n != "" && n[0] == '_' && t == "_" + Token(n[1..])
  {
    Assoc("_", "_", t);
    Shorter("_", Token(n), "_" + t);
    assert Token(n)[0] == '_';
    Assoc("_", "_", Token(n[1..]));
    Shorter("_", t, "_" + Token(n[1..]));
  }

  lemma AddUnderscore(n: string, s': string, n': string, j: nat)
    requires n != "" && s' != "" && n[0] == s'[0] == '_' && SplitsDifferently("", n[1..], s'[1..], n', j)
    ensures SplitsDifferently("", n, s', n', j + 1)
  {}

  /** The left end ran out first: what is left of the other source can only be underscores. */
  lemma {:induction false} EmptySourceCollision(n: string, s': string, n': string) returns (k: nat)
    requires "_" + Token(n) == Token(s') + "_" + Token(n')
    ensures SplitsDifferently("", n, s', n', k)
    decreases |s'|
  {
    if s' == "" {
      k := 0;
      assert Token(s') + "_" == "_";
      Shorter("_", Token(n), Token(n'));
      TokenInjective(n, n');
    } else {
      var t := Token(s'[1..]) + "_" + Token(n');
      Assoc(Doubled(s'[0]), Token(s'[1..]), "_");
      Assoc(Doubled(s'[0]), Token(s'[1..]) + "_", Token(n'));
      assert ("_" + Token(n))[0] == '_' && (Doubled(s'[0]) + t)[0] == s'[0];
      PeelUnderscore(n, t);
      var j := EmptySourceCollision(n[1..], s'[1..], n');
      k := j + 1;
      AddUnderscore(n, s', n', j);
    }
  }

  lemma SamePrefix(c: char, c': char, l: string, r: string)
    requires Doubled(c) + l == Doubled(c') + r
    ensures c == c' && l == r
  {
    var x, y := Doubled(c) + l, Doubled(c') + r;
    assert x[0] == c && y[0] == c';
    assert x[|Doubled(c)|..] == l && y[|Doubled(c')|..] == r;
  }

  lemma PeelSharedHead(s: string, n: string, s': string, n': string)
    requires s != "" && s' != ""
    requires Token(s) + "_" + Token(n) == Token(s') + "_" + Token(n')
    ensures s[0] == s'[0]
    ensures Token(s[1..]) + "_" + Token(n) == Token(s'[1..]) + "_" + Token(n')
  {
    var l, r := Token(s[1..]) + "_" + Token(n), Token(s'[1..]) + "_" + Token(n');
    var c, c' := s[0], s'[0];
    Assoc(Doubled(c), Token(s[1..]), "_");
    Assoc(Doubled(c), Token(s[1..]) + "_", Token(n));
    Assoc(Doubled(c'), Token(s'[1..]), "_");
    Assoc(Doubled(c'), Token(s'[1..]) + "_", Token(n'));
    SamePrefix(c, c', l, r);
  }

  lemma SharedHead(c: char, s: string, n: string, s': string, n': string)
    requires BoundaryShift(s, n, s', n')
    ensures BoundaryShift([c] + s, n, [c] + s', n')
  {
    if k: nat :| SplitsDifferently(s, n, s', n', k) {
      Assoc([c], s, Underscores(k));
      assert SplitsDifferently([c] + s, n, [c] + s', n', k);
    } else {
      var k: nat :| SplitsDifferently(s', n', s, n, k);
      Assoc([c], s', Underscores(k));
      assert SplitsDifferently([c] + s', n', [c] + s, n, k);
    }
  }

  lemma NothingBefore(t: string)
    ensures Token("") + "_" + t == "_" + t
  {}

  lemma EmptyCollisionShifts(n: string, s': string, n': string)
    requires Token("") + "_" + Token(n) == Token(s') + "_" + Token(n')
    ensures BoundaryShift("", n, s', n') && BoundaryShift(s', n', "", n)
  {
    NothingBefore(Token(n));
    var k := EmptySourceCollision(n, s', n');
  }

  lemma {:induction false} CollisionShifts(s: string, n: string, s': string, n': string)
    requires Token(s) + "_" + Token(n) == Token(s') + "_" + Token(n')
    ensures BoundaryShift(s, n, s', n')
    decreases |s|
  {
    if s == "" {
      EmptyCollisionShifts(n, s', n');
    } else if s' == "" {
      EmptyCollisionShifts(n', s, n);
    } else {
      PeelSharedHead(s, n, s', n');
      CollisionShifts(s[1..], n, s'[1..], n');
      SharedHead(s[0], s[1..], n, s'[1..], n');
      assert [s[0]] + s[1..] == s && [s[0]] + s'[1..] == s';
    }
  }

  /** The exact collision theorem: two ids share a trust file if and only if they differ at
      most in how one run of underscores is split between the end of the source and the start
      of the name. */
  lemma NamesCollideExactlyOnABoundaryShift(s: string, n: string, s': string, n': string)
    ensures FileName(s, n) == FileName(s', n') <==> BoundaryShift(s, n, s', n')
  {
    var l, r := Token(s) + "_" + Token(n), Token(s') + "_" + Token(n');
    if FileName(s, n) == FileName(s', n') {
      assert FileName(s, n)[..|l|] == l && FileName(s', n')[..|r|] == r;
      assert |l| == |r|;
      CollisionShifts(s, n, s', n');
    }
    if k: nat :| SplitsDifferently(s, n, s', n', k) {
      ShiftCollides(s, n, s', n', k);
    }
    if k: nat :| SplitsDifferently(s', n', s, n, k) {
      ShiftCollides(s', n', s, n, k);
    }
  }

  ghost predicate EndsInUnderscore(s: string)
  {
    s != "" && s[|s| - 1] == '_'
  }

  lemma TailOfUnderscores(s: string, k: nat)
    ensures k > 0 ==> EndsInUnderscore(s + Underscores(k))
  {}

  /** So the name is injective on every pair of sources neither of which ends in "_". */
  lemma NameInjectiveOffTrailingUnderscores(s: string, n: string, s': string, n': string)
    requires !EndsInUnderscore(s) && !EndsInUnderscore(s')
    requires FileName(s, n) == FileName(s', n')
    ensures s == s' && n == n'
  {
    NamesCollideExactlyOnABoundaryShift(s, n, s', n');
    if k: nat :| SplitsDifferently(s, n, s', n', k) {
      TailOfUnderscores(s, k);
      assert s' == s + "" && n == "" + n';
    } else {
      var k: nat :| SplitsDifferently(s', n', s, n, k);
      TailOfUnderscores(s', k);
      assert s == s' + "" && n' == "" + n;
    }
  }

  predicate IsSpace(c: char)
  {
    || c in {' ', '\t', '\n', '\r', '\U{0B}', '\U{0C}', '\U{85}', '\U{A0}'}
    || c in {'\U{1680}', '\U{2028}', '\U{2029}', '\U{202F}', '\U{205F}', '\U{3000}'}
    || '\U{2000}' <= c <= '\U{200A}'
  }

  function TrimSpace(s: string): string
  {
    if s == "" then s
    else if IsSpace(s[0]) then TrimSpace(s[1..])
    else if IsSpace(s[|s| - 1]) then TrimSpace(s[..|s| - 1])
    else s
  }

  lemma {:induction false} TrimSpaceLeavesWhatIsNotSpace(s: string)
    ensures TrimSpace(s) != "" <==> exists i :: 0 <= i < |s| && !IsSpace(s[i])
    ensures TrimSpace(s) != "" ==> !IsSpace(TrimSpace(s)[0]) && !IsSpace(TrimSpace(s)[|TrimSpace(s)| - 1])
    ensures TrimSpace(s) == s <==> s == "" || (!IsSpace(s[0]) && !IsSpace(s[|s| - 1]))
    ensures |TrimSpace(s)| <= |s|
  {
    if s != "" && IsSpace(s[0]) {
      TrimSpaceLeavesWhatIsNotSpace(s[1..]);
      assert forall i :: 0 <= i < |s| - 1 ==> s[1..][i] == s[i + 1];
      if i :| 0 <= i < |s| && !IsSpace(s[i]) { assert s[1..][i - 1] == s[i]; }
    } else if s != "" && IsSpace(s[|s| - 1]) {
      TrimSpaceLeavesWhatIsNotSpace(s[..|s| - 1]);
      assert s[0] == s[..|s| - 1][0] || |s| == 1;
    }
  }

  /** The shape a source or set name must have before any of this is reached. */
  predicate ValidPathSegment(v: string)
  {
    && v != ""
    && (forall i :: 0 <= i < |v| ==> v[i] !in {'/', '\\', '\0', '\n', '\r'})
    && v != "." && v != ".."
    && TrimSpace(v) == v
  }

  /** Two legal, distinct ids that do share a file. */
  lemma TwoSetsOneFile()
    ensures ValidPathSegment("a_") && ValidPathSegment("b") && ValidPathSegment("a") && ValidPathSegment("_b")
    ensures FileName("a_", "b") == FileName("a", "_b")
  {}

  lemma {:induction false} PlainTokenStays(v: string)
    requires forall i :: 0 <= i < |v| ==> v[i] != '_'
    ensures Token(v) == v
  {
    if v != "" {
      PlainTokenStays(v[1..]);
      assert [v[0]] + v[1..] == v;
    }
  }

  /** An id with no underscore in it gets the name it always had; and an underscore is doubled. */
  lemma PlainIdsKeepTheirName(source: string, name: string)
    requires forall i :: 0 <= i < |source| ==> source[i] != '_'
    requires forall i :: 0 <= i < |name| ==> name[i] != '_'
    ensures FileName(source, name) == source + "_" + name + "_known_hosts"
    ensures Token("_" + name) == "__" + name
  {
    PlainTokenStays(source);
    PlainTokenStays(name);
    assert ("_" + name)[1..] == name;
  }

  /** The whole colliding family: k underscores moved across the boundary. */
  lemma SplitCollides(s: string, n: string, k: nat)
    ensures FileName(s + Underscores(k), n) == FileName(s, Underscores(k) + n)
  {
    assert SplitsDifferently(s, Underscores(k) + n, s + Underscores(k), n, k);
    NamesCollideExactlyOnABoundaryShift(s, Underscores(k) + n, s + Underscores(k), n);
  }

  // ----- staying inside the directory -----

  lemma {:induction false} TokenKeepsOut(v: string, i: nat)
    requires i < |Token(v)|
    ensures Token(v)[i] == '_' || Token(v)[i] in v
  {
    if v[0] == '_' {
      if i >= 2 { TokenKeepsOut(v[1..], i - 2); }
    } else if i >= 1 {
      TokenKeepsOut(v[1..], i - 1);
    }
  }

  /** A name built from two valid segments is one plain path segment of its own, so joining
      it onto known_hosts.d cannot leave that directory: the path check is never what refuses. */
  lemma NameIsOnePlainSegment(source: string, name: string)
    requires ValidPathSegment(source) && ValidPathSegment(name)
    ensures forall c :: c in {'/', '\\', '\0', '\n', '\r'} ==> c !in FileName(source, name)
    ensures FileName(source, name) != "" && FileName(source, name) != "." && FileName(source, name) != ".."
  {
    var f := FileName(source, name);
    var a, b := Token(source), Token(name);
    forall i | 0 <= i < |f| ensures f[i] !in {'/', '\\', '\0', '\n', '\r'} {
      if i < |a| {
        TokenKeepsOut(source, i);
      } else if i == |a| {
      } else if i < |a| + 1 + |b| {
        TokenKeepsOut(name, i - |a| - 1);
        assert f[i] == b[i - |a| - 1];
      } else {
        assert f[i] == SUFFIX[i - |a| - 1 - |b|];
      }
    }
    assert |f| > 2;
  }

  /** A staged file is never any set's canonical file, so a create that truncates a canonical
      file cannot touch a line an edit staged. */
  lemma StagedIsNeverCanonical(path: string, source: string, name: string)
    requires StagedName(path)
    ensures path != FileName(source, name)
  {
    var s, n, digits :| AllDigits(digits) && digits != "" && path == FileName(s, n) + "." + digits;
    assert path[|path| - 1] == digits[|digits| - 1];
    var c := FileName(source, name);
    assert c[|c| - 1] == SUFFIX[|SUFFIX| - 1] == 's';
  }
}
