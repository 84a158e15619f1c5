/** Dropping credentials from a storage endpoint before it is printed. */
module Endpoint {

  predicate Delimiter(c: char)
  {
    c in {'/', '?', '#'}
  }

  predicate SeparatorAt(s: string, i: int)
  {
    0 <= i && i + 3 <= |s| && s[i] == ':' && s[i + 1] == '/' && s[i + 2] == '/'
  }

  /** strings.Index(s, "://") */
  function SeparatorIndex(s: string): (r: int)
    ensures r == -1 || SeparatorAt(s, r)
    ensures forall i :: SeparatorAt(s, i) ==> 0 <= r <= i
  {
    if s == "" then -1
    else if SeparatorAt(s, 0) then 0
    else
      var r := SeparatorIndex(s[1..]);
      assert forall i :: SeparatorAt(s, i) ==> SeparatorAt(s[1..], i - 1);
      if r < 0 then -1 else r + 1
  }

  /** How far the authority at the front of s reaches: up to the first "/", "?" or "#". */
  function AuthorityLength(s: string): (k: nat)
    ensures k <= |s|
    ensures forall i :: 0 <= i < k ==> !Delimiter(s[i])
    ensures k < |s| ==> Delimiter(s[k])
  {
    if s == "" || Delimiter(s[0]) then 0 else 1 + AuthorityLength(s[1..])
  }

  /** strings.LastIndex(s, "@") */
  function LastAt(s: string): (r: int)
    ensures -1 <= r < |s|
    ensures r >= 0 ==> s[r] == '@'
    ensures forall i :: r < i < |s| ==> s[i] != '@'
  {
    if s == "" then -1
    else if s[|s| - 1] == '@' then |s| - 1
    else LastAt(s[..|s| - 1])
  }

  function SchemeEnd(raw: string): (c: nat)
    ensures c <= |raw|
  {
    SeparatorIndex(raw) + if SeparatorIndex(raw) >= 0 then 3 else 1
  }

  /** The four pieces of an endpoint: scheme, userinfo up to and including the last "@" of the
      authority, host, and everything after the authority. */
  datatype Parts = Parts(scheme: string, userinfo: string, host: string, tail: string)

  function Split(raw: string): Parts
  {
    var rest := raw[SchemeEnd(raw)..];
    var authority, tail := rest[..AuthorityLength(rest)], rest[AuthorityLength(rest)..];
    var at := LastAt(authority);
    Parts(raw[..SchemeEnd(raw)], authority[..at + 1], authority[at + 1..], tail)
  }

  function Glue(p: Parts): string
  {
    p.scheme + (p.userinfo + (p.host + p.tail))
  }

  function WithoutUserinfo(raw: string): string
  {
    Glue(Split(raw).(userinfo := ""))
  }

  // ----- nothing else is touched -----

  predicate NoDelimiter(s: string)
  {
    forall i :: 0 <= i < |s| ==> !Delimiter(s[i])
  }

  predicate NoAt(s: string)
  {
    forall i :: 0 <= i < |s| ==> s[i] != '@'
  }

  ghost predicate SchemeFits(raw: string, c: nat)
  {
    if c == 0 then forall i :: !SeparatorAt(raw, i)
    else SeparatorAt(raw, c - 3) && forall i :: SeparatorAt(raw, i) ==> i >= c - 3
  }

  /** What each piece is, without saying how it was found. */
  ghost predicate Decomposes(raw: string, p: Parts)
  {
    && raw == Glue(p)
    && (p.userinfo == "" || p.userinfo[|p.userinfo| - 1] == '@')
    && NoAt(p.host)
    && NoDelimiter(p.userinfo) && NoDelimiter(p.host)
    && (p.tail == "" || Delimiter(p.tail[0]))
    && SchemeFits(raw, |p.scheme|)
  }

  lemma GlueAt(p: Parts)
    ensures var s := Glue(p);
      && |s| == |p.scheme| + |p.userinfo| + |p.host| + |p.tail|
      && s[..|p.scheme|] == p.scheme && s[|p.scheme|..] == p.userinfo + (p.host + p.tail)
  {}

  lemma PiecesFit(raw: string, c: nat, authority: string, tail: string, n: nat)
    requires c <= |raw| && SchemeFits(raw, c) && raw[c..] == authority + tail
    requires NoDelimiter(authority) && (tail == "" || Delimiter(tail[0]))
    requires n <= |authority| && (n == 0 || authority[n - 1] == '@')
    requires forall i :: n <= i < |authority| ==> authority[i] != '@'
    ensures Decomposes(raw, Parts(raw[..c], authority[..n], authority[n..], tail))
  {}

  /** The code's pieces fit the description: scheme and tail are the endpoint's own, and what
      is dropped is a run of the authority that ends in its last "@". */
  lemma OnlyUserinfoIsRemoved(raw: string)
    ensures Decomposes(raw, Split(raw))
  {
    var c := SchemeEnd(raw);
    var rest := raw[c..];
    var k := AuthorityLength(rest);
    assert SchemeFits(raw, c);
    PiecesFit(raw, c, rest[..k], rest[k..], LastAt(rest[..k]) + 1);
  }

  lemma AuthorityOf(front: string, tail: string)
    requires NoDelimiter(front) && (tail == "" || Delimiter(tail[0]))
    ensures AuthorityLength(front + tail) == |front|
    ensures (front + tail)[..|front|] == front && (front + tail)[|front|..] == tail
  {}

  lemma LastAtOf(userinfo: string, host: string)
    requires userinfo == "" || userinfo[|userinfo| - 1] == '@'
    requires NoAt(host)
    ensures LastAt(userinfo + host) == |userinfo| - 1
    ensures (userinfo + host)[..|userinfo|] == userinfo && (userinfo + host)[|userinfo|..] == host
  {
    var s := userinfo + host;
    assert forall i :: |userinfo| <= i < |s| ==> s[i] == host[i - |userinfo|];
    assert userinfo != "" ==> s[|userinfo| - 1] == '@';
  }

  /** And the description fits only them. */
  lemma PiecesAreUnique(raw: string, p: Parts)
    requires Decomposes(raw, p)
    ensures Split(raw) == p
  {
    GlueAt(p);
    assert SchemeEnd(raw) == |p.scheme|;
    var rest, front := p.userinfo + (p.host + p.tail), p.userinfo + p.host;
    assert raw[SchemeEnd(raw)..] == rest == front + p.tail;
    assert NoDelimiter(front);
    AuthorityOf(front, p.tail);
    LastAtOf(p.userinfo, p.host);
  }

  lemma NoSeparatorInSuffix(s: string, d: nat)
    requires d <= |s| && forall i :: !SeparatorAt(s, i)
    ensures forall i :: !SeparatorAt(s[d..], i)
  {
    forall i | 0 <= i ensures !SeparatorAt(s[d..], i) {
      assert !SeparatorAt(s, i + d);
    }
  }

  lemma FirstSeparatorShared(s: string, t: string, c: nat)
    requires 3 <= c <= |s| && c <= |t| && s[..c] == t[..c]
    requires SeparatorAt(s, c - 3) && forall i :: SeparatorAt(s, i) ==> i >= c - 3
    ensures SeparatorAt(t, c - 3) && forall i :: SeparatorAt(t, i) ==> i >= c - 3
  {
    assert forall i :: 0 <= i < c ==> t[i] == s[..c][i];
    forall i | SeparatorAt(t, i) ensures i >= c - 3 {
      if i < c - 3 { assert SeparatorAt(s, i); }
    }
  }

  lemma StrippedDecomposes(raw: string, p: Parts)
    requires Decomposes(raw, p)
    ensures Decomposes(Glue(p.(userinfo := "")), p.(userinfo := ""))
  {
    var q := p.(userinfo := "");
    var out, c := Glue(q), |p.scheme|;
    GlueAt(p);
    GlueAt(q);
    if c == 0 {
      NoSeparatorInSuffix(raw, |p.userinfo|);
      assert out == raw[|p.userinfo|..];
    } else {
      FirstSeparatorShared(raw, out, c);
    }
  }

  lemma StrippingIsIdempotent(raw: string)
    ensures WithoutUserinfo(WithoutUserinfo(raw)) == WithoutUserinfo(raw)
    ensures Split(WithoutUserinfo(raw)) == Split(raw).(userinfo := "")
  {
    OnlyUserinfoIsRemoved(raw);
    StrippedDecomposes(raw, Split(raw));
    PiecesAreUnique(WithoutUserinfo(raw), Split(raw).(userinfo := ""));
  }

  // ----- against RFC 3986 -----

  predicate StartsWithSlashes(s: string)
  {
    |s| >= 2 && s[0] == '/' && s[1] == '/'
  }

  function SchemeRun(s: string): (k: nat)
    ensures k <= |s|
    ensures forall i :: 0 <= i < k ==> s[i] != ':' && !Delimiter(s[i])
    ensures k < |s| ==> s[k] == ':' || Delimiter(s[k])
  {
    if s == "" || s[0] == ':' || Delimiter(s[0]) then 0 else 1 + SchemeRun(s[1..])
  }

  /** The scheme of RFC 3986 appendix B, colon included: a run of characters other than
      ":", "/", "?" and "#" that a colon ends. */
  function RfcSchemeLength(s: string): (k: nat)
    ensures k <= |s|
  {
    var run := SchemeRun(s);
    if 0 < run < |s| && s[run] == ':' then run + 1 else 0
  }

  datatype Authority = Absent | Present(text: string)

  function NetworkAuthority(s: string): Authority
  {
    if StartsWithSlashes(s) then Present(s[2..][..AuthorityLength(s[2..])]) else Absent
  }

  /** The authority of section 3.2: what follows "//", up to the first "/", "?" or "#". */
  function RfcAuthority(s: string): Authority
  {
    NetworkAuthority(s[RfcSchemeLength(s)..])
  }

  predicate HasUserinfo(a: Authority)
  {
    a.Present? && '@' in a.text
  }

  /** An RFC scheme followed by "//": the spelling every storage endpoint is documented with. */
  predicate Schemed(s: string)
  {
    RfcSchemeLength(s) > 0 && StartsWithSlashes(s[RfcSchemeLength(s)..])
  }

  /** The two spellings the textual rule does not look inside: one that starts with "//", and
      one with no "://" in which nothing but userinfo stands before a "//". */
  function Overlooked(raw: string): Authority
  {
    if StartsWithSlashes(raw) then NetworkAuthority(raw)
    else
      var p := Split(raw);
      if p.scheme == "" && p.host == "" then NetworkAuthority(p.tail) else Absent
  }

  /** With an RFC scheme the first "://" is the one after it. */
  lemma SchemeEndsAtSeparator(s: string)
    requires Schemed(s)
    ensures SeparatorIndex(s) == RfcSchemeLength(s) - 1
  {}

  /** Under a scheme the authority that is left is the host and nothing else. */
  lemma SchemedAuthority(s: string, p: Parts)
    requires Decomposes(s, p) && Schemed(s) && p.userinfo == ""
    ensures RfcAuthority(s) == Present(p.host)
  {
    SchemeEndsAtSeparator(s);
    PiecesAreUnique(s, p);
    GlueAt(p);
    var k := RfcSchemeLength(s);
    assert |p.scheme| == k + 2;
    assert s[k..][2..] == s[k + 2..] == p.host + p.tail;
    AuthorityOf(p.host, p.tail);
  }

  lemma SchemedIsNotSlashed(s: string)
    requires StartsWithSlashes(s)
    ensures !Schemed(s) && RfcAuthority(s) == NetworkAuthority(s)
  {}

  lemma UnschemedHasNoAuthority(s: string)
    requires !Schemed(s) && !StartsWithSlashes(s)
    ensures RfcAuthority(s) == Absent
  {}

  lemma SharedAuthority(s: string, t: string, c: nat)
    requires 0 < c <= |s| && c <= |t|
    requires s[..c] == t[..c] && Delimiter(s[c - 1])
    ensures AuthorityLength(s) == AuthorityLength(t) <= c - 1
    ensures s[..AuthorityLength(s)] == t[..AuthorityLength(t)]
  {}

  lemma NothingBeforeADelimiter(u: string, t: string)
    requires NoDelimiter(u) && u + t != "" && Delimiter((u + t)[0])
    ensures u == ""
  {}

  /** A leading "//" is kept, with whatever authority follows it. */
  lemma SlashesStay(raw: string, p: Parts)
    requires Decomposes(raw, p) && StartsWithSlashes(raw)
    ensures var out := Glue(p.(userinfo := ""));
      StartsWithSlashes(out) && NetworkAuthority(out) == NetworkAuthority(raw)
  {
    var out, c := Glue(p.(userinfo := "")), |p.scheme|;
    GlueAt(p);
    GlueAt(p.(userinfo := ""));
    if c == 0 {
      NothingBeforeADelimiter(p.userinfo, p.host + p.tail);
      assert out == raw;
    } else {
      assert forall i :: 0 <= i < c ==> out[i] == p.scheme[i] == raw[i];
      assert raw[c - 3] == ':' && c >= 5;
      assert raw[2..][..c - 2] == out[2..][..c - 2];
      assert Delimiter(raw[2..][c - 3]);
      SharedAuthority(raw[2..], out[2..], c - 2);
    }
  }

  /** A leading "//" that was not there is uncovered only by userinfo standing alone. */
  lemma SlashesUncovered(raw: string, p: Parts)
    requires Decomposes(raw, p) && !StartsWithSlashes(raw)
    ensures var out := Glue(p.(userinfo := ""));
      && (StartsWithSlashes(out) ==> p.scheme == "" && p.host == "")
      && (p.scheme == "" && p.host == "" ==> out == p.tail)
  {}

  /** Exactly when userinfo survives in the sense of RFC 3986: for no endpoint with a scheme,
      and for no other unless it spells its authority with a bare "//". */
  lemma UserinfoSurvivesExactlyWhenOverlooked(raw: string)
    ensures HasUserinfo(RfcAuthority(WithoutUserinfo(raw))) <==> HasUserinfo(Overlooked(raw))
  {
    var p, out := Split(raw), WithoutUserinfo(raw);
    OnlyUserinfoIsRemoved(raw);
    StrippedDecomposes(raw, p);
    if StartsWithSlashes(raw) {
      SlashesStay(raw, p);
      SchemedIsNotSlashed(out);
    } else {
      SlashesUncovered(raw, p);
      if StartsWithSlashes(out) {
        SchemedIsNotSlashed(out);
      } else if Schemed(out) {
        SchemedAuthority(out, p.(userinfo := ""));
        SchemeEndsAtSeparator(out);
        PiecesAreUnique(out, p.(userinfo := ""));
      } else {
        UnschemedHasNoAuthority(out);
      }
    }
  }

  /** An endpoint that begins with a scheme is always clean. */
  lemma SchemedEndpointIsClean(raw: string)
    requires Schemed(raw)
    ensures !HasUserinfo(RfcAuthority(WithoutUserinfo(raw)))
  {
    SchemeEndsAtSeparator(raw);
    if StartsWithSlashes(raw) { SchemedIsNotSlashed(raw); }
    UserinfoSurvivesExactlyWhenOverlooked(raw);
  }

  /** The network-path spelling keeps its credentials, whoever the user and the host. */
  lemma NetworkPathKeepsItsUserinfo(user: string, host: string)
    requires NoDelimiter(user) && NoDelimiter(host)
    ensures HasUserinfo(RfcAuthority(WithoutUserinfo(['/', '/'] + (user + ['@'] + host))))
  {
    var front := user + ['@'] + host;
    var raw := ['/', '/'] + front;
    assert raw[2..] == front && front + "" == front;
    AuthorityOf(front, "");
    assert front[|user|] == '@';
    UserinfoSurvivesExactlyWhenOverlooked(raw);
  }
}
