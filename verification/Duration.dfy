/** Duration flags: what the command echo prints for a number of seconds, read back by the
    grammar time.ParseDuration accepts. */
module Duration {
  import opened Decimal
  import opened Wrappers

  // ----- the printer (machine arithmetic, as the source does it) -----

  /** Two's complement negation: the minimum has no positive counterpart and stays put. */
  function Negate(v: int64): int64
  {
    if v == MIN_INT64 then v else -v
  }

  /** Division and remainder truncate toward zero. */
  function Quot(a: int, b: int): int
    requires b > 0
  {
    if a >= 0 then a / b else -((-a) / b)
  }

  function Rem(a: int, b: int): int
    requires b > 0
  {
    if a >= 0 then a % b else -((-a) % b)
  }

  function Component(n: nat, unit: char): string
  {
    if n == 0 then "" else FormatInt(n) + [unit]
  }

  function Body(n: nat): string
  {
    Component(n / 3600, 'h') + (Component(n % 3600 / 60, 'm') + Component(n % 60, 's'))
  }

  function Magnitude(v: int): nat { if v < 0 then -v else v }

  /** The normal form: every component that is zero left out, every other printed whole. */
  function NormalForm(v: int): string
  {
    if v == 0 then "0s"
    else
      var n := Magnitude(v);
      (if v < 0 then "-" else "") + Body(n)
  }

  /** It is normal: hours, minutes and seconds add up to the value, minutes and seconds stay below
      sixty, what is zero is left out, and no number is padded. */
  lemma TheFormIsNormal(v: int) returns (h: nat, m: nat, s: nat)
    requires v != 0
    ensures Magnitude(v) == 3600 * h + 60 * m + s && m < 60 && s < 60
    ensures NormalForm(v) ==
      (if v < 0 then "-" else "")
      + ((if h == 0 then "" else FormatNat(h) + ['h']) + ((if m == 0 then "" else FormatNat(m) + ['m']) + (if s == 0 then "" else FormatNat(s) + ['s'])))
    ensures (h > 0 ==> FormatNat(h)[0] != '0') && (m > 0 ==> FormatNat(m)[0] != '0') && (s > 0 ==> FormatNat(s)[0] != '0')
  {
    var n := Magnitude(v);
    h, m, s := n / 3600, n % 3600 / 60, n % 60;
    NoLeadingZero(h);
    NoLeadingZero(m);
    NoLeadingZero(s);
  }

  /** What the builder holds once it has been given one component. */
  function Written(b: string, n: int, unit: char): string
  {
    if n > 0 then (b + FormatInt(n)) + [unit] else b
  }

  lemma WrittenInPieces(sign: string, h: nat, m: nat, s: nat)
    ensures Written(Written(Written(sign, h, 'h'), m, 'm'), s, 's')
         == sign + (Component(h, 'h') + (Component(m, 'm') + Component(s, 's')))
  {}

  method Seconds(v: int64) returns (text: string)
    ensures v != MIN_INT64 ==> text == NormalForm(v)
    ensures v == MIN_INT64 ==> text == "-"
  {
    if v == 0 {
      return "0s";
    }
    var n: int64, sign := v, "";
    if n < 0 {
      sign, n := "-", Negate(n);
    }
    var b := sign;
    var h := Quot(n, 3600);
    if h > 0 {
      b := b + FormatInt(h);
      b := b + ['h'];
    }
    var m := Quot(Rem(n, 3600), 60);
    if m > 0 {
      b := b + FormatInt(m);
      b := b + ['m'];
    }
    var s := Rem(n, 60);
    if s > 0 {
      b := b + FormatInt(s);
      b := b + ['s'];
    }
    if v != MIN_INT64 {
      WrittenInPieces(sign, h, m, s);
    }
    text := b;
  }

  // ----- the reader -----

  const NANOS: int := 1_000_000_000

  /** 1<<63, the bound every accumulator of time.ParseDuration is checked against. */
  const TOP: int := 0x8000_0000_0000_0000

  function UnitNanos(u: string): Option<nat>
  {
    if u == "h" then Some(3600 * NANOS)
    else if u == "m" then Some(60 * NANOS)
    else if u == "s" then Some(NANOS)
    else None
  }

  /** How many leading characters of s are digits. */
  function DigitRun(s: string): (k: nat)
    ensures k <= |s| && AllDigits(s[..k]) && (k < |s| ==> !IsDigit(s[k]))
  {
    if s == "" || !IsDigit(s[0]) then 0 else 1 + DigitRun(s[1..])
  }

  /** A unit is everything up to the next digit or point. */
  function UnitRun(s: string): (k: nat)
    ensures k <= |s|
    ensures k < |s| ==> IsDigit(s[k]) || s[k] == '.'
    ensures forall i :: 0 <= i < k ==> !IsDigit(s[i]) && s[i] != '.'
  {
    if s == "" || IsDigit(s[0]) || s[0] == '.' then 0 else 1 + UnitRun(s[1..])
  }

  /** The accumulating loop of time.ParseDuration over whole h, m and s components, from the
      nanoseconds read so far. With `bounded` every overflow check of the library applies;
      without it the arithmetic is over unbounded integers. */
  function Accumulate(s: string, sofar: nat, bounded: bool): Option<nat>
    decreases |s|
  {
    if s == "" then Some(sofar)
    else
      var k := DigitRun(s);
      if k == 0 then None
      else
        var v, rest := NatValue(s[..k]), s[k..];
        var u := UnitRun(rest);
        match UnitNanos(rest[..u])
        case None => None
        case Some(unit) =>
          if bounded && (v > TOP || v > TOP / unit || sofar + v * unit > TOP) then None
          else Accumulate(rest[u..], sofar + v * unit, bounded)
  }

  function ParseUnsigned(s: string, neg: bool, bounded: bool): Option<int>
  {
    if s == "0" then Some(0)
    else if s == "" then None
    else
      match Accumulate(s, 0, bounded)
      case None => None
      case Some(d) =>
        if neg then Some(0 - d as int)
        else if bounded && d > TOP - 1 then None
        else Some(d)
  }

  function ParseDuration(text: string, bounded: bool): Option<int>
  {
    if text != "" && text[0] == '-' then ParseUnsigned(text[1..], true, bounded)
    else if text != "" && text[0] == '+' then ParseUnsigned(text[1..], false, bounded)
    else ParseUnsigned(text, false, bounded)
  }

  // ----- the round trip -----

  lemma {:induction false} RunOfDigits(d: string, t: string)
    requires AllDigits(d) && (t == "" || !IsDigit(t[0]))
    ensures DigitRun(d + t) == |d|
  {
    if d == "" {
      assert d + t == t;
    } else {
      RunOfDigits(d[1..], t);
      assert (d + t)[1..] == d[1..] + t;
    }
  }

  lemma TimesGrows(a: nat, b: nat, c: nat)
    requires a <= b
    ensures a * c <= b * c
  {}

  /** The three overflow checks of one step come to one bound on the sum. */
  lemma ChecksBoundTheSum(v: nat, unit: nat, sofar: nat)
    requires unit > 0
    ensures (v > TOP || v > TOP / unit || sofar + v * unit > TOP) <==> sofar + v * unit > TOP
  {
    var q := TOP / unit;
    assert TOP == q * unit + TOP % unit;
    if v > q {
      TimesGrows(q + 1, v, unit);
      assert (q + 1) * unit == q * unit + unit;
    } else {
      TimesGrows(v, q, unit);
    }
    TimesGrows(1, unit, v);
  }

  function Checked(total: nat, bounded: bool): Option<nat>
  {
    if bounded && total > TOP then None else Some(total)
  }

  predicate Delimits(t: string)
  {
    t == "" || IsDigit(t[0])
  }

  /** c is read as v nanoseconds, whatever came before it and whatever follows. */
  ghost predicate Reads(c: string, v: nat, bounded: bool)
  {
    && (forall t, x: nat | Delimits(t) && Checked(x, bounded).Some? ::
          Accumulate(c + t, x, bounded) ==
          if Checked(x + v, bounded).None? then None else Accumulate(t, x + v, bounded))
    && (forall t | Delimits(t) :: Delimits(c + t))
  }

  lemma UnitEndsHere(unit: char, t: string)
    requires !IsDigit(unit) && unit != '.' && Delimits(t)
    ensures UnitRun([unit] + t) == 1 && ([unit] + t)[..1] == [unit] && ([unit] + t)[1..] == t
  {}

  lemma ReadOne(d: string, unit: char, w: nat, t: string, sofar: nat, bounded: bool)
    requires UnitNanos([unit]) == Some(w)
    requires AllDigits(d) && d != "" && Delimits(t)
    ensures Accumulate(d + ([unit] + t), sofar, bounded) ==
      var total := sofar + NatValue(d) * w;
      if Checked(total, bounded).None? then None else Accumulate(t, total, bounded)
  {
    var rest := [unit] + t;
    var s := d + rest;
    RunOfDigits(d, rest);
    assert s[..|d|] == d && s[|d|..] == rest;
    UnitEndsHere(unit, t);
    ChecksBoundTheSum(NatValue(d), w, sofar);
    assert s != "" && DigitRun(s) == |d| > 0;
  }

  lemma ReadComponent(n: nat, unit: char, w: nat, t: string, sofar: nat, bounded: bool)
    requires UnitNanos([unit]) == Some(w)
    requires Delimits(t) && Checked(sofar, bounded).Some?
    ensures Accumulate(Component(n, unit) + t, sofar, bounded) ==
      if Checked(sofar + n * w, bounded).None? then None else Accumulate(t, sofar + n * w, bounded)
  {
    if n == 0 {
      assert Component(n, unit) + t == t;
    } else {
      FormatNatReadsBack(n);
      ReadOne(FormatNat(n), unit, w, t, sofar, bounded);
      Assoc(FormatNat(n), [unit], t);
    }
  }

  lemma ComponentReads(n: nat, unit: char, w: nat, bounded: bool)
    requires UnitNanos([unit]) == Some(w)
    ensures Reads(Component(n, unit), n * w, bounded)
  {
    var c := Component(n, unit);
    forall t, x: nat | Delimits(t) && Checked(x, bounded).Some?
      ensures Accumulate(c + t, x, bounded) ==
        if Checked(x + n * w, bounded).None? then None else Accumulate(t, x + n * w, bounded)
    {
      ReadComponent(n, unit, w, t, x, bounded);
    }
    FormatNatReadsBack(n);
    forall t | Delimits(t) ensures Delimits(c + t) {
      if n == 0 { assert c + t == t; } else { assert (c + t)[0] == FormatNat(n)[0]; }
    }
  }

  lemma ReadsInSequence(c: string, v: nat, d: string, w: nat, bounded: bool)
    requires Reads(c, v, bounded) && Reads(d, w, bounded)
    ensures Reads(c + d, v + w, bounded)
  {
    forall t, x: nat | Delimits(t) && Checked(x, bounded).Some?
      ensures Accumulate((c + d) + t, x, bounded) ==
        if Checked(x + (v + w), bounded).None? then None else Accumulate(t, x + (v + w), bounded)
    {
      Assoc(c, d, t);
      assert Delimits(d + t);
      assert Accumulate(c + (d + t), x, bounded) ==
        if Checked(x + v, bounded).None? then None else Accumulate(d + t, x + v, bounded);
    }
    forall t | Delimits(t) ensures Delimits((c + d) + t) {
      Assoc(c, d, t);
      assert Delimits(d + t);
    }
  }

  lemma ReadsThree(c: string, u: nat, d: string, v: nat, e: string, w: nat, bounded: bool)
    requires Reads(c, u, bounded) && Reads(d, v, bounded) && Reads(e, w, bounded)
    ensures Reads(c + (d + e), u + (v + w), bounded)
  {
    ReadsInSequence(d, v, e, w, bounded);
    ReadsInSequence(c, u, d + e, v + w, bounded);
  }

  lemma SplitNanos(n: nat)
    ensures n / 3600 * (3600 * NANOS) + (n % 3600 / 60 * (60 * NANOS) + n % 60 * NANOS) == n * NANOS
  {}

  /** The unsigned part is read as n seconds. */
  lemma BodyReads(n: nat, bounded: bool)
    ensures Reads(Body(n), n * NANOS, bounded)
  {
    var h, m, s := n / 3600, n % 3600 / 60, n % 60;
    ComponentReads(h, 'h', 3600 * NANOS, bounded);
    ComponentReads(m, 'm', 60 * NANOS, bounded);
    ComponentReads(s, 's', NANOS, bounded);
    ReadsThree(Component(h, 'h'), h * (3600 * NANOS), Component(m, 'm'), m * (60 * NANOS), Component(s, 's'), s * NANOS, bounded);
    SplitNanos(n);
  }

  lemma BodyStartsWithADigit(n: nat)
    requires n > 0
    ensures |Body(n)| > 1 && IsDigit(Body(n)[0])
  {
    BodyReads(n, false);
    assert Body(n) + "" == Body(n);
    var h, m, s := n / 3600, n % 3600 / 60, n % 60;
    FormatNatReadsBack(h);
    FormatNatReadsBack(m);
    FormatNatReadsBack(s);
  }

  lemma ReadsAlone(c: string, v: nat, bounded: bool)
    requires Reads(c, v, bounded)
    ensures Accumulate(c, 0, bounded) == Checked(v, bounded)
  {
    assert c + "" == c && Delimits("") && Checked(0, bounded).Some?;
    assert Accumulate(c + "", 0, bounded) ==
      if Checked(0 + v, bounded).None? then None else Accumulate("", 0 + v, bounded);
  }

  lemma SignApplies(body: string, sign: string, bounded: bool)
    requires body != "" && IsDigit(body[0]) && sign in {"", "-"}
    ensures ParseDuration(sign + body, bounded) == ParseUnsigned(body, sign == "-", bounded)
  {
    var text := sign + body;
    if sign == "-" {
      assert text[0] == '-' && text[1..] == body;
    } else {
      assert text == body;
    }
  }

  /** The sign in front of a body that starts with a digit. */
  lemma ReadSign(body: string, v: nat, sign: string, bounded: bool)
    requires Reads(body, v, bounded) && |body| > 1 && IsDigit(body[0]) && sign in {"", "-"}
    ensures ParseDuration(sign + body, bounded) ==
      if Checked(v, bounded).None? then None
      else if sign == "-" then Some(0 - v as int)
      else if bounded && v > TOP - 1 then None else Some(v)
  {
    ReadsAlone(body, v, bounded);
    assert ParseUnsigned(body, sign == "-", bounded) ==
      if Checked(v, bounded).None? then None
      else if sign == "-" then Some(0 - v as int)
      else if bounded && v > TOP - 1 then None else Some(v);
    SignApplies(body, sign, bounded);
  }

  lemma ReadSignedBody(body: string, n: nat, v: int, bounded: bool)
    requires Reads(body, n * NANOS, bounded) && |body| > 1 && IsDigit(body[0]) && n == Magnitude(v) && v != 0
    ensures ParseDuration((if v < 0 then "-" else "") + body, bounded) ==
      if bounded && !(-9223372036 <= v <= 9223372036) then None else Some(v * NANOS)
  {
    ReadSign(body, n * NANOS, if v < 0 then "-" else "", bounded);
  }

  lemma ReadSigned(v: int64, bounded: bool)
    requires v != MIN_INT64 && v != 0
    ensures ParseDuration(NormalForm(v), bounded) ==
      if bounded && !(-9223372036 <= v <= 9223372036) then None else Some(v * NANOS)
  {
    var n := Magnitude(v);
    var body := Body(n);
    BodyReads(n, bounded);
    BodyStartsWithADigit(n);
    ReadSignedBody(body, n, v, bounded);
    assert NormalForm(v) == (if v < 0 then "-" else "") + body;
  }

  lemma ReadZero(bounded: bool)
    ensures ParseDuration("0s", bounded) == Some(0)
  {}

  /** Over unbounded integers every value above the minimum reads back as itself. */
  lemma SecondsReadBack(v: int64)
    requires v != MIN_INT64
    ensures ParseDuration(NormalForm(v), false) == Some(v * NANOS)
  {
    if v != 0 {
      ReadSigned(v, false);
    } else {
      ReadZero(false);
    }
  }

  /** With the library's own overflow checks, exactly the values up to 9223372036 seconds in
      either direction read back; every other one is refused, never read as something else. */
  lemma SecondsFitExactly(v: int64)
    requires v != MIN_INT64
    ensures ParseDuration(NormalForm(v), true) ==
      if -9223372036 <= v <= 9223372036 then Some(v * NANOS) else None
  {
    if v != 0 {
      ReadSigned(v, true);
    } else {
      ReadZero(true);
    }
  }

  /** The minimum is the one value whose printed form no reader accepts. */
  lemma MinimumDoesNotReadBack(bounded: bool)
    ensures ParseDuration("-", bounded) == None
  {}

  /** So distinct values are printed differently. */
  lemma NormalFormInjective(v: int64, w: int64)
    requires v != MIN_INT64 && w != MIN_INT64
    requires NormalForm(v) == NormalForm(w)
    ensures v == w
  {
    SecondsReadBack(v);
    SecondsReadBack(w);
  }
}
