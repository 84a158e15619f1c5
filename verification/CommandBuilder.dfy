/** The builder every echoed command goes through. It is the only thing that can say a
    position is a stand-in; what a caller sends cannot. */
module CommandBuilder {
  import opened Wrappers
  import opened ShellLine

  const BINARY := "retnd"

  datatype Call =
    | Flag(name: string, value: string)
    | FlagIfSet(name: string, value: string)
    | Bare(name: string)
    | Assigned(name: string, on: bool)
    | PlaceholderFlag(name: string, what: string)
    | Refuse(why: string)

  function NameValue(name: string, value: string): (ws: seq<string>)
    ensures |ws| == 2
  {
    ["--" + name, value]
  }

  function StandIn(what: string): (s: string)
    ensures s != "" && s[0] == '<'
  {
    "<" + what + ">"
  }

  /** The words one call appends. */
  function Added(c: Call): seq<string>
  {
    match c
    case Flag(name, value) => NameValue(name, value)
    case FlagIfSet(name, value) => if value == "" then [] else NameValue(name, value)
    case Bare(name) => ["--" + name]
    case Assigned(name, on) => ["--" + name + "=" + if on then "true" else "false"]
    case PlaceholderFlag(name, what) => NameValue(name, StandIn(what))
    case Refuse(_) => []
  }

  /** The argv and the marked positions a whole sequence of calls leaves behind. */
  function Argv(words: seq<string>, calls: seq<Call>): seq<string>
  {
    if calls == [] then [BINARY] + words
    else Argv(words, calls[..|calls| - 1]) + Added(calls[|calls| - 1])
  }

  function StandIns(words: seq<string>, calls: seq<Call>): set<int>
  {
    if calls == [] then {}
    else
      var before := calls[..|calls| - 1];
      StandIns(words, before) +
      if calls[|calls| - 1].PlaceholderFlag? then {|Argv(words, before)| + 1} else {}
  }

  function Gap(calls: seq<Call>): string
  {
    if calls == [] then ""
    else
      var last := calls[|calls| - 1];
      if last.Refuse? then last.why else Gap(calls[..|calls| - 1])
  }

  predicate AnyStandIn(calls: seq<Call>)
  {
    exists k :: 0 <= k < |calls| && calls[k].PlaceholderFlag?
  }

  lemma OneMore(words: seq<string>, calls: seq<Call>, c: Call)
    ensures var more := calls + [c];
      && Argv(words, more) == Argv(words, calls) + Added(c)
      && StandIns(words, more) == StandIns(words, calls) + (if c.PlaceholderFlag? then {|Argv(words, calls)| + 1} else {})
      && Gap(more) == (if c.Refuse? then c.why else Gap(calls))
      && (AnyStandIn(more) <==> c.PlaceholderFlag? || AnyStandIn(calls))
  {
    var more := calls + [c];
    assert more[..|more| - 1] == calls && more[|more| - 1] == c;
    assert forall k :: 0 <= k < |calls| ==> more[k] == calls[k];
  }

  class Cmd {
    var argv: seq<string>
    var placeholder: bool
    var placeholderAt: set<int>
    var gap: string

    ghost const words: seq<string>
    ghost var calls: seq<Call>

    ghost predicate Valid()
      reads this
    {
      && argv == Argv(words, calls)
      && placeholderAt == StandIns(words, calls)
      && (placeholder <==> AnyStandIn(calls))
      && gap == Gap(calls)
    }

    constructor (words: seq<string>)
      ensures Valid() && this.words == words && calls == []
      ensures argv == ["retnd"] + words && !placeholder && placeholderAt == {} && gap == ""
    {
      argv := [BINARY] + words;
      placeholder := false;
      placeholderAt := {};
      gap := "";
      this.words := words;
      calls := [];
    }

    /** Every builder method below starts here: one more call on record, nothing forgotten. */
    ghost method Record(c: Call)
      requires Valid()
      modifies this`calls
      ensures calls == old(calls) + [c]
      ensures Argv(words, calls) == argv + Added(c)
      ensures StandIns(words, calls) == placeholderAt + if c.PlaceholderFlag? then {|argv| + 1} else {}
      ensures Gap(calls) == if c.Refuse? then c.why else gap
      ensures AnyStandIn(calls) <==> c.PlaceholderFlag? || placeholder
    {
      OneMore(words, calls, c);
      calls := calls + [c];
    }

    method AddFlag(name: string, value: string)
      requires Valid()
      modifies this
      ensures Valid() && calls == old(calls) + [Flag(name, value)]
      ensures argv == old(argv) + ["--" + name, value] && placeholderAt == old(placeholderAt) && gap == old(gap)
    {
      Record(Flag(name, value));
      argv := argv + NameValue(name, value);
    }

    method AddFlagIfSet(name: string, value: string)
      requires Valid()
      modifies this
      ensures Valid() && calls == old(calls) + [FlagIfSet(name, value)]
      ensures argv == old(argv) + (if value == "" then [] else ["--" + name, value])
      ensures placeholderAt == old(placeholderAt) && gap == old(gap)
    {
      Record(FlagIfSet(name, value));
      if value != "" {
        argv := argv + NameValue(name, value);
      }
    }

    method AddBare(name: string)
      requires Valid()
      modifies this
      ensures Valid() && calls == old(calls) + [Bare(name)]
      ensures argv == old(argv) + ["--" + name] && placeholderAt == old(placeholderAt) && gap == old(gap)
    {
      Record(Bare(name));
      argv := argv + ["--" + name];
    }

    method AddAssigned(name: string, on: bool)
      requires Valid()
      modifies this
      ensures Valid() && calls == old(calls) + [Assigned(name, on)]
      ensures on ==> argv == old(argv) + ["--" + name + "=" + "true"]
      ensures !on ==> argv == old(argv) + ["--" + name + "=" + "false"]
      ensures placeholderAt == old(placeholderAt) && gap == old(gap)
    {
      Record(Assigned(name, on));
      argv := argv + ["--" + name + "=" + if on then "true" else "false"];
    }

    method AddPlaceholderFlag(name: string, what: string)
      requires Valid()
      modifies this
      ensures Valid() && calls == old(calls) + [PlaceholderFlag(name, what)]
      ensures argv == old(argv) + ["--" + name, "<" + what + ">"]
      ensures placeholder && placeholderAt == old(placeholderAt) + {|old(argv)| + 1} && gap == old(gap)
    {
      ghost var at := |argv| + 1;
      Record(PlaceholderFlag(name, what));
      argv := argv + NameValue(name, StandIn(what));
      assert |argv| - 1 == at;
      placeholderAt, placeholder := placeholderAt + {|argv| - 1}, true;
      assert placeholderAt == StandIns(words, calls) && argv == Argv(words, calls);
    }

    method AddRefusal(why: string)
      requires Valid()
      modifies this
      ensures Valid() && calls == old(calls) + [Refuse(why)]
      ensures gap == why && argv == old(argv) && placeholderAt == old(placeholderAt)
    {
      Record(Refuse(why));
      gap := why;
    }
  }

  // ----- which positions are marked -----

  lemma {:induction false} ArgvGrows(words: seq<string>, calls: seq<Call>, k: nat)
    requires k <= |calls|
    ensures |Argv(words, calls[..k])| <= |Argv(words, calls)|
    ensures Argv(words, calls)[..|Argv(words, calls[..k])|] == Argv(words, calls[..k])
    decreases |calls|
  {
    if k == |calls| {
      assert calls[..k] == calls;
    } else {
      var before := calls[..|calls| - 1];
      ArgvGrows(words, before, k);
      assert before[..k] == calls[..k];
    }
  }

  /** Where the k-th call's last word landed. */
  function Landed(words: seq<string>, calls: seq<Call>, k: nat): int
    requires k < |calls|
  {
    |Argv(words, calls[..k])| + 1
  }

  lemma {:induction false} MarkedSinceWritten(words: seq<string>, calls: seq<Call>, k: nat)
    requires k < |calls| && calls[k].PlaceholderFlag?
    ensures Landed(words, calls, k) in StandIns(words, calls)
    decreases |calls|
  {
    var before := calls[..|calls| - 1];
    if k < |before| {
      MarkedSinceWritten(words, before, k);
      assert before[..k] == calls[..k];
    }
  }

  lemma {:induction false} WrittenSinceMarked(words: seq<string>, calls: seq<Call>, p: int) returns (k: nat)
    requires p in StandIns(words, calls)
    ensures k < |calls| && calls[k].PlaceholderFlag? && p == Landed(words, calls, k)
    decreases |calls|
  {
    var before := calls[..|calls| - 1];
    if p in StandIns(words, before) {
      k := WrittenSinceMarked(words, before, p);
      assert before[..k] == calls[..k];
    } else {
      k := |calls| - 1;
    }
  }

  /** The marked positions are exactly those some PlaceholderFlag call wrote, each still holds
      the stand-in that call gave, and no later call moved it. */
  lemma MarkedExactlyWherePlaceholdersWere(words: seq<string>, calls: seq<Call>, p: int)
    ensures p in StandIns(words, calls) <==>
      exists k :: 0 <= k < |calls| && calls[k].PlaceholderFlag? && p == Landed(words, calls, k)
    ensures p in StandIns(words, calls) ==>
      && 0 <= p < |Argv(words, calls)|
      && exists k :: 0 <= k < |calls| && calls[k].PlaceholderFlag? && p == Landed(words, calls, k)
                  && Argv(words, calls)[p] == StandIn(calls[k].what)
  {
    if p in StandIns(words, calls) {
      var k := WrittenSinceMarked(words, calls, p);
      var upto := calls[..k + 1];
      ArgvGrows(words, calls, k + 1);
      assert upto[..k] == calls[..k] && upto[|upto| - 1] == calls[k];
      assert Argv(words, upto) == Argv(words, calls[..k]) + Added(calls[k]);
      assert Argv(words, calls)[p] == Argv(words, upto)[p];
    }
    if k :| 0 <= k < |calls| && calls[k].PlaceholderFlag? && p == Landed(words, calls, k) {
      MarkedSinceWritten(words, calls, k);
    }
  }

  // ----- what is printed for an action -----

  /** The answer the route table has for one action. */
  datatype Answer =
    | UnknownRoute
    | NoBuilder(why: string)
    | Declined(why: string)
    | Built(words: seq<string>, calls: seq<Call>)

  const NO_EQUIVALENT := "no " + BINARY + " equivalent yet"

  function Echo(a: Answer): Line
  {
    match a
    case Built(words, calls) =>
      if Gap(calls) == "" then
        Line(Argv(words, calls), StandIns(words, calls) != {}, StandIns(words, calls), "")
      else Line([], false, {}, NO_EQUIVALENT)
    case _ => Line([], false, {}, NO_EQUIVALENT)
  }

  predicate LastRefusal(calls: seq<Call>, k: int)
  {
    0 <= k < |calls| && calls[k].Refuse? && forall l :: k < l < |calls| ==> !calls[l].Refuse?
  }

  /** The last refusal speaks. */
  lemma {:induction false} GapIsTheLastRefusal(calls: seq<Call>)
    ensures forall k :: LastRefusal(calls, k) ==> Gap(calls) == calls[k].why
    ensures Gap(calls) != "" ==> exists k :: LastRefusal(calls, k)
    ensures Gap(calls) == "" <==> forall k :: LastRefusal(calls, k) ==> calls[k].why == ""
  {
    if calls != [] {
      var before, n := calls[..|calls| - 1], |calls| - 1;
      GapIsTheLastRefusal(before);
      assert forall k :: 0 <= k < n ==> before[k] == calls[k];
      if calls[n].Refuse? {
        assert LastRefusal(calls, n);
      } else {
        forall k | LastRefusal(calls, k) ensures Gap(calls) == calls[k].why { assert LastRefusal(before, k); }
        if k :| LastRefusal(before, k) { assert LastRefusal(calls, k); }
      }
    }
  }

  lemma {:induction false} ArgvNeverEmpty(words: seq<string>, calls: seq<Call>)
    ensures Argv(words, calls) != [] && Argv(words, calls)[0] == BINARY
  {
    ArgvGrows(words, calls, 0);
    assert calls[..0] == [];
    assert Argv(words, calls)[..1 + |words|][0] == BINARY;
  }

  /** What is printed, said of the answer: a command exactly when something was built and the last
      refusal made on the way, if any was made, gave no reason; that command whole, with its marks;
      and otherwise the one wording. */
  lemma EchoIsTheCommandBuilt(a: Answer)
    ensures
      var line := Echo(a);
      && (line.command != [] <==>
            a.Built? && forall k :: LastRefusal(a.calls, k) ==> a.calls[k].why == "")
      && (line.command != [] ==> line.command == Argv(a.words, a.calls) && line.placeholderAt == StandIns(a.words, a.calls))
      && (line.command == [] ==> line == Line([], false, {}, NO_EQUIVALENT))
  {
    if a.Built? {
      ArgvNeverEmpty(a.words, a.calls);
      GapIsTheLastRefusal(a.calls);
    }
  }

  /** A line is a command or a statement that there is none: never both, never neither. And
      for every sequence of builder calls, whatever text the callers supplied, a command reads
      back as its own argv exactly when the line does not say it carries a stand-in. */
  lemma EchoIsRunnableExactlyWhenUnmarked(a: Answer)
    ensures var line := Echo(a);
      && ((line.command == []) <==> (line.gap != ""))
      && (line.command == [] ==> !line.placeholder)
      && Words(Join(Rendered(line.command, line.placeholderAt))) ==
           (if line.placeholder then None else Some(line.command))
      && (a.Built? && line.command != [] ==>
            (line.placeholder <==> exists k :: 0 <= k < |a.calls| && a.calls[k].PlaceholderFlag?))
  {
    var line := Echo(a);
    if a.Built? && Gap(a.calls) == "" {
      var words, calls := a.words, a.calls;
      ArgvNeverEmpty(words, calls);
      forall p | p in line.placeholderAt
        ensures 0 <= p < |line.command| && line.command[p] != "" && line.command[p][0] == '<'
      {
        MarkedExactlyWherePlaceholdersWere(words, calls, p);
      }
      if line.placeholder {
        var p := AnyOf(StandIns(words, calls));
        MarkedExactlyWherePlaceholdersWere(words, calls, p);
        assert Marked(line.command, line.placeholderAt, 0);
      } else {
        assert line.placeholderAt == {} && !Marked(line.command, line.placeholderAt, 0);
      }
      if k :| 0 <= k < |calls| && calls[k].PlaceholderFlag? {
        MarkedSinceWritten(words, calls, k);
      }
    } else {
      assert line.placeholderAt == {} && !Marked(line.command, line.placeholderAt, 0);
    }
    ShellReadsBack(line.command, line.placeholderAt);
  }
}
