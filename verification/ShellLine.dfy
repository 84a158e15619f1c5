/** The command line printed for an action: quoting, joining, and the reader a shell would
    put it through. */
module ShellLine {
  import opened Decimal
  import opened Wrappers

  // ----- quoting -----

  predicate Safe(c: char)
  {
    || 'a' <= c <= 'z' || 'A' <= c <= 'Z' || '0' <= c <= '9'
    || c in {'_', '@', '%', '+', '=', ':', ',', '.', '/', '-'}
  }

  predicate AllSafe(s: string)
  {
    forall i :: 0 <= i < |s| ==> Safe(s[i])
  }

  /** Every single quote becomes: close, an escaped quote, open again. */
  function Escape(s: string): string
  {
    if s == "" then "" else (if s[0] == '\'' then "'\\''" else [s[0]]) + Escape(s[1..])
  }

  function ShellQuote(s: string): string
  {
    if s == "" then "''"
    else if AllSafe(s) then s
    else "'" + (Escape(s) + "'")
  }

  /** A command as an argv, with the positions the builder filled with a stand-in. */
  datatype Line = Line(command: seq<string>, placeholder: bool, placeholderAt: set<int>, gap: string)

  function Join(words: seq<string>): string
  {
    if words == [] then ""
    else if |words| == 1 then words[0]
    else words[0] + ([' '] + Join(words[1..]))
  }

  /** What goes on the line for each word: a marked position bare, every other quoted. */
  function Rendered(command: seq<string>, bare: set<int>): (r: seq<string>)
    ensures |r| == |command|
  {
    seq(|command|, i requires 0 <= i < |command| => if i in bare then command[i] else ShellQuote(command[i]))
  }

  method Shell(line: Line) returns (text: string)
    ensures text == Join(Rendered(line.command, line.placeholderAt))
  {
    if |line.command| == 0 {
      return "";
    }
    var quoted := [];
    for i := 0 to |line.command|
      invariant quoted == Rendered(line.command, line.placeholderAt)[..i]
    {
      if i in line.placeholderAt {
        quoted := quoted + [line.command[i]];
      } else {
        quoted := quoted + [ShellQuote(line.command[i])];
      }
    }
    assert quoted == Rendered(line.command, line.placeholderAt);
    text := Join(quoted);
  }

  lemma {:induction false} EscapeNeverShortens(s: string)
    ensures |Escape(s)| >= |s|
  {
    if s != "" { EscapeNeverShortens(s[1..]); }
  }

  /** A word is left alone exactly when it is there and has nothing in it that needs quoting. */
  lemma QuotedOnlyIfNeeded(s: string)
    ensures ShellQuote(s) == s <==> s != "" && forall i :: 0 <= i < |s| ==>
      || 'a' <= s[i] <= 'z' || 'A' <= s[i] <= 'Z' || '0' <= s[i] <= '9' || s[i] in {'_', '@', '%', '+', '=', ':', ',', '.', '/', '-'}
  {
    EscapeNeverShortens(s);
  }

  function TotalLength(words: seq<string>): nat
  {
    if words == [] then 0 else |words[0]| + TotalLength(words[1..])
  }

  /** One character between two words, and none anywhere else. */
  lemma {:induction false} OneSpaceBetween(words: seq<string>)
    requires words != []
    ensures |Join(words)| == TotalLength(words) + |words| - 1
  {
    if |words| > 1 { OneSpaceBetween(words[1..]); }
  }

  // ----- the shell's reader -----

  /** Where the tokenizer of POSIX.1-2017 XCU section 2.3 stands: between words, in one, inside
      single quotes (2.2.2), or just after a backslash (2.2.1). */
  datatype Mode = Between | InWord | InSingle | AfterBackslash(started: bool)

  /** Characters that do something other than stand for themselves when unquoted: operators,
      the newline token, expansions, patterns, and the double quote. A line that carries one
      bare is not a plain list of words, and is refused. */
  predicate Special(c: char)
  {
    c in {'|', '&', ';', '<', '>', '(', ')', '\n', '$', '`', '"', '*', '?', '[', '~'}
  }

  function Prepend(word: string, rest: Option<seq<string>>): Option<seq<string>>
  {
    match rest
    case None => None
    case Some(ws) => Some([word] + ws)
  }

  /** The words of s, given the mode and the word read so far. */
  function Lex(s: string, mode: Mode, word: string): Option<seq<string>>
    decreases |s|
  {
    if s == "" then
      match mode
      case Between => Some([])
      case InWord => Some([word])
      case InSingle => None
      case AfterBackslash(_) => None
    else
      var c, rest := s[0], s[1..];
      match mode
      case InSingle =>
        if c == '\'' then Lex(rest, InWord, word) else Lex(rest, InSingle, word + [c])
      case AfterBackslash(started) =>
        if c == '\n' then Lex(rest, if started then InWord else Between, word)
        else Lex(rest, InWord, word + [c])
      case _ =>
        if c == '\'' then Lex(rest, InSingle, word)
        else if c == '\\' then Lex(rest, AfterBackslash(mode.InWord?), word)
        else if c in {' ', '\t'} then
          if mode.InWord? then Prepend(word, Lex(rest, Between, "")) else Lex(rest, Between, "")
        else if Special(c) || (c == '#' && mode.Between?) then None
        else Lex(rest, InWord, word + [c])
  }

  function Words(line: string): Option<seq<string>>
  {
    Lex(line, Between, "")
  }

  // ----- one word -----

  lemma LexStep(c: char, t: string, mode: Mode, word: string)
    ensures Lex([c] + t, mode, word) ==
      match mode
      case InSingle => if c == '\'' then Lex(t, InWord, word) else Lex(t, InSingle, word + [c])
      case AfterBackslash(started) =>
        if c == '\n' then Lex(t, if started then InWord else Between, word) else Lex(t, InWord, word + [c])
      case _ =>
        if c == '\'' then Lex(t, InSingle, word)
        else if c == '\\' then Lex(t, AfterBackslash(mode.InWord?), word)
        else if c in {' ', '\t'} then
          if mode.InWord? then Prepend(word, Lex(t, Between, "")) else Lex(t, Between, "")
        else if Special(c) || (c == '#' && mode.Between?) then None
        else Lex(t, InWord, word + [c])
  {}

  /** Safe characters stand for themselves. */
  lemma {:induction false} SafeRun(a: string, t: string, word: string)
    requires AllSafe(a)
    ensures Lex(a + t, InWord, word) == Lex(t, InWord, word + a)
  {
    if a == "" {
      assert a + t == t && word + a == word;
    } else {
      LexStep(a[0], a[1..] + t, InWord, word);
      assert a + t == [a[0]] + (a[1..] + t);
      SafeRun(a[1..], t, word + [a[0]]);
      assert word + [a[0]] + a[1..] == word + a;
    }
  }

  lemma SafeWord(a: string, t: string)
    requires a != "" && AllSafe(a)
    ensures Lex(a + t, Between, "") == Lex(t, InWord, a)
  {
    var c, rest := a[0], a[1..];
    assert Safe(c) && a + t == [c] + (rest + t) && a == [c] + rest;
    LexStep(c, rest + t, Between, "");
    assert "" + [c] == [c];
    SafeRun(rest, t, [c]);
  }

  lemma EscapedQuote(t: string, word: string)
    ensures Lex("'\\''" + t, InSingle, word) == Lex(t, InSingle, word + "'")
  {
    var q := ['\''];
    assert "'\\''" + t == q + (['\\'] + (q + (q + t)));
    LexStep('\'', ['\\'] + (q + (q + t)), InSingle, word);
    LexStep('\\', q + (q + t), InWord, word);
    LexStep('\'', q + t, AfterBackslash(true), word);
    LexStep('\'', t, InWord, word + q);
  }

  /** Inside single quotes an escaped string is read back as the string. */
  lemma {:induction false} EscapedRun(a: string, t: string, word: string)
    ensures Lex(Escape(a) + t, InSingle, word) == Lex(t, InSingle, word + a)
  {
    if a == "" {
      assert Escape(a) + t == t && word + a == word;
    } else {
      var head := if a[0] == '\'' then "'\\''" else [a[0]];
      var rest := Escape(a[1..]) + t;
      Assoc(head, Escape(a[1..]), t);
      if a[0] == '\'' {
        EscapedQuote(rest, word);
      } else {
        LexStep(a[0], rest, InSingle, word);
      }
      EscapedRun(a[1..], t, word + [a[0]]);
      assert word + [a[0]] + a[1..] == word + a;
    }
  }

  /** Whatever the argument, its quoted form is read as exactly that one word. */
  lemma QuotedIsOneWord(a: string, t: string)
    ensures Lex(ShellQuote(a) + t, Between, "") == Lex(t, InWord, a)
  {
    if a == "" {
      assert "''" + t == ['\''] + (['\''] + t);
      LexStep('\'', ['\''] + t, Between, "");
      LexStep('\'', t, InSingle, "");
    } else if AllSafe(a) {
      SafeWord(a, t);
    } else {
      Assoc("'", Escape(a) + "'", t);
      Assoc(Escape(a), "'", t);
      LexStep('\'', Escape(a) + ("'" + t), Between, "");
      EscapedRun(a, "'" + t, "");
      assert "" + a == a;
      LexStep('\'', t, InSingle, a);
    }
  }

  // ----- the whole line -----

  ghost predicate StandInShaped(command: seq<string>, bare: set<int>)
  {
    forall i :: i in bare && 0 <= i < |command| ==> command[i] != "" && command[i][0] == '<'
  }

  ghost predicate Marked(command: seq<string>, bare: set<int>, k: nat)
  {
    exists i :: i in bare && k <= i < |command|
  }

  function AfterFirst(words: seq<string>): string
    requires words != []
  {
    if |words| == 1 then "" else [' '] + Join(words[1..])
  }

  /** A line starting with a quoted argument: that argument, then whatever the rest reads as. */
  lemma QuotedThenRest(a: string, words: seq<string>)
    requires words != [] && words[0] == ShellQuote(a)
    ensures Words(Join(words)) == Prepend(a, Words(Join(words[1..])))
  {
    var t := AfterFirst(words);
    assert Join(words) == ShellQuote(a) + t by { assert words[0] + "" == words[0]; }
    QuotedIsOneWord(a, t);
    if |words| == 1 {
      assert Words(Join(words[1..])) == Some([]);
      assert [a] + [] == [a];
    } else {
      LexStep(' ', Join(words[1..]), InWord, a);
    }
  }

  lemma BareStandInStops(words: seq<string>)
    requires words != [] && words[0] != "" && words[0][0] == '<'
    ensures Words(Join(words)) == None
  {}

  lemma {:induction false} TailReadsBack(command: seq<string>, bare: set<int>, k: nat)
    requires k <= |command| && StandInShaped(command, bare)
    ensures Words(Join(Rendered(command, bare)[k..])) ==
      if Marked(command, bare, k) then None else Some(command[k..])
    decreases |command| - k
  {
    var words := Rendered(command, bare)[k..];
    if k == |command| {
      assert words == [] && command[k..] == [] && !Marked(command, bare, k);
    } else if k in bare {
      BareStandInStops(words);
      assert Marked(command, bare, k);
    } else {
      QuotedThenRest(command[k], words);
      assert words[1..] == Rendered(command, bare)[k + 1..];
      TailReadsBack(command, bare, k + 1);
      assert Marked(command, bare, k) <==> Marked(command, bare, k + 1);
      assert command[k..] == [command[k]] + command[k + 1..];
    }
  }

  /** The round trip, both ways: the printed line is read back as exactly the argv it came from
      if no position holds a stand-in, and is no list of words at all if one does. */
  lemma ShellReadsBack(command: seq<string>, bare: set<int>)
    requires StandInShaped(command, bare)
    ensures Words(Join(Rendered(command, bare))) ==
      if Marked(command, bare, 0) then None else Some(command)
  {
    TailReadsBack(command, bare, 0);
    assert Rendered(command, bare)[0..] == Rendered(command, bare) && command[0..] == command;
  }

  /** Two commands with no stand-in are printed the same only if they are the same. */
  lemma ShellInjective(c: seq<string>, d: seq<string>)
    requires Join(Rendered(c, {})) == Join(Rendered(d, {}))
    ensures c == d
  {
    ShellReadsBack(c, {});
    ShellReadsBack(d, {});
  }
}
