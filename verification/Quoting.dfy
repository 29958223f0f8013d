/** Printing argument vectors as shell lines, and reading such a line back.

    The reader follows the Shell Command Language of POSIX.1-2017: section 2.2 (Quoting) and
    section 2.3 (Token Recognition). Operators, substitutions and expansions make a line
    unreadable: it is then more than a list of literal words. */
module Quoting {
  import opened Text

  /* ---------- the printer ---------- */

  /** The characters that make the printer quote an argument. */
  predicate Special(c: char) { c in " '\"&|;<>`$\n" }

  predicate NeedsQuotes(a: string) { a == "" || exists i :: 0 <= i < |a| && Special(a[i]) }

  /** Every single quote becomes: close, an escaped quote, open again. */
  function Escape(a: string): string {
    if a == "" then "" else (if a[0] == '\'' then "'\\''" else [a[0]]) + Escape(a[1..])
  }

  function QuoteOne(a: string): string {
    if NeedsQuotes(a) then "'" + Escape(a) + "'" else a
  }

  function Quoted(args: seq<string>): string {
    if args == [] then ""
    else if |args| == 1 then QuoteOne(args[0])
    else Quoted(args[..|args| - 1]) + " " + QuoteOne(args[|args| - 1])
  }

  lemma QuotedSnoc(args: seq<string>, i: nat)
    requires i < |args|
    ensures Quoted(args[..i + 1]) == Quoted(args[..i]) + (if i > 0 then " " else "") + QuoteOne(args[i])
  {
    assert args[..i + 1][..i] == args[..i];
    if i == 0 { assert "" + "" + QuoteOne(args[0]) == QuoteOne(args[0]); }
  }

  method QuotedJoin(args: seq<string>) returns (line: string)
    ensures line == Quoted(args)
  {
    hide Quoted, Escape, NeedsQuotes;
    line := "";
    QuotedNone(args);
    for i := 0 to |args|
      invariant line == Quoted(args[..i])
    {
      QuotedSnoc(args, i);
      var a := args[i];
      if i > 0 { line := line + " "; }
      if NeedsQuotes(a) {
        var start := line;
        line := line + "'";
        line := line + Escape(a);
        line := line + "'";
        assert line == start + ("'" + Escape(a) + "'");
      } else {
        line := line + a;
      }
      if i == 0 { assert Quoted(args[..0]) + "" + QuoteOne(a) == Quoted(args[..0]) + QuoteOne(a); }
    }
    assert args[..|args|] == args;
  }

  lemma QuotedNone(args: seq<string>)
    ensures Quoted(args[..0]) == ""
  {
  }

  method FormatPlan(cmds: seq<seq<string>>) returns (lines: seq<string>)
    ensures |lines| == |cmds|
    ensures forall i :: 0 <= i < |cmds| ==> lines[i] == Quoted(cmds[i])
  {
    lines := [];
    for i := 0 to |cmds|
      invariant |lines| == i && forall j :: 0 <= j < i ==> lines[j] == Quoted(cmds[j])
    {
      var line := QuotedJoin(cmds[i]);
      lines := lines + [line];
    }
  }

  /* ---------- the reader ---------- */

  datatype Mode = Plain | Escaped | Single | Double | DoubleEscaped | Comment

  /** Finished words, the word being read, and how the next character is taken. */
  datatype Scan = Scanning(done: seq<string>, word: Option<string>, mode: Mode) | Unreadable {
    function Text(): string
      requires Scanning?
    {
      if word.Some? then word.value else ""
    }

    function Add(c: char, m: Mode): Scan
      requires Scanning?
    {
      Scanning(done, Some(Text() + [c]), m)
    }

    function Open(m: Mode): Scan
      requires Scanning?
    {
      Scanning(done, Some(Text()), m)
    }

    function Finish(): Scan
      requires Scanning?
    {
      if word.Some? then Scanning(done + [word.value], None, mode) else this
    }
  }

  /** Operators, the end of the line, substitutions and pattern characters. */
  predicate BeyondWords(c: char) { c in "&|;<>()\n$`*?[" }

  function StepPlain(s: Scan, c: char): Scan
    requires s.Scanning? && s.mode == Plain
  {
    if c == '\'' then s.Open(Single)
    else if c == '\"' then s.Open(Double)
    else if c == '\\' then s.(mode := Escaped)
    else if c == ' ' || c == '\t' then s.Finish()
    else if BeyondWords(c) then Unreadable
    else if c == '#' && s.word.None? then s.(mode := Comment)
    else if c == '~' && s.word.None? then Unreadable
    else s.Add(c, Plain)
  }

  function Step(s: Scan, c: char): Scan {
    if s.Unreadable? then s
    else match s.mode
      case Plain => StepPlain(s, c)
      case Escaped => if c == '\n' then s.(mode := Plain) else s.Add(c, Plain)
      case Single => if c == '\'' then s.(mode := Plain) else s.Add(c, Single)
      case Double =>
        if c == '\"' then s.(mode := Plain)
        else if c == '\\' then s.(mode := DoubleEscaped)
        else if c == '$' || c == '`' then Unreadable
        else s.Add(c, Double)
      case DoubleEscaped =>
        if c == '\n' then s.(mode := Double)
        else if c in "$`\"\\" then s.Add(c, Double)
        else Scanning(s.done, Some(s.Text() + ['\\', c]), Double)
      case Comment => if c == '\n' then Unreadable else s
  }

  function Run(s: Scan, text: string): Scan {
    if text == "" then s else Step(Run(s, text[..|text| - 1]), text[|text| - 1])
  }

  /** The words of a finished line. An open quote or a final backslash leaves it unfinished. */
  function Words(s: Scan): Option<seq<string>> {
    if s.Scanning? && (s.mode == Plain || s.mode == Comment) then Some(s.Finish().done) else None
  }

  const START := Scanning([], None, Plain)

  function Read(line: string): Option<seq<string>> { Words(Run(START, line)) }

  lemma {:induction false} RunConcat(s: Scan, a: string, b: string)
    ensures Run(s, a + b) == Run(Run(s, a), b)
  {
    hide Step;
    if b == "" {
      assert a + b == a;
    } else {
      assert (a + b)[..|a + b| - 1] == a + b[..|b| - 1];
      RunConcat(s, a, b[..|b| - 1]);
    }
  }

  lemma RunOne(s: Scan, c: char)
    ensures Run(s, [c]) == Step(s, c)
  {
    assert [c][..0] == "";
  }

  /* ---------- arguments that survive ---------- */

  /** Not the printer's concern, but the reader's: these change an unquoted argument. */
  predicate Spoils(c: char) { c in "\\\t()*?[" }

  /** An argument comes back if the printer quotes it, or nothing in it means anything to the reader. */
  predicate Safe(a: string) {
    NeedsQuotes(a) || (a[0] != '#' && a[0] != '~' && forall i :: 0 <= i < |a| ==> !Spoils(a[i]))
  }

  lemma ReadEscapedOne(s: Scan, c: char)
    requires s.Scanning? && s.mode == Single && s.word.Some?
    ensures Run(s, if c == '\'' then "'\\''" else [c]) == s.Add(c, Single)
  {
    if c == '\'' {
      RunConcat(s, "'\\", "''");
      RunConcat(s, "'", "\\");
      RunOne(s, '\'');
      RunOne(Step(s, '\''), '\\');
      var t := Run(s, "'\\");
      RunConcat(t, "'", "'");
      RunOne(t, '\'');
      RunOne(Step(t, '\''), '\'');
      assert "'\\" + "''" == "'\\''";
      assert "'" + "\\" == "'\\" && "'" + "'" == "''";
    } else {
      RunOne(s, c);
    }
  }

  /** Inside single quotes the escaped text reads as the argument itself. */
  lemma {:induction false} ReadEscaped(s: Scan, a: string)
    requires s.Scanning? && s.mode == Single && s.word.Some?
    ensures Run(s, Escape(a)) == s.(word := Some(s.word.value + a))
    decreases |a|
  {
    hide Step;
    if a == "" {
      assert s.word.value + a == s.word.value;
    } else {
      var first := if a[0] == '\'' then "'\\''" else [a[0]];
      ReadEscapedOne(s, a[0]);
      RunConcat(s, first, Escape(a[1..]));
      ReadEscaped(s.Add(a[0], Single), a[1..]);
      assert s.word.value + [a[0]] + a[1..] == s.word.value + a;
    }
  }

  lemma ReadQuoted(s: Scan, a: string)
    requires s.Scanning? && s.mode == Plain
    ensures Run(s, "'" + Escape(a) + "'") == s.(word := Some(s.Text() + a))
  {
    hide Escape;
    RunConcat(s, "'" + Escape(a), "'");
    RunConcat(s, "'", Escape(a));
    RunOne(s, '\'');
    var t := s.Open(Single);
    ReadEscaped(t, a);
    RunOne(t.(word := Some(s.Text() + a)), '\'');
  }

  lemma HarmlessStep(s: Scan, c: char)
    requires s.Scanning? && s.mode == Plain && !Special(c) && !Spoils(c)
    requires s.word.Some? || (c != '#' && c != '~')
    ensures Step(s, c) == s.Add(c, Plain)
  {
  }

  lemma {:induction false} ReadBare(s: Scan, a: string)
    requires s.Scanning? && s.mode == Plain && s.word.None?
    requires !NeedsQuotes(a) && Safe(a)
    ensures Run(s, a) == s.(word := Some(a))
    decreases |a|
  {
    hide Step, Special, Spoils;
    var n := |a| - 1;
    if n == 0 {
      RunOne(s, a[0]);
      assert a == [a[0]] && "" + [a[0]] == a;
      HarmlessStep(s, a[0]);
    } else {
      assert !NeedsQuotes(a[..n]) by {
        forall i | 0 <= i < n ensures !Special(a[..n][i]) { assert a[i] == a[..n][i]; }
      }
      ReadBare(s, a[..n]);
      assert a == a[..n] + [a[n]];
      assert !Special(a[n]) && !Spoils(a[n]);
      HarmlessStep(s.(word := Some(a[..n])), a[n]);
    }
  }

  /** A safe argument at the start of a word reads as itself. */
  lemma ReadOne(s: Scan, a: string)
    requires s.Scanning? && s.mode == Plain && s.word.None? && Safe(a)
    ensures Run(s, QuoteOne(a)) == s.(word := Some(a))
  {
    hide Escape, Run, Step, NeedsQuotes;
    if NeedsQuotes(a) {
      ReadQuoted(s, a);
      assert "" + a == a;
    } else {
      ReadBare(s, a);
    }
  }

  predicate AllSafe(args: seq<string>) { forall i :: 0 <= i < |args| ==> Safe(args[i]) }

  lemma {:induction false} RunQuoted(args: seq<string>)
    requires args != [] && AllSafe(args)
    ensures Run(START, Quoted(args)) == Scanning(args[..|args| - 1], Some(args[|args| - 1]), Plain)
  {
    hide Safe, QuoteOne, Run;
    var n := |args| - 1;
    if n == 0 {
      ReadOne(START, args[0]);
    } else {
      var init := args[..n];
      RunQuoted(init);
      var a := Quoted(init);
      var t := Scanning(init[..n - 1], Some(init[n - 1]), Plain);
      RunConcat(START, a + " ", QuoteOne(args[n]));
      RunConcat(START, a, " ");
      RunOne(t, ' ');
      assert init[..n - 1] + [init[n - 1]] == init;
      ReadOne(Scanning(init, None, Plain), args[n]);
    }
  }

  /** Quoting is invertible: the reader gives back the arguments. */
  lemma QuotingReadsBack(args: seq<string>)
    requires AllSafe(args)
    ensures Read(Quoted(args)) == Some(args)
  {
    hide Safe, Quoted;
    if args == [] {
      assert args[..0] == args;
      QuotedNone(args);
    } else {
      RunQuoted(args);
      assert args[..|args| - 1] + [args[|args| - 1]] == args;
    }
  }

  /* ---------- arguments that do not ---------- */

  function Chars(words: seq<string>): nat {
    if words == [] then 0 else Chars(words[..|words| - 1]) + |words[|words| - 1]|
  }

  /** Twice the characters plus the words. Escaping a separator loses a word, splitting at a
      tab loses a character, so either way this goes down. */
  function Weight(words: seq<string>): nat { 2 * Chars(words) + |words| }

  /** What a scan can still deliver: its weight with one word open, and one more for a pending backslash. */
  function Potential(s: Scan): int
    requires s.Scanning?
  {
    Weight(s.done) + 1 + 2 * |s.Text()| + if s.mode == Escaped then 1 else 0
  }

  /** The modes the reader passes through outside quotes. */
  predicate Outside(s: Scan) { s.Unreadable? || s.mode in {Plain, Escaped, Comment} }

  /** The scan has lost at least `k` against what it was given. */
  predicate Within(s: Scan, bound: int) { s.Scanning? ==> Potential(s) <= bound }

  lemma WeightSnoc(done: seq<string>, w: string)
    ensures Weight(done + [w]) == Weight(done) + 2 * |w| + 1
  {
    assert (done + [w])[..|done|] == done;
  }

  lemma FinishPotential(s: Scan)
    requires s.Scanning?
    ensures Potential(s.Finish()) <= Potential(s) + 1
  {
    hide Weight;
    if s.word.Some? { WeightSnoc(s.done, s.word.value); }
  }

  /** An unquoted character adds at most two; one that spoils the argument adds at most one. */
  lemma BareStep(s: Scan, c: char)
    requires Outside(s) && !Special(c)
    ensures Outside(Step(s, c)) && (s.Unreadable? ==> Step(s, c) == s)
    ensures s.Scanning? ==> Within(Step(s, c), Potential(s) + 2)
    ensures s.Scanning? && s.mode == Plain && (Spoils(c) || (s.word.None? && (c == '#' || c == '~'))) ==>
              Within(Step(s, c), Potential(s) + 1)
    ensures s.Scanning? && s.mode == Comment ==> Within(Step(s, c), Potential(s))
    ensures s.Scanning? && s.mode == Plain && !Spoils(c) && Step(s, c).Scanning? && Step(s, c).mode == Plain ==>
              Step(s, c).word.Some?
  {
    hide Weight;
    if s.Scanning? { FinishPotential(s); }
  }

  lemma {:induction false} BareRun(s: Scan, a: string)
    requires s.Scanning? && Outside(s) && forall i :: 0 <= i < |a| ==> !Special(a[i])
    ensures Outside(Run(s, a)) && Within(Run(s, a), Potential(s) + 2 * |a|)
  {
    hide Step, Potential, Special;
    if a != "" {
      var n := |a| - 1;
      BareRun(s, a[..n]);
      BareStep(Run(s, a[..n]), a[n]);
    }
  }

  lemma {:induction false} BareLoses(s: Scan, a: string)
    requires s.Scanning? && s.mode == Plain && s.word.None?
    requires !NeedsQuotes(a) && !Safe(a)
    ensures Outside(Run(s, a)) && Within(Run(s, a), Potential(s) + 2 * |a| - 1)
  {
    hide Step, Potential, Special, Spoils;
    var n := |a| - 1;
    assert a == a[..n] + [a[n]];
    if n == 0 {
      RunOne(s, a[0]);
    } else {
      forall i | 0 <= i < n ensures !Special(a[..n][i]) { assert a[i] == a[..n][i]; }
      if Safe(a[..n]) {
        ReadBare(s, a[..n]);
        BareRun(s, a[..n]);
      } else {
        BareLoses(s, a[..n]);
      }
    }
    BareStep(Run(s, a[..n]), a[n]);
  }

  lemma {:induction false} CommentRun(s: Scan, text: string)
    requires s.Scanning? && s.mode == Comment
    ensures Run(s, text) == s || Run(s, text) == Unreadable
  {
    if text != "" { CommentRun(s, text[..|text| - 1]); }
  }

  /** One argument adds at most twice its length, and less than that when it is not safe. */
  lemma ArgumentRun(s: Scan, a: string)
    requires s.Scanning? && (s.mode == Plain || s.mode == Comment)
    ensures Outside(Run(s, QuoteOne(a))) && Within(Run(s, QuoteOne(a)), Potential(s) + 2 * |a|)
    ensures s.mode == Plain && s.word.None? && !Safe(a) ==> Within(Run(s, QuoteOne(a)), Potential(s) + 2 * |a| - 1)
  {
    hide Run, Escape, Weight;
    if s.mode == Comment {
      CommentRun(s, QuoteOne(a));
    } else if NeedsQuotes(a) {
      ReadQuoted(s, a);
    } else {
      BareRun(s, a);
      if s.word.None? && !Safe(a) { BareLoses(s, a); }
    }
  }

  lemma SeparatorStep(s: Scan)
    requires Outside(s)
    ensures var t := Step(s, ' ');
            t.Scanning? ==> s.Scanning? && (t.mode == Plain || t.mode == Comment) && Potential(t) <= Potential(s) + 1
  {
    hide Weight;
    if s.Scanning? { FinishPotential(s); }
  }

  lemma {:induction false} UnreadableStays(text: string)
    ensures Run(Unreadable, text) == Unreadable
  {
    if text != "" { UnreadableStays(text[..|text| - 1]); }
  }

  /** A separator and one more argument. */
  lemma NextRun(s: Scan, a: string, bound: int)
    requires Outside(s) && Within(s, bound)
    ensures var t := Run(Step(s, ' '), QuoteOne(a)); Outside(t) && Within(t, bound + 1 + 2 * |a|)
  {
    hide Run, Step, Potential, QuoteOne;
    SeparatorStep(s);
    var t := Step(s, ' ');
    if t.Scanning? { ArgumentRun(t, a); } else { UnreadableStays(QuoteOne(a)); }
  }

  lemma SplitLast(args: seq<string>)
    requires |args| > 1
    ensures var n := |args| - 1;
            Run(START, Quoted(args)) == Run(Step(Run(START, Quoted(args[..n])), ' '), QuoteOne(args[n]))
  {
    hide Run, Step, QuoteOne;
    var n := |args| - 1;
    var a := Quoted(args[..n]);
    RunConcat(START, a + " ", QuoteOne(args[n]));
    RunConcat(START, a, " ");
    RunOne(Run(START, a), ' ');
  }

  lemma {:induction false} LineRun(args: seq<string>)
    requires args != []
    ensures Outside(Run(START, Quoted(args))) && Within(Run(START, Quoted(args)), Weight(args))
    ensures !AllSafe(args) ==> Within(Run(START, Quoted(args)), Weight(args) - 1)
  {
    hide Run, Step, QuoteOne, Safe, Outside, Potential, Weight;
    var n := |args| - 1;
    var last := args[n];
    WeightSnoc(args[..n], last);
    assert args[..n] + [last] == args;
    StartPotential();
    if n == 0 {
      assert args[..0] == [];
      ArgumentRun(START, last);
    } else {
      SplitLast(args);
      LineRun(args[..n]);
      var s := Run(START, Quoted(args[..n]));
      NextRun(s, last, Weight(args[..n]));
      if !AllSafe(args[..n]) {
        NextRun(s, last, Weight(args[..n]) - 1);
      } else {
        RunQuoted(args[..n]);
        LastUnsafe(args[..n], last, s);
        assert !AllSafe(args) ==> !Safe(last);
      }
    }
  }

  lemma StartPotential()
    ensures Potential(START) == 1 && Weight([]) == 0
  {
  }

  lemma LastUnsafe(init: seq<string>, last: string, s: Scan)
    requires init != [] && s == Scanning(init[..|init| - 1], Some(init[|init| - 1]), Plain)
    ensures !Safe(last) ==> Within(Run(Step(s, ' '), QuoteOne(last)), Weight(init) + 2 * |last|)
  {
    hide Run, QuoteOne, Safe, Weight;
    assert init[..|init| - 1] + [init[|init| - 1]] == init;
    var t := Scanning(init, None, Plain);
    assert Step(s, ' ') == t;
    ArgumentRun(t, last);
  }

  lemma WordsWeight(s: Scan)
    requires Words(s).Some?
    ensures Weight(Words(s).value) <= Potential(s)
  {
    hide Weight;
    if s.word.Some? { WeightSnoc(s.done, s.word.value); }
  }

  /** Exactly the safe argument lists come back from their printed line. */
  lemma QuotingExact(args: seq<string>)
    ensures Read(Quoted(args)) == Some(args) <==> AllSafe(args)
  {
    hide Run, Quoted, Safe, Potential, Weight;
    if AllSafe(args) {
      QuotingReadsBack(args);
    } else {
      LineRun(args);
      var s := Run(START, Quoted(args));
      if Words(s).Some? { WordsWeight(s); }
    }
  }

  /** A case: an argument with a backslash is printed as it is, and the shell takes the backslash away. */
  lemma BackslashDropped()
    ensures Quoted(["a\\b"]) == "a\\b" && Read("a\\b") == Some(["ab"])
  {
    hide Run, Quoted;
    QuotedBackslash();
    RunSnoc("a\\", 'b');
    RunSnoc("a", '\\');
    RunSnoc("", 'a');
    assert "" + ['a'] == "a" && "a" + ['\\'] == "a\\" && "a\\" + ['b'] == "a\\b" && "a" + ['b'] == "ab";
    NothingRun();
    assert Run(START, "a") == Scanning([], Some("a"), Plain);
    assert Run(START, "a\\b") == Scanning([], Some("ab"), Plain);
    assert [] + ["ab"] == ["ab"];
  }

  lemma NothingRun()
    ensures Run(START, "") == START
  {
  }

  lemma QuotedBackslash()
    ensures Quoted(["a\\b"]) == "a\\b"
  {
    assert ["a\\b"][..0] == [];
  }

  lemma RunSnoc(text: string, c: char)
    ensures Run(START, text + [c]) == Step(Run(START, text), c)
  {
    assert (text + [c])[..|text|] == text;
  }

  /* ---------- the characters themselves ---------- */

  /** An argument is printed as it is unless it is empty or holds a blank, a quote, or one of a few
      characters of the shell; then it stands between single quotes. */
  lemma QuotedWhen(a: string)
    ensures QuoteOne(a) == a <==> a != "" && forall c :: c in a ==> c !in " '\"&|;<>`$\n"
    ensures QuoteOne(a) != a ==> |QuoteOne(a)| >= |a| + 2 && QuoteOne(a)[0] == '\''
                                 && QuoteOne(a)[|QuoteOne(a)| - 1] == '\''
  {
    EscapeLonger(a);
    if NeedsQuotes(a) && a != "" {
      var i :| 0 <= i < |a| && Special(a[i]);
      assert a[i] in a;
    }
  }

  lemma {:induction false} EscapeLonger(a: string)
    ensures |Escape(a)| >= |a|
  {
    if a != "" { EscapeLonger(a[1..]); }
  }

  /** The arguments that come back: those that are quoted, and those without the characters that mean
      something to the shell, which do not begin with '#' or '~'. */
  lemma SafeExactly(args: seq<string>)
    ensures Read(Quoted(args)) == Some(args) <==>
            forall a :: a in args ==>
              || a == "" || (exists c :: c in a && c in " '\"&|;<>`$\n")
              || (a[0] !in "#~" && forall c :: c in a ==> c !in "\\\t()*?[")
  {
    hide Read, Quoted;
    QuotingExact(args);
    forall a ensures Safe(a) <==> (|| a == "" || (exists c :: c in a && c in " '\"&|;<>`$\n")
                                   || (a[0] !in "#~" && forall c :: c in a ==> c !in "\\\t()*?[")) {
      SafeOne(a);
    }
    assert AllSafe(args) <==> forall a :: a in args ==> Safe(a);
  }

  lemma SafeOne(a: string)
    ensures Safe(a) <==> (|| a == "" || (exists c :: c in a && c in " '\"&|;<>`$\n")
                          || (a[0] !in "#~" && forall c :: c in a ==> c !in "\\\t()*?["))
  {
    if NeedsQuotes(a) && a != "" {
      var i :| 0 <= i < |a| && Special(a[i]);
      assert a[i] in a;
    }
    assert forall i :: 0 <= i < |a| ==> a[i] in a;
  }
}
