/** Texts made of lines, and the buffer they are written to. */
module Lines {
  import opened Text

  /** The output buffer. */
  class Buffer {
    var text: string

    constructor ()
      ensures text == ""
    {
      text := "";
    }

    method Line(l: string)
      modifies this
      ensures text == old(text) + l + "\n"
    {
      text := text + l + "\n";
    }
  }

  function Unlines(lines: seq<string>): string {
    if lines == [] then "" else Unlines(lines[..|lines| - 1]) + lines[|lines| - 1] + "\n"
  }

  lemma {:induction false} UnlinesConcat(a: seq<string>, b: seq<string>)
    ensures Unlines(a + b) == Unlines(a) + Unlines(b)
  {
    if b == [] {
      assert a + b == a;
    } else {
      var n := |b| - 1;
      assert (a + b)[..|a + b| - 1] == a + b[..n];
      UnlinesConcat(a, b[..n]);
    }
  }

  lemma UnlinesSnoc(a: seq<string>, l: string)
    ensures Unlines(a + [l]) == Unlines(a) + l + "\n"
  {
    assert (a + [l])[..|a|] == a;
  }

  predicate OneLine(s: string) { '\n' !in s }

  predicate AllOneLine(lines: seq<string>) {
    forall i :: 0 <= i < |lines| ==> OneLine(lines[i])
  }

  lemma NoLines()
    ensures Unlines([]) == ""
  {
  }

  lemma {:induction false} UnlinesIsJoin(lines: seq<string>)
    ensures Unlines(lines) == Join(lines + [""], '\n')
  {
    if lines == [] {
      assert lines + [""] == [""];
    } else {
      hide Unlines;
      UnlinesIsJoin(lines[1..]);
      UnlinesConcat([lines[0]], lines[1..]);
      assert lines == [lines[0]] + lines[1..];
      assert (lines + [""])[1..] == lines[1..] + [""];
      UnlinesSnoc([], lines[0]);
      assert Unlines([]) == "" by { NoLines(); }
      assert [] + [lines[0]] == [lines[0]];
      assert Unlines([lines[0]]) == lines[0] + "\n";
      assert lines[0] + "\n" == lines[0] + ['\n'];
    }
  }

  lemma SplitUnlines(lines: seq<string>)
    requires AllOneLine(lines)
    ensures Split(Unlines(lines), '\n') == lines + [""]
  {
    hide Unlines, Join, Split;
    UnlinesIsJoin(lines);
    SplitJoin(lines + [""], '\n');
  }

  /* ---------- lines that may hold line feeds ---------- */

  function FirstLine(s: string): string { Split(s, '\n')[0] }

  lemma OneLineSplit(s: string)
    requires OneLine(s)
    ensures Split(s, '\n') == [s] && FirstLine(s) == s
  {
    hide Split;
    SplitJoin([s], '\n');
    assert Join([s], '\n') == s;
  }

  lemma FirstLineOf(a: string, b: string)
    requires OneLine(a)
    ensures FirstLine(a + "\n" + b) == a
  {
    hide Split;
    SplitCons(a, '\n', b);
    assert a + "\n" + b == a + ['\n'] + b;
  }

  /** A text is its first line, or that, a line feed and more. */
  lemma CutLine(s: string) returns (rest: string)
    ensures OneLine(FirstLine(s))
    ensures OneLine(s) ==> FirstLine(s) == s
    ensures !OneLine(s) ==> s == FirstLine(s) + "\n" + rest
  {
    SplitPieces(s, '\n');
    if OneLine(s) {
      OneLineSplit(s);
      rest := "";
    } else {
      var k := IndexOf(s, '\n');
      rest := s[k + 1..];
      assert s == s[..k] + ['\n'] + rest;
    }
  }

  /** The first line of a text starts like the text. */
  lemma FirstLineStart(s: string)
    requires s != "" && s[0] != '\n'
    ensures FirstLine(s) != "" && FirstLine(s)[0] == s[0]
  {
    hide Split;
    var rest := CutLine(s);
    if !OneLine(s) { assert s[|FirstLine(s)|] == '\n'; }
  }

  lemma SplitPrefix(a: string, s: string)
    requires OneLine(a)
    ensures Split(a + s, '\n') == [a + FirstLine(s)] + Split(s, '\n')[1..]
  {
    hide Split;
    var rest := CutLine(s);
    var first := FirstLine(s);
    if OneLine(s) {
      OneLineSplit(s);
      OneLineSplit(a + s);
    } else {
      assert s == first + ['\n'] + rest;
      SplitCons(first, '\n', rest);
      SplitCons(a + first, '\n', rest);
      assert a + s == a + first + ['\n'] + rest;
    }
  }

  /** The lines of a file some of whose parts hold line feeds. */
  function Flat(parts: seq<string>): seq<string> {
    if parts == [] then [] else Flat(parts[..|parts| - 1]) + Split(parts[|parts| - 1], '\n')
  }

  lemma FlatSnoc(parts: seq<string>, part: string)
    ensures Flat(parts + [part]) == Flat(parts) + Split(part, '\n')
  {
    hide Split;
    assert (parts + [part])[..|parts|] == parts;
  }

  lemma {:induction false} SplitConcat(a: string, b: string)
    ensures Split(a + "\n" + b, '\n') == Split(a, '\n') + Split(b, '\n')
    decreases |a|
  {
    hide Split;
    var rest := CutLine(a);
    if OneLine(a) {
      OneLineSplit(a);
      SplitCons(a, '\n', b);
      assert a + "\n" + b == a + ['\n'] + b;
    } else {
      var first := FirstLine(a);
      SplitConcat(rest, b);
      SplitCons(first, '\n', rest);
      SplitCons(first, '\n', rest + "\n" + b);
      assert a == first + ['\n'] + rest;
      assert a + "\n" + b == first + ['\n'] + (rest + "\n" + b);
    }
  }

  lemma {:induction false} FlatUnlines(parts: seq<string>)
    ensures Split(Unlines(parts), '\n') == Flat(parts) + [""]
  {
    hide Split;
    OneLineSplit("");
    if parts != [] {
      var n := |parts| - 1;
      var init, l := parts[..n], parts[n];
      FlatUnlines(init);
      SplitConcat(l, "");
      if n > 0 {
        var body := Unlines(init[..n - 1]) + init[n - 1];
        SplitConcat(body, "");
        assert body + "\n" + "" == Unlines(init);
        assert Split(body, '\n') == Flat(init) by { SameInit(Split(body, '\n'), Flat(init), ""); }
        SplitConcat(body, l + "\n" + "");
        assert Unlines(parts) == body + "\n" + (l + "\n" + "");
      } else {
        assert Unlines(parts) == l + "\n" + "" && Flat(init) == [];
      }
    }
  }

  lemma SameInit(a: seq<string>, b: seq<string>, last: string)
    requires a + [last] == b + [last]
    ensures a == b
  {
    assert (a + [last])[..|a|] == (b + [last])[..|b|];
  }
}
