/** The texts of TXT records: what a stored text says, and which stored texts are written so that
    they are read as that. */
module DnsTxt {
  import opened Text
  import opened Lines
  import opened DnsStrings
  import opened DnsZones

  /* ---------- what a stored text says ---------- */

  /** A value the formatter quotes: not already between quotes. */
  predicate Unquoted(value: string) { value == "" || value[0] != '\"' || value[|value| - 1] != '\"' }

  /** What a stored text says: itself, unless it stands between quotes; then the strings it is made of. */
  ghost predicate Denotes(value: string, texts: seq<string>) {
    if Unquoted(value) then texts == [value] else Says(value, texts)
  }

  /** Every backslash stands right before a quote. */
  predicate BackslashesEscape(value: string) {
    forall i :: 0 <= i < |value| && value[i] == '\\' ==> i + 1 < |value| && value[i + 1] == '\"'
  }

  /* ---------- texts the formatter quotes ---------- */

  /** The two replacements of the formatter in one pass. */
  function Escaped(v: string): string
    decreases |v|
  {
    if v == "" then ""
    else if |v| >= 2 && v[0] == '\\' && v[1] == '\"' then "\\\\\\\"" + Escaped(v[2..])
    else if v[0] == '\"' then "\\\"" + Escaped(v[1..])
    else [v[0]] + Escaped(v[1..])
  }

  const QUOTE := "\""
  const BACK_QUOTE := "\\\""
  const DOUBLED := "\\\\\""

  lemma ReplaceThree(rest: string)
    ensures ReplaceAll(DOUBLED + rest, QUOTE, BACK_QUOTE) == "\\\\\\\"" + ReplaceAll(rest, QUOTE, BACK_QUOTE)
  {
    var s := DOUBLED + rest;
    assert s[0] == '\\' && s[1] == '\\' && s[2] == '\"';
    assert s[1..][0] == '\\' && s[1..][1..] == s[2..] && s[2..][1..] == rest;
    ReplaceChar(s);
    ReplaceChar(s[1..]);
    ReplaceChar(s[2..]);
    var r := ReplaceAll(rest, QUOTE, BACK_QUOTE);
    assert ["\\"[0]] + (["\\"[0]] + (BACK_QUOTE + r)) == "\\\\\\\"" + r;
  }

  lemma ReplaceChar(s: string)
    requires s != ""
    ensures ReplaceAll(s, QUOTE, BACK_QUOTE) ==
            (if s[0] == '\"' then BACK_QUOTE else [s[0]]) + ReplaceAll(s[1..], QUOTE, BACK_QUOTE)
  {
    assert QUOTE <= s <==> s[0] == '\"';
  }

  lemma {:induction false} ReplacedTwice(v: string)
    ensures ReplaceAll(ReplaceAll(v, BACK_QUOTE, DOUBLED), QUOTE, BACK_QUOTE) == Escaped(v)
    decreases |v|
  {
    if v == "" {
    } else if BACK_QUOTE <= v {
      assert v[0] == '\\' && v[1] == '\"';
      ReplacedTwice(v[2..]);
      ReplaceThree(ReplaceAll(v[2..], BACK_QUOTE, DOUBLED));
    } else {
      assert |v| >= 2 && v[0] == '\\' && v[1] == '\"' ==> BACK_QUOTE <= v;
      ReplacedTwice(v[1..]);
      var t := [v[0]] + ReplaceAll(v[1..], BACK_QUOTE, DOUBLED);
      ReplaceChar(t);
      assert t[1..] == ReplaceAll(v[1..], BACK_QUOTE, DOUBLED);
    }
  }

  /** Reading back never gains a character, and loses one when a backslash stands alone. */
  predicate AtMost(r: Option<Part>, n: int) { r.Some? ==> |r.value.text| <= n }

  lemma ReadPlain(c: char, rest: string)
    requires c != '\"' && c != '\\'
    ensures ReadString([c] + rest) == Prepend([c], ReadString(rest))
  {
    assert ([c] + rest)[1..] == rest;
  }

  lemma ReadPair(c: char, rest: string)
    requires !Digit(c)
    ensures ReadString("\\" + [c] + rest) == Prepend([c], ReadString(rest))
  {
    assert ("\\" + [c] + rest)[2..] == rest;
  }

  lemma ReadEscapedPair(rest: string)
    ensures ReadString("\\\\\\\"" + rest) == Prepend("\\\"", ReadString(rest))
  {
    var s := "\\\\" + ("\\\"" + rest);
    ReadPair('\\', "\\\"" + rest);
    ReadPair('\"', rest);
    assert "\\\\\\\"" + rest == "\\" + ['\\'] + ("\\\"" + rest);
    assert "\\\"" + rest == "\\" + ['\"'] + rest;
    if ReadString(rest).Some? {
      assert ['\\'] + (['\"'] + ReadString(rest).value.text) == "\\\"" + ReadString(rest).value.text;
    }
  }

  lemma EscapedPlain(v: string)
    requires v != "" && v[0] != '\"' && !(|v| >= 2 && v[0] == '\\' && v[1] == '\"')
    ensures Escaped(v) == [v[0]] + Escaped(v[1..])
  {
  }

  lemma {:induction false} ReadEscaped(v: string)
    requires BackslashesEscape(v)
    ensures ReadString(Escaped(v) + QUOTE) == Some(Part(v, ""))
    decreases |v|
  {
    hide ReadString, Escaped;
    if v != "" { EscapedStep(v); } else { EscapedNothing(); }
    if v == "" {
      CloseQuote();
    } else if v[0] == '\\' {
      TailEscapes(v, 2);
      ReadEscaped(v[2..]);
      ReadEscapedPair(Escaped(v[2..]) + QUOTE);
      assert "\\\\\\\"" + (Escaped(v[2..]) + QUOTE) == "\\\\\\\"" + Escaped(v[2..]) + QUOTE;
      assert "\\\"" + v[2..] == v;
    } else if v[0] == '\"' {
      TailEscapes(v, 1);
      ReadEscaped(v[1..]);
      ReadPair('\"', Escaped(v[1..]) + QUOTE);
      assert "\\" + ['\"'] + (Escaped(v[1..]) + QUOTE) == "\\\"" + Escaped(v[1..]) + QUOTE;
      assert ['\"'] + v[1..] == v;
    } else {
      TailEscapes(v, 1);
      ReadEscaped(v[1..]);
      ReadPlain(v[0], Escaped(v[1..]) + QUOTE);
      assert [v[0]] + (Escaped(v[1..]) + QUOTE) == [v[0]] + Escaped(v[1..]) + QUOTE;
      assert [v[0]] + v[1..] == v;
    }
  }

  lemma CloseQuote()
    ensures ReadString("" + QUOTE) == Some(Part("", ""))
  {
  }

  lemma TailEscapes(v: string, k: nat)
    requires BackslashesEscape(v) && k <= |v|
    ensures BackslashesEscape(v[k..])
  {
  }

  /* ---------- values that do not come back ---------- */

  function Read(v: string): Option<Part> { ReadString(Escaped(v) + QUOTE) }

  lemma FirstDigit(v: string)
    requires Digit((Escaped(v) + QUOTE)[0])
    ensures v != "" && Digit(v[0]) && Escaped(v) == [v[0]] + Escaped(v[1..])
  {
  }

  lemma ReadCode(v: string)
    requires |v| >= 2 && v[0] == '\\' && Digit(v[1])
    ensures Read(v).Some? ==>
              |v| >= 4 && Read(v[4..]).Some? && |Read(v).value.text| == 1 + |Read(v[4..]).value.text|
  {
    var e := Escaped(v[2..]) + QUOTE;
    var s := Escaped(v) + QUOTE;
    EscapedPlain(v);
    EscapedPlain(v[1..]);
    assert s == "\\" + [v[1]] + e;
    if |s| >= 4 && Digit(s[2]) && Digit(s[3]) {
      assert s[2] == e[0];
      FirstDigit(v[2..]);
      var f := Escaped(v[3..]) + QUOTE;
      assert e == [v[2]] + f;
      assert s[3] == f[0];
      FirstDigit(v[3..]);
      assert f == [v[3]] + (Escaped(v[4..]) + QUOTE);
      assert s[4..] == Escaped(v[4..]) + QUOTE;
    }
  }

  lemma ReadClosed(rest: string)
    ensures ReadString(QUOTE + rest) == Some(Part("", rest))
  {
  }

  lemma ReadTrailing(v: string)
    requires v == "\\"
    ensures Read(v) == None
  {
    hide ReadString;
    EscapedPlain(v);
    NothingLeft();
    ReadPair('\"', "");
    assert v[1..] == "";
    assert Escaped(v) + QUOTE == "\\" + ['\"'] + "";
  }

  lemma ReadDoubled(v: string)
    requires |v| >= 3 && v[0] == '\\' && v[1] == '\\' && v[2] == '\"'
    ensures Read(v).Some? && |Read(v).value.text| == 2
  {
    hide ReadString;
    EscapedPlain(v);
    assert v[1..][2..] == v[3..];
    var e := Escaped(v[3..]) + QUOTE;
    assert Escaped(v[1..]) == "\\\\\\\"" + Escaped(v[3..]);
    assert Escaped(v) + QUOTE == "\\" + ['\\'] + ("\\" + ['\\'] + (QUOTE + e));
    ReadPair('\\', "\\" + ['\\'] + (QUOTE + e));
    ReadPair('\\', QUOTE + e);
    ReadClosed(e);
  }

  lemma ReadSwallowed(v: string)
    requires |v| >= 2 && v[0] == '\\' && v[1] != '\"' && !Digit(v[1])
    requires !(|v| >= 3 && v[1] == '\\' && v[2] == '\"')
    ensures Read(v) == Prepend([v[1]], Read(v[2..]))
  {
    hide ReadString;
    EscapedPlain(v);
    EscapedPlain(v[1..]);
    assert v[1..][1..] == v[2..];
    assert Escaped(v) + QUOTE == "\\" + [v[1]] + (Escaped(v[2..]) + QUOTE);
    ReadPair(v[1], Escaped(v[2..]) + QUOTE);
  }

  /** A backslash before another character swallows something. */
  lemma ReadLone(v: string)
    requires v != "" && v[0] == '\\' && (|v| < 2 || (v[1] != '\"' && !Digit(v[1])))
    ensures Read(v).Some? ==>
              || (|v| >= 3 && |Read(v).value.text| == 2)
              || (|v| >= 2 && Read(v[2..]).Some? && |Read(v).value.text| == 1 + |Read(v[2..]).value.text|)
  {
    hide Read;
    if |v| == 1 {
      ReadTrailing(v);
    } else if |v| >= 3 && v[1] == '\\' && v[2] == '\"' {
      ReadDoubled(v);
    } else {
      ReadSwallowed(v);
    }
  }

  lemma NothingLeft()
    ensures ReadString("") == None
  {
  }

  lemma HeadEscapes(v: string, k: nat)
    requires k <= |v| && BackslashesEscape(v[k..])
    requires forall i :: 0 <= i < k && v[i] == '\\' ==> i + 1 < k && v[i + 1] == '\"'
    ensures BackslashesEscape(v)
  {
    forall i | 0 <= i < |v| && v[i] == '\\' ensures i + 1 < |v| && v[i + 1] == '\"' {
      if i >= k { assert v[k..][i - k] == '\\'; }
    }
  }

  lemma {:induction false} ReadAtMost(v: string)
    ensures AtMost(Read(v), |v|)
    ensures !BackslashesEscape(v) ==> AtMost(Read(v), |v| - 1)
    decreases |v|
  {
    hide ReadString, Escaped, BackslashesEscape, Read;
    if v == "" {
      ReadNothing();
    } else if v[0] == '\\' && |v| >= 2 && v[1] == '\"' {
      ReadAtMost(v[2..]);
      ReadPairValue(v);
      if BackslashesEscape(v[2..]) { HeadEscapes(v, 2); }
    } else if v[0] == '\\' {
      if |v| >= 2 && Digit(v[1]) {
        ReadCode(v);
        if |v| >= 4 { ReadAtMost(v[4..]); }
      } else {
        ReadLone(v);
        if |v| >= 2 { ReadAtMost(v[2..]); }
      }
    } else {
      ReadAtMost(v[1..]);
      ReadOneValue(v);
      if BackslashesEscape(v[1..]) { HeadEscapes(v, 1); }
    }
  }

  lemma ReadNothing()
    ensures Read("") == Some(Part("", "")) && BackslashesEscape("")
  {
  }

  lemma ReadPairValue(v: string)
    requires |v| >= 2 && v[0] == '\\' && v[1] == '\"'
    ensures Read(v) == Prepend("\\\"", Read(v[2..]))
  {
    hide ReadString;
    ReadEscapedPair(Escaped(v[2..]) + QUOTE);
    assert Escaped(v) + QUOTE == "\\\\\\\"" + (Escaped(v[2..]) + QUOTE);
  }

  lemma ReadOneValue(v: string)
    requires v != "" && v[0] != '\\'
    ensures Read(v) == Prepend([v[0]], Read(v[1..]))
  {
    hide ReadString;
    var rest := Escaped(v[1..]) + QUOTE;
    if v[0] == '\"' {
      ReadPair('\"', rest);
      assert Escaped(v) + QUOTE == "\\" + ['\"'] + rest;
    } else {
      ReadPlain(v[0], rest);
      assert Escaped(v) + QUOTE == [v[0]] + rest;
    }
  }

  /** A text the formatter quotes is read as itself exactly when each of its backslashes stands
      right before a quote. */
  lemma QuotedExactly(value: string)
    requires Unquoted(value)
    ensures (exists comment :: ReadStrings(FormatTxt(value)) == Some(Strings([value], comment))) <==>
            BackslashesEscape(value)
    ensures BackslashesEscape(value) ==> ReadStrings(FormatTxt(value)) == Some(Strings([value], ""))
  {
    hide ReadString, Escaped, ReplaceAll, BackslashesEscape, SkipBlanks;
    ReplacedTwice(value);
    var s := Escaped(value) + QUOTE;
    assert FormatTxt(value) == "\"" + s;
    assert ("\"" + s)[1..] == s;
    ReadAtMost(value);
    NothingToSkip();
    if BackslashesEscape(value) { ReadEscaped(value); }
  }

  lemma NothingToSkip()
    ensures SkipBlanks("") == ""
  {
  }

  /* ---------- all texts ---------- */

  /** A text the formatter quotes must have its backslashes before quotes; any other must be made
      of quoted strings. */
  ghost predicate Readable(value: string) {
    if Unquoted(value) then BackslashesEscape(value) else exists texts :: Says(value, texts)
  }

  /** The written text is read as what the stored one says, exactly for the readable texts. */
  lemma TxtExactly(value: string)
    ensures (exists texts, comment ::
               Denotes(value, texts) && ReadStrings(FormatTxt(value)) == Some(Strings(texts, comment)))
            <==> Readable(value)
  {
    hide ReadStrings, Says, BackslashesEscape, ReplaceAll;
    if Unquoted(value) {
      QuotedExactly(value);
      assert Denotes(value, [value]);
    } else {
      forall texts | Says(value, texts)
        ensures Denotes(value, texts) && ReadStrings(FormatTxt(value)) == Some(Strings(texts, ""))
      {
        ReadsExactlyWhatItSays(value, texts);
      }
    }
  }

  /** The strings a readable text says. */
  ghost function TextsOf(value: string): (texts: seq<string>)
    requires Readable(value)
    ensures Denotes(value, texts)
  {
    TxtExactly(value);
    var texts :| Denotes(value, texts);
    texts
  }

  lemma TxtReadsBack(value: string)
    requires Readable(value)
    ensures ReadStrings(FormatTxt(value)) == Some(Strings(TextsOf(value), ""))
  {
    hide ReadStrings, Says, BackslashesEscape, ReplaceAll;
    if Unquoted(value) {
      QuotedExactly(value);
    } else {
      ReadsExactlyWhatItSays(value, TextsOf(value));
    }
  }

  /* ---------- stored texts that stand between quotes ---------- */

  /** The pieces between the quotes: a text, then blanks and a text any number of times, then blanks. */
  predicate Alternates(pieces: seq<string>) {
    |pieces| >= 2 && Gap(pieces[1]) && (|pieces| == 2 || (pieces[1] != "" && Alternates(pieces[2..])))
  }

  predicate NoSpecials(pieces: seq<string>) {
    forall i :: 0 <= i < |pieces| ==> '\"' !in pieces[i] && '\\' !in pieces[i]
  }

  lemma {:induction false} ReadUnclosed(t: string)
    requires '\"' !in t && '\\' !in t
    ensures ReadString(t) == None
  {
    if t != "" { ReadUnclosed(t[1..]); }
  }

  lemma {:induction false} ReadPlainString(t: string, rest: string)
    requires '\"' !in t && '\\' !in t
    ensures ReadString(t + ("\"" + rest)) == Some(Part(t, rest))
  {
    hide ReadString;
    var s := t + ("\"" + rest);
    if t == "" {
      assert s == "\"" + rest;
      ReadClosed(rest);
    } else {
      ReadPlainString(t[1..], rest);
      ReadPlain(t[0], t[1..] + ("\"" + rest));
      assert s == [t[0]] + (t[1..] + ("\"" + rest));
      assert t == [t[0]] + t[1..];
    }
  }

  lemma {:induction false} SkipToText(g: string, rest: string)
    requires !Gap(g)
    ensures SkipBlanks(g + rest) != "" && SkipBlanks(g + rest)[0] in g
  {
    assert g != "";
    var s := g + rest;
    assert s[0] == g[0];
    if BlankChar(g[0]) {
      assert s[1..] == g[1..] + rest;
      if Gap(g[1..]) { AddBlank(g); }
      SkipToText(g[1..], rest);
    }
  }

  lemma AddBlank(g: string)
    requires g != "" && BlankChar(g[0]) && Gap(g[1..])
    ensures Gap(g)
  {
    forall i | 0 <= i < |g| ensures BlankChar(g[i]) {
      if i > 0 { assert g[1..][i - 1] == g[i]; }
    }
  }

  /** Quoted strings and nothing else. */
  predicate Clean(s: string) { ReadStrings(s).Some? && ReadStrings(s).value.comment == "" }

  lemma NoStrings(s: string)
    requires s == "" || s[0] != '\"'
    ensures !Clean(s)
  {
  }

  lemma ReadFirst(t: string, rest: string)
    requires '\"' !in t && '\\' !in t
    ensures var next := SkipBlanks(rest);
            Clean("\"" + (t + ("\"" + rest))) <==> next == "" || (next[0] != ';' && next != rest && Clean(next))
  {
    hide ReadString, SkipBlanks;
    ReadPlainString(t, rest);
    assert ("\"" + (t + ("\"" + rest)))[1..] == t + ("\"" + rest);
  }

  lemma {:induction false} ReadPieces(pieces: seq<string>)
    requires pieces != [] && NoSpecials(pieces)
    ensures Clean("\"" + Join(pieces, '\"')) <==> Alternates(pieces)
    decreases |pieces|
  {
    hide ReadString, SkipBlanks, Gap, Clean;
    if |pieces| == 1 {
      UnclosedText(pieces[0]);
    } else {
      var g, rest := pieces[1], Join(pieces[1..], '\"');
      ReadFirst(pieces[0], rest);
      assert Join(pieces, '\"') == pieces[0] + ("\"" + rest);
      assert '\"' !in g;
      if |pieces| == 2 {
        LastGap(g);
        assert rest == g;
        NoStringsAfter(SkipBlanks(g), g);
      } else {
        var more := "\"" + Join(pieces[2..], '\"');
        assert pieces[1..][1..] == pieces[2..];
        assert rest == g + more;
        if Gap(g) {
          SkipGapTo(g, more);
          ReadPieces(pieces[2..]);
          assert "" + more == more;
        } else {
          SkipToText(g, more);
          NoStringsAfter(SkipBlanks(rest), g);
        }
      }
    }
  }

  lemma UnclosedText(t: string)
    requires '\"' !in t && '\\' !in t
    ensures !Clean("\"" + t)
  {
    hide ReadString;
    assert ("\"" + t)[1..] == t;
    ReadUnclosed(t);
  }

  lemma NoStringsAfter(s: string, g: string)
    requires '\"' !in g && (s == "" || s[0] in g)
    ensures !Clean(s)
  {
    NoStrings(s);
  }

  lemma SkipGapTo(g: string, more: string)
    requires Gap(g) && more != "" && more[0] == '\"'
    ensures SkipBlanks(g + more) == more && (g != "" ==> g + more != more)
  {
    SkipGap(g, more);
    assert |g + more| == |g| + |more|;
  }

  lemma LastGap(g: string)
    ensures if Gap(g) then SkipBlanks(g) == "" else SkipBlanks(g) != "" && SkipBlanks(g)[0] in g
  {
    assert g + "" == g;
    if Gap(g) { SkipGap(g, ""); } else { SkipToText(g, ""); }
  }

  /** A stored text between quotes and without backslashes is readable exactly when the pieces
      between its quotes are, in turn, texts and blanks. */
  lemma BetweenQuotesExactly(value: string)
    requires !Unquoted(value) && '\\' !in value
    ensures Readable(value) <==> Alternates(Split(value, '\"')[1..])
  {
    hide ReadStrings, Says, Alternates, Split;
    var pieces := Split(value, '\"');
    assert value == "" + ['\"'] + value[1..];
    SplitCons("", '\"', value[1..]);
    assert pieces[1..] == Split(value[1..], '\"');
    SplitPieces(value[1..], '\"');
    JoinSplit(value[1..], '\"');
    assert value == "\"" + Join(pieces[1..], '\"');
    PiecesWithout(value[1..], '\\', '\"');
    ReadPieces(pieces[1..]);
    CleanIsReadable(value);
  }

  lemma CleanIsReadable(value: string)
    requires !Unquoted(value)
    ensures Readable(value) <==> Clean(value)
  {
    hide ReadStrings, Says;
    if Clean(value) { ReadsExactlyWhatItSays(value, ReadStrings(value).value.texts); }
    if Readable(value) { ReadsExactlyWhatItSays(value, TextsOf(value)); }
  }

  lemma {:induction false} PiecesWithout(s: string, c: char, at: char)
    requires c !in s
    ensures forall i :: 0 <= i < |Split(s, at)| ==> c !in Split(s, at)[i]
    decreases |s|
  {
    var k := IndexOf(s, at);
    if k >= 0 {
      PiecesWithout(s[k + 1..], c, at);
      FreePieces(s[..k], Split(s[k + 1..], at), c);
    }
  }

  /* ---------- texts with line feeds ---------- */

  lemma {:induction false} EscapedCut(p: string, q: string)
    ensures Escaped(p + "\n" + q) == Escaped(p) + "\n" + Escaped(q)
    ensures OneLine(p) ==> OneLine(Escaped(p))
    decreases |p|
  {
    hide Escaped;
    var v := p + "\n" + q;
    if p == "" {
      EscapedNothing();
      EscapedPlain(v);
      assert v[1..] == q;
    } else {
      EscapedStep(p);
      EscapedStep(v);
      assert v[0] == p[0] && v[1..] == p[1..] + "\n" + q;
      if |p| >= 2 && p[0] == '\\' && p[1] == '\"' {
        assert v[1] == p[1] && v[2..] == p[2..] + "\n" + q;
        EscapedCut(p[2..], q);
      } else {
        assert |p| == 1 ==> v[1] == '\n';
        EscapedCut(p[1..], q);
      }
    }
  }

  lemma EscapedStep(v: string)
    requires v != ""
    ensures Escaped(v) ==
            if |v| >= 2 && v[0] == '\\' && v[1] == '\"' then "\\\\\\\"" + Escaped(v[2..])
            else if v[0] == '\"' then "\\\"" + Escaped(v[1..])
            else [v[0]] + Escaped(v[1..])
  {
  }

  /** The first line of a quoted text gives fewer characters than the text has. */
  lemma FirstLineShorter(p: string)
    ensures ReadString(Escaped(p)).Some? ==> |ReadString(Escaped(p)).value.text| <= |p|
  {
    hide ReadString, Escaped;
    if ReadString(Escaped(p)).Some? { ReadStringMore(Escaped(p), QUOTE); }
    ReadAtMost(p);
  }

  /** The first written line of a text with a line feed is never read as what the text says. */
  lemma FirstLineNeverSays(value: string, texts: seq<string>)
    requires !OneLine(value) && Denotes(value, texts)
    ensures var r := ReadStrings(FirstLine(FormatTxt(value))); r.Some? ==> r.value.texts != texts
  {
    hide ReadString, Escaped, ReplaceAll, Says, Split, SkipBlanks;
    var q := CutLine(value);
    var p := FirstLine(value);
    if Unquoted(value) {
      ReplacedTwice(value);
      EscapedCut(p, q);
      var first := "\"" + Escaped(p);
      assert FormatTxt(value) == first + "\n" + (Escaped(q) + QUOTE);
      FirstLineOf(first, Escaped(q) + QUOTE);
      assert first[1..] == Escaped(p);
      FirstLineShorter(p);
    } else {
      if ReadStrings(p) != None { CutStrings(p, q); }
      ReadsExactlyWhatItSays(value, texts);
    }
  }

  /* ---------- texts that are lost ---------- */

  /** A single quote is passed through, and opens a string that nothing closes. */
  lemma LoneQuoteLost()
    ensures FormatTxt("\"") == "\"" && ReadStrings("\"") == None && !Readable("\"")
  {
    hide ReadStrings, Readable;
    UnclosedQuote();
    CleanIsReadable("\"");
  }

  lemma UnclosedQuote()
    ensures ReadStrings("\"") == None
  {
    assert "\""[1..] == "";
  }

  /** A single backslash takes the closing quote with it. */
  lemma LoneBackslashLost()
    ensures FormatTxt("\\") == "\"\\\"" && ReadStrings("\"\\\"") == None && !Readable("\\")
  {
    hide ReadString, ReadStrings, ReplaceAll, Escaped;
    ReplacedTwice("\\");
    EscapedPlain("\\");
    assert "\\"[1..] == "";
    assert Escaped("") == "" by { EscapedNothing(); }
    assert "\\" + "" == "\\";
    assert "\"" + "\\" + "\"" == "\"\\\"";
    UnclosedPair();
  }

  lemma EscapedNothing()
    ensures Escaped("") == ""
  {
  }

  lemma UnclosedPair()
    ensures ReadStrings("\"\\\"") == None
  {
    hide ReadString;
    var s := "\"\\\"";
    assert s[1..] == "\\" + ['\"'] + "";
    ReadPairString('\"', "");
    assert ReadString("") == None by { EmptyString(); }
  }

  lemma EmptyString()
    ensures ReadString("") == None
  {
  }

  lemma ReadPairString(c: char, rest: string)
    requires !Digit(c)
    ensures ReadString("\\" + [c] + rest) == Prepend([c], ReadString(rest))
  {
    ReadUnit(Literal(c), rest);
    assert "\\" + [c] + rest == Shown(Literal(c)) + rest;
  }

  /** After a quoted string a semicolon starts a comment: the rest of the text is lost. */
  lemma CommentLost()
    ensures FormatTxt("\"a\" ; b\"") == "\"a\" ; b\""
    ensures ReadStrings("\"a\" ; b\"") == Some(Strings(["a"], "; b\"")) && !Readable("\"a\" ; b\"")
  {
    hide ReadString, SkipBlanks, Readable;
    var value := "\"a\" ; b\"";
    var rest := " ; b\"";
    assert value[1..] == "a" + ("\"" + rest);
    ReadPlainString("a", rest);
    assert rest == " " + "; b\"";
    SkipGap(" ", "; b\"");
    CleanIsReadable(value);
  }
}
