/** Quoted strings in zone files (section 5.1 of RFC 1035): a reader, the grammar, and that the
    reader follows the grammar. */
module DnsStrings {
  import opened Text

  /* ---------- the reader ---------- */

  predicate Digit(c: char) { '0' <= c <= '9' }

  function Code(a: char, b: char, c: char): nat
    requires Digit(a) && Digit(b) && Digit(c)
  {
    (a - '0') as nat * 100 + (b - '0') as nat * 10 + (c - '0') as nat
  }

  /** A string that was read, and what follows it. */
  datatype Part = Part(text: string, rest: string)

  function Prepend(first: string, p: Option<Part>): Option<Part> {
    match p case None => None case Some(q) => Some(Part(first + q.text, q.rest))
  }

  /** Up to the closing quote; a backslash takes the next character literally, or three digits as
      a code. */
  function ReadString(s: string): (p: Option<Part>)
    ensures p.Some? ==> |p.value.rest| < |s|
    decreases |s|
  {
    if s == "" then None
    else if s[0] == '\"' then Some(Part("", s[1..]))
    else if s[0] == '\\' then
      if |s| < 2 then None
      else if !Digit(s[1]) then Prepend([s[1]], ReadString(s[2..]))
      else if |s| < 4 || !Digit(s[2]) || !Digit(s[3]) || Code(s[1], s[2], s[3]) > 255 then None
      else Prepend([Code(s[1], s[2], s[3]) as char], ReadString(s[4..]))
    else Prepend([s[0]], ReadString(s[1..]))
  }

  predicate BlankChar(c: char) { c == ' ' || c == '\t' }

  function SkipBlanks(s: string): (r: string)
    ensures |r| <= |s|
  {
    if s != "" && BlankChar(s[0]) then SkipBlanks(s[1..]) else s
  }

  /** The strings of a line, and the comment that ends it, if one does. */
  datatype Strings = Strings(texts: seq<string>, comment: string)

  /** Quoted strings separated by blanks, up to the end of the line or a comment. */
  function ReadStrings(s: string): Option<Strings>
    decreases |s|
  {
    if s == "" || s[0] != '\"' then None
    else match ReadString(s[1..])
      case None => None
      case Some(p) =>
        var next := SkipBlanks(p.rest);
        if next == "" || next[0] == ';' then Some(Strings([p.text], next))
        else if next == p.rest then None
        else match ReadStrings(next)
          case None => None
          case Some(more) => Some(Strings([p.text] + more.texts, more.comment))
  }

  /* ---------- the grammar ---------- */

  /** One character of a quoted string: as it is, after a backslash, or as a code. */
  datatype Unit = Plain(c: char) | Literal(c: char) | Coded(a: char, b: char, c: char)

  predicate ValidUnit(u: Unit) {
    match u
    case Plain(c) => c != '\"' && c != '\\'
    case Literal(c) => !Digit(c)
    case Coded(a, b, c) => Digit(a) && Digit(b) && Digit(c) && Code(a, b, c) <= 255
  }

  function Shown(u: Unit): string {
    match u case Plain(c) => [c] case Literal(c) => ['\\', c] case Coded(a, b, c) => ['\\', a, b, c]
  }

  function Meant(u: Unit): char
    requires ValidUnit(u)
  {
    match u case Plain(c) => c case Literal(c) => c case Coded(a, b, c) => Code(a, b, c) as char
  }

  predicate ValidUnits(us: seq<Unit>) { forall i :: 0 <= i < |us| ==> ValidUnit(us[i]) }

  function Show(us: seq<Unit>): string { if us == [] then "" else Shown(us[0]) + Show(us[1..]) }

  function Mean(us: seq<Unit>): string
    requires ValidUnits(us)
  {
    if us == [] then "" else [Meant(us[0])] + Mean(us[1..])
  }

  /** A quoted string and the blanks after it. */
  datatype Item = Item(units: seq<Unit>, gap: string)

  predicate Gap(s: string) { forall i :: 0 <= i < |s| ==> BlankChar(s[i]) }

  /** Blanks stand between the strings, and nothing but blanks after the last. */
  predicate ValidItems(items: seq<Item>) {
    forall i :: 0 <= i < |items| ==>
      ValidUnits(items[i].units) && Gap(items[i].gap) && (i < |items| - 1 ==> items[i].gap != "")
  }

  function ShowItems(items: seq<Item>): string {
    if items == [] then ""
    else "\"" + (Show(items[0].units) + ("\"" + (items[0].gap + ShowItems(items[1..]))))
  }

  function MeanItems(items: seq<Item>): seq<string>
    requires ValidItems(items)
  {
    if items == [] then [] else [Mean(items[0].units)] + MeanItems(items[1..])
  }

  /** The text is one or more quoted strings, and they say `texts`. */
  ghost predicate Says(s: string, texts: seq<string>) {
    exists items :: items != [] && ValidItems(items) && ShowItems(items) == s && MeanItems(items) == texts
  }

  lemma ReadClose(rest: string)
    ensures ReadString("\"" + rest) == Some(Part("", rest))
  {
    assert ("\"" + rest)[1..] == rest;
  }

  lemma {:induction false} ReadUnits(us: seq<Unit>, rest: string)
    requires ValidUnits(us)
    ensures ReadString(Show(us) + ("\"" + rest)) == Some(Part(Mean(us), rest))
  {
    hide ReadString, Shown, ValidUnit, Meant;
    var close := "\"" + rest;
    if us == [] {
      assert "" + close == close;
      ReadClose(rest);
    } else {
      ReadUnits(us[1..], rest);
      ReadUnit(us[0], Show(us[1..]) + close);
      assert Show(us) + close == Shown(us[0]) + (Show(us[1..]) + close);
    }
  }

  lemma ReadUnit(u: Unit, rest: string)
    requires ValidUnit(u)
    ensures ReadString(Shown(u) + rest) == Prepend([Meant(u)], ReadString(rest))
  {
    var s := Shown(u) + rest;
    assert s[|Shown(u)|..] == rest;
    match u {
      case Plain(c) => assert s[0] == c;
      case Literal(c) => assert s[0] == '\\' && s[1] == c;
      case Coded(a, b, c) => assert s[0] == '\\' && s[1] == a && s[2] == b && s[3] == c;
    }
  }

  lemma {:induction false} SkipGap(g: string, rest: string)
    requires Gap(g) && (rest == "" || !BlankChar(rest[0]))
    ensures SkipBlanks(g + rest) == rest
  {
    if g == "" {
      assert g + rest == rest;
    } else {
      assert (g + rest)[1..] == g[1..] + rest;
      SkipGap(g[1..], rest);
    }
  }

  lemma ShownItems(items: seq<Item>)
    requires items != []
    ensures ShowItems(items) != "" && ShowItems(items)[0] == '\"' && !BlankChar('\"')
  {
  }

  /** What the grammar forms is read as what it says, and nothing is taken for a comment. */
  lemma {:induction false} ReadItems(items: seq<Item>)
    requires items != [] && ValidItems(items)
    ensures ReadStrings(ShowItems(items)) == Some(Strings(MeanItems(items), ""))
  {
    hide ReadString, Show, Mean, SkipBlanks, ValidUnits, Gap;
    var s, more := ShowItems(items), items[1..];
    var rest := items[0].gap + ShowItems(more);
    assert s[1..] == Show(items[0].units) + ("\"" + rest);
    ReadUnits(items[0].units, rest);
    if more == [] {
      SkipGap(items[0].gap, "");
      assert MeanItems(items) == [Mean(items[0].units)];
    } else {
      ShownItems(more);
      SkipGap(items[0].gap, ShowItems(more));
      ReadItems(more);
    }
  }

  lemma UnitForm(s: string) returns (u: Unit)
    requires ReadString(s).Some? && s[0] != '\"'
    ensures ValidUnit(u) && 1 <= |Shown(u)| <= |s| && s == Shown(u) + s[|Shown(u)|..]
  {
    u := if s[0] != '\\' then Plain(s[0]) else if !Digit(s[1]) then Literal(s[1]) else Coded(s[1], s[2], s[3]);
  }

  /** What is read as a string has the form of one. */
  lemma {:induction false} StringForm(s: string) returns (us: seq<Unit>)
    requires ReadString(s).Some?
    ensures ValidUnits(us) && s == Show(us) + ("\"" + ReadString(s).value.rest) && Mean(us) == ReadString(s).value.text
    decreases |s|
  {
    hide ReadString, Shown, ValidUnit, Meant;
    NotEmpty(s);
    if s[0] == '\"' {
      us := [];
      assert s == "\"" + s[1..];
      ReadClose(s[1..]);
    } else {
      var u := UnitForm(s);
      var more := s[|Shown(u)|..];
      ReadUnit(u, more);
      var tail := StringForm(more);
      us := [u] + tail;
      assert us[1..] == tail;
      assert s == Shown(u) + (Show(tail) + ("\"" + ReadString(s).value.rest));
    }
  }

  lemma NotEmpty(s: string)
    requires ReadString(s).Some?
    ensures s != ""
  {
  }

  lemma {:induction false} GapForm(s: string) returns (g: string)
    ensures Gap(g) && s == g + SkipBlanks(s)
  {
    if s != "" && BlankChar(s[0]) {
      var tail := GapForm(s[1..]);
      g := [s[0]] + tail;
      assert s == [s[0]] + s[1..];
    } else {
      g := "";
      assert s == "" + s;
    }
  }

  /** What is read without a comment has the form of quoted strings. */
  lemma {:induction false} StringsForm(s: string) returns (items: seq<Item>)
    requires ReadStrings(s).Some? && ReadStrings(s).value.comment == ""
    ensures items != [] && ValidItems(items) && ShowItems(items) == s && MeanItems(items) == ReadStrings(s).value.texts
    decreases |s|
  {
    hide ReadString, SkipBlanks, Show, Mean, ValidUnits, Gap;
    var us := StringForm(s[1..]);
    var rest := ReadString(s[1..]).value.rest;
    var gap := GapForm(rest);
    var next := SkipBlanks(rest);
    var tail: seq<Item> := [];
    if next != "" { tail := StringsForm(next); }
    items := [Item(us, gap)] + tail;
    assert items[1..] == tail;
    assert s == "\"" + s[1..];
    assert next == ShowItems(tail) && gap + next == rest;
    assert gap == "" ==> rest == next;
  }

  /** The reader follows the grammar: exactly the texts of quoted strings are read without a
      comment, as what they say. */
  lemma ReadsExactlyWhatItSays(s: string, texts: seq<string>)
    ensures ReadStrings(s) == Some(Strings(texts, "")) <==> Says(s, texts)
  {
    hide ReadStrings, ShowItems, MeanItems, ValidItems;
    if ReadStrings(s) == Some(Strings(texts, "")) {
      var items := StringsForm(s);
    }
    if Says(s, texts) {
      var items :| items != [] && ValidItems(items) && ShowItems(items) == s && MeanItems(items) == texts;
      ReadItems(items);
    }
  }

  /* ---------- a text cut off at a line feed ---------- */

  /** A string that ends does not depend on what follows. */
  lemma {:induction false} ReadStringMore(s: string, t: string)
    requires ReadString(s).Some?
    ensures ReadString(s + t) == Some(Part(ReadString(s).value.text, ReadString(s).value.rest + t))
    decreases |s|
  {
    hide Prepend, Code;
    assert (s + t)[0] == s[0] && (s + t)[1..] == s[1..] + t by { SomeString(s); }
    if s[0] == '\"' {
    } else if s[0] == '\\' {
      MoreEscape(s, t);
      if !Digit(s[1]) {
        Prepended([s[1]], ReadString(s[2..]), t);
        ReadStringMore(s[2..], t);
      } else {
        Prepended([Code(s[1], s[2], s[3]) as char], ReadString(s[4..]), t);
        ReadStringMore(s[4..], t);
      }
    } else {
      Prepended([s[0]], ReadString(s[1..]), t);
      ReadStringMore(s[1..], t);
    }
  }

  lemma SomeString(s: string)
    requires ReadString(s).Some?
    ensures s != ""
  {
  }

  lemma EscapeShape(s: string)
    requires ReadString(s).Some? && s != "" && s[0] == '\\'
    ensures |s| >= 2
    ensures Digit(s[1]) ==> |s| >= 4 && Digit(s[2]) && Digit(s[3]) && Code(s[1], s[2], s[3]) <= 255
  {
    hide Prepend, Code;
  }

  lemma MoreEscape(s: string, t: string)
    requires ReadString(s).Some? && s != "" && s[0] == '\\'
    ensures |s| >= 2 && (s + t)[1] == s[1] && (s + t)[2..] == s[2..] + t
    ensures Digit(s[1]) ==>
              |s| >= 4 && Digit(s[2]) && Digit(s[3]) && Code(s[1], s[2], s[3]) <= 255
              && (s + t)[2] == s[2] && (s + t)[3] == s[3] && (s + t)[4..] == s[4..] + t
  {
    hide ReadString, Code, Digit;
    EscapeShape(s);
    TailMore(s, t, 2);
    if Digit(s[1]) { TailMore(s, t, 4); }
  }

  lemma TailMore(s: string, t: string, k: nat)
    requires k <= |s|
    ensures (s + t)[k..] == s[k..] + t
  {
  }

  lemma Prepended(first: string, p: Option<Part>, t: string)
    ensures Prepend(first, p).Some? <==> p.Some?
    ensures p.Some? ==> Prepend(first, p) == Some(Part(first + p.value.text, p.value.rest))
                        && Prepend(first, Some(Part(p.value.text, p.value.rest + t))) ==
                           Some(Part(first + p.value.text, p.value.rest + t))
  {
  }

  lemma {:induction false} SkipBlanksMore(s: string, t: string)
    requires t != "" && !BlankChar(t[0])
    ensures SkipBlanks(s + t) == SkipBlanks(s) + t
  {
    if s == "" {
      assert s + t == t;
    } else {
      assert (s + t)[1..] == s[1..] + t;
      SkipBlanksMore(s[1..], t);
    }
  }

  /** Strings that are complete at a line feed do not go on after it: with more text behind the
      line feed they are either not read or end in a comment. */
  lemma {:induction false} CutStrings(p: string, q: string)
    requires ReadStrings(p).Some?
    ensures ReadStrings(p + "\n" + q).Some? ==> ReadStrings(p + "\n" + q).value.comment != ""
    decreases |p|
  {
    hide ReadString, SkipBlanks;
    var t := "\n" + q;
    assert p + "\n" + q == p + t && (p + t)[1..] == p[1..] + t;
    ReadStringMore(p[1..], t);
    var part := ReadString(p[1..]).value;
    SkipBlanksMore(part.rest, t);
    var next := SkipBlanks(part.rest);
    if next == "" {
      assert next + t == t;
    } else {
      assert (next + t)[0] == next[0];
      if next[0] != ';' {
        CutStrings(next, q);
        assert next + "\n" + q == next + t;
      }
    }
  }
}
