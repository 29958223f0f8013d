/** What a zone file says, read by the rules of section 5.1 of RFC 1035, and that the written
    files say what is stored. */
module DnsZoneMeaning {
  import opened Text
  import opened Lines
  import opened DnsNames
  import opened DnsStrings
  import opened DnsTxt
  import opened DnsZones

  /* ---------- the reader ---------- */

  datatype Data = Host(name: string) | Exchange(priority: nat, name: string) | Texts(texts: seq<string>)

  /** A resource record; names are absolute and end in a dot. */
  datatype Resource = Resource(owner: string, ttl: nat, kind: string, data: Data)

  /** A name relative to an origin: "@" is the origin, a name without a trailing dot is completed by it. */
  function Complete(name: string, origin: string): string {
    if name == "@" then origin
    else if name != "" && name[|name| - 1] == '.' then name
    else name + "." + origin
  }

  function FirstWord(s: string): string { s[..WordEnd(s)] }

  /** The text after the first word and the blanks that follow it. */
  function AfterWord(s: string): string { TrimLeft(s[WordEnd(s)..]) }

  /** A name free of the characters with a meaning of their own. */
  predicate NameToken(s: string) {
    s != "" && forall i :: 0 <= i < |s| ==> !IsSpace(s[i]) && s[i] !in ";()\"\\$"
  }

  function ReadHost(s: string, origin: string): Option<Data> {
    if NameToken(s) then Some(Host(Complete(s, origin))) else None
  }

  /** The strings up to the end of the line or a comment. */
  function ReadTexts(s: string): Option<Data> {
    match ReadStrings(s) case None => None case Some(r) => Some(Texts(r.texts))
  }

  function ReadData(kind: string, s: string, origin: string): Option<Data> {
    if kind == "TXT" then ReadTexts(s)
    else if kind == "MX" then
      var priority, name := FromBase(FirstWord(s), 10), AfterWord(s);
      if priority.Some? && NameToken(name) then Some(Exchange(priority.value, Complete(name, origin))) else None
    else if kind == "CNAME" || kind == "NS" || kind == "PTR" then ReadHost(s, origin)
    else None
  }

  /** Owner, time to live, class, type and data, separated by blanks. */
  function ReadResource(line: string, origin: string): Option<Resource> {
    var owner, l1 := FirstWord(line), AfterWord(line);
    var ttl, l2 := FromBase(FirstWord(l1), 10), AfterWord(l1);
    var class_, l3 := FirstWord(l2), AfterWord(l2);
    var kind, text := FirstWord(l3), AfterWord(l3);
    if !NameToken(owner) || ttl.None? || class_ != "IN" then None
    else match ReadData(kind, text, origin)
      case None => None
      case Some(data) => Some(Resource(Complete(owner, origin), ttl.value, kind, data))
  }

  /** The origin in force and the records so far. */
  datatype Zone = Zone(origin: string, records: seq<Resource>) | Malformed

  /** One line. The default TTL plays no part, since only records with a TTL of their own are read. */
  function ReadLine(z: Zone, line: string): Zone {
    if z.Malformed? || line == "" then z
    else if FirstWord(line) == "$ORIGIN" then z.(origin := Complete(AfterWord(line), z.origin))
    else if FirstWord(line) == "$TTL" then z
    else match ReadResource(line, z.origin)
      case None => Malformed
      case Some(r) => z.(records := z.records + [r])
  }

  function ReadLines(z: Zone, lines: seq<string>): Zone {
    if lines == [] then z else ReadLine(ReadLines(z, lines[..|lines| - 1]), lines[|lines| - 1])
  }

  function ReadZone(text: string): Zone { ReadLines(Zone("", []), Split(text, '\n')) }

  lemma {:induction false} ReadLinesConcat(z: Zone, a: seq<string>, b: seq<string>)
    ensures ReadLines(z, a + b) == ReadLines(ReadLines(z, a), b)
  {
    hide ReadLine;
    if b == [] {
      assert a + b == a;
    } else {
      assert (a + b)[..|a + b| - 1] == a + b[..|b| - 1];
      ReadLinesConcat(z, a, b[..|b| - 1]);
    }
  }

  lemma ReadOneLine(z: Zone, line: string)
    ensures ReadLines(z, [line]) == ReadLine(z, line)
  {
    hide ReadLine;
    assert [line][..0] == [];
  }

  /* ---------- valid records ---------- */

  /** A character of a label: an ASCII letter or digit, '-', or any other character beyond ASCII
      that is no blank (the validator's letters and digits are among these). */
  predicate LabelChar(c: char) {
    'a' <= c <= 'z' || 'A' <= c <= 'Z' || '0' <= c <= '9' || c == '-' || (c >= '\U{80}' && !IsSpace(c))
  }

  predicate Label(s: string) { s != "" && forall i :: 0 <= i < |s| ==> LabelChar(s[i]) }

  /** A zone: no special character, no trailing dot, and not relative to another origin. */
  predicate ZoneName(zone: string) { NameToken(zone) && zone[|zone| - 1] != '.' && '@' !in zone }

  predicate AllLabels(labels: seq<string>) { forall i :: 0 <= i < |labels| ==> Label(labels[i]) }

  /** The names the validator passes are among these. */
  predicate ValidName(name: string) { name != "" && AllLabels(Split(name, '.')) }

  /** A target without blanks or special characters. */
  predicate PlainTarget(value: string) { NameToken(TrimDot(TrimSpace(value))) }

  /** An absolute name of a single label, such as "mail.". */
  predicate AbsoluteLabel(value: string) {
    var v := TrimSpace(value);
    v != "" && v[|v| - 1] == '.' && '.' !in TrimDot(v)
  }

  predicate ValidTarget(value: string) { PlainTarget(value) && !AbsoluteLabel(value) }

  /** A priority and a target. */
  predicate MxShape(value: string) {
    var parts := Fields(value);
    |parts| >= 2 && Atoi(parts[0]).Some? && 0 <= Atoi(parts[0]).value <= 65535
  }

  function MxTarget(value: string): string
    requires MxShape(value)
  {
    Join(Fields(value)[1..], ' ')
  }

  predicate ValidMx(value: string) { MxShape(value) && ValidTarget(MxTarget(value)) }

  /** A text must be one line and be made so that it can be read back. */
  ghost predicate ValidData(k: Kind, value: string) {
    match k
    case TXT => OneLine(value) && Readable(value)
    case MX => ValidMx(value)
    case CNAME => ValidTarget(value)
    case NS => ValidTarget(value)
    case PTR => ValidTarget(value)
    case _ => true
  }

  ghost predicate Valid(r: Record) {
    ValidName(Normalize(r.name)) && KindOf(r.kind).Some? && ValidData(KindOf(r.kind).value, TrimSpace(r.value))
  }

  /* ---------- what a record means ---------- */

  /** A name with a trailing dot is absolute, and so is any other with a dot (the form's "FQDN");
      a single label or "@" is relative to the record's zone. */
  function Target(value: string, zone: string): string {
    var v := TrimSpace(value);
    Complete(if v != "" && v[|v| - 1] != '.' && '.' in v then v + "." else v, zone + ".")
  }

  function MxMeaning(value: string, zone: string): Data
    requires MxShape(value)
  {
    Exchange(Atoi(Fields(value)[0]).value, Target(MxTarget(value), zone))
  }

  /** What the stored data says, without regard to how it is written. */
  ghost function DataMeaning(k: Kind, value: string, zone: string): Data
    requires ValidData(k, value)
  {
    match k
    case TXT => Texts(TextsOf(value))
    case MX => MxMeaning(value, zone)
    case _ => Host(Target(value, zone))
  }

  /** The data says what is stored, whether or not it can be written. */
  ghost predicate DataSays(k: Kind, value: string, zone: string, d: Data) {
    match k
    case TXT => d.Texts? && Denotes(value, d.texts)
    case MX => MxShape(value) && d == MxMeaning(value, zone)
    case _ => d == Host(Target(value, zone))
  }

  /** The stored record under its full name. */
  ghost function Meaning(r: Record): Resource
    requires Valid(r)
  {
    var k := KindOf(r.kind).value;
    Resource(Normalize(r.name) + ".", Ttl(r, DEFAULT_TTL), KindText(k), DataMeaning(k, TrimSpace(r.value), ZoneOf(r)))
  }

  ghost predicate AllValid(records: seq<Record>) {
    forall i :: 0 <= i < |records| ==> Eligible(records[i]) ==> Valid(records[i])
  }

  /** The meanings of one zone's records, in stored order. */
  ghost function ZoneMeaning(records: seq<Record>, zone: string): seq<Resource>
    requires AllValid(records)
  {
    if records == [] then []
    else
      var init := ZoneMeaning(records[..|records| - 1], zone);
      var r := records[|records| - 1];
      if Eligible(r) && ZoneOf(r) == zone then init + [Meaning(r)] else init
  }

  /* ---------- names ---------- */

  lemma LabelPlain(c: char)
    requires LabelChar(c)
    ensures c != '.' && c != '@' && !IsSpace(c) && c !in ";()\"\\$"
  {
  }

  lemma LabelToken(s: string)
    requires Label(s)
    ensures NameToken(s) && OneWord(s) && '.' !in s && '@' !in s
  {
    hide LabelChar, IsSpace;
    forall i | 0 <= i < |s| ensures !IsSpace(s[i]) && s[i] !in ";()\"\\$" && s[i] != '.' && s[i] != '@' {
      LabelPlain(s[i]);
    }
  }

  lemma {:induction false} JoinTokens(labels: seq<string>)
    requires |labels| >= 1 && AllLabels(labels)
    ensures NameToken(Join(labels, '.')) && '@' !in Join(labels, '.')
    ensures Join(labels, '.')[|Join(labels, '.')| - 1] != '.'
    ensures Join(labels, '.')[0] != '.'
  {
    hide Label, IsSpace;
    LabelToken(labels[0]);
    if |labels| > 1 {
      JoinTokens(labels[1..]);
      assert !IsSpace('.') by { DotNoSpace(); }
    }
  }

  lemma DotNoSpace()
    ensures !IsSpace('.')
  {
  }

  lemma ValidNameToken(name: string)
    requires ValidName(name)
    ensures NameToken(name) && '@' !in name && name[|name| - 1] != '.' && name[0] != '.'
  {
    hide Label, Split;
    JoinSplit(name, '.');
    JoinTokens(Split(name, '.'));
  }

  /** Labels make targets. */
  lemma LabelsAreTargets(value: string)
    requires TrimDot(TrimSpace(value)) == "@" || ValidName(TrimDot(TrimSpace(value)))
    ensures PlainTarget(value)
  {
    hide TrimSpace, ValidName;
    AtToken();
    if TrimDot(TrimSpace(value)) != "@" { ValidNameToken(TrimDot(TrimSpace(value))); }
  }

  lemma TokenTrimmed(s: string)
    requires NameToken(s)
    ensures TrimSpace(s) == s
  {
    hide TrimSpace, IsSpace;
    TrimFixed(s);
  }

  /** Owner and zone of a valid name: the owner is a label or "@", the zone a valid name, and
      completing the owner by the zone gives the name back. */
  lemma SplitCompletes(domain: string)
    requires ValidName(Normalize(domain))
    ensures var (zone, owner) := SplitDomain(domain);
            && ZoneName(zone)
            && NameToken(owner) && owner[|owner| - 1] != '.'
            && Complete(owner, zone + ".") == Normalize(domain) + "."
  {
    hide Normalize, Label, Split, Join, IsSpace;
    var fqdn := Normalize(domain);
    var labels := Split(fqdn, '.');
    ValidNameToken(fqdn);
    JoinSplit(fqdn, '.');
    if |labels| == 1 {
      AtToken();
    } else {
      JoinFirst(labels);
      JoinTokens(labels[1..]);
      LabelToken(labels[0]);
      assert labels[0] + "." + (Join(labels[1..], '.') + ".") == fqdn + ".";
    }
  }

  /** A name of two or more labels is cut after the first: the owner is a single label and the zone is
      the rest. A name of one label is its own zone. */
  lemma SplitExactly(domain: string)
    requires ValidName(Normalize(domain))
    ensures var (zone, owner) := SplitDomain(domain);
            var name := Normalize(domain);
            if '.' in name then owner != "" && owner != "@" && '.' !in owner && name == owner + "." + zone
            else zone == name && owner == "@"
  {
    hide Normalize, Label, Split, Join;
    var name := Normalize(domain);
    var labels := Split(name, '.');
    JoinSplit(name, '.');
    if |labels| > 1 {
      JoinFirst(labels);
      LabelToken(labels[0]);
    } else {
      OnePiece(name);
    }
  }

  lemma OnePiece(s: string)
    requires |Split(s, '.')| == 1
    ensures '.' !in s
  {
  }

  /** And a label in front of a valid name belongs to that zone. */
  lemma SplitOf(l: string, zone: string)
    requires Label(l) && ValidName(zone) && Normalize(l + "." + zone) == l + "." + zone
    ensures SplitDomain(l + "." + zone) == (zone, l)
  {
    hide Normalize, LabelChar, Join;
    LabelToken(l);
    SplitCons(l, '.', zone);
    assert l + "." + zone == l + ['.'] + zone;
    JoinSplit(zone, '.');
    assert ([l] + Split(zone, '.'))[1..] == Split(zone, '.');
  }

  lemma JoinFirst(labels: seq<string>)
    requires |labels| > 1
    ensures Join(labels, '.') == labels[0] + ['.'] + Join(labels[1..], '.')
  {
  }

  lemma AtToken()
    ensures NameToken("@")
  {
  }

  /* ---------- one line reads back ---------- */

  lemma {:induction false} WordEndAt(w: string, s: string)
    requires OneWord(w) && w <= s && (|s| == |w| || IsSpace(s[|w|]))
    ensures WordEnd(s) == |w|
  {
    forall i | 0 <= i < |w| ensures !IsSpace(s[i]) { assert s[i] == w[i]; }
  }

  lemma WordStep(w: string, rest: string)
    requires OneWord(w) && (rest == "" || !IsSpace(rest[0]))
    ensures FirstWord(w + " " + rest) == w && AfterWord(w + " " + rest) == rest
  {
    hide OneWord;
    var s := w + " " + rest;
    assert s[|w|] == ' ' && w <= s;
    WordEndAt(w, s);
    TrimLeftBlank(" ", rest);
    assert s[|w|..] == " " + rest;
  }

  lemma TokenWord(s: string)
    requires NameToken(s)
    ensures OneWord(s) && OneLine(s) && !IsSpace(s[0]) && s[0] != '$'
  {
    assert IsSpace('\n');
    assert s[0] !in ";()\"\\$";
  }

  lemma HostTokens(value: string, zone: string)
    requires ZoneName(zone) && TrimDot(TrimSpace(value)) != ""
    ensures NameToken(FormatHost(value, zone)) <==> PlainTarget(value)
  {
    hide TrimSpace, IsSpace;
    var t, h := TrimDot(TrimSpace(value)), FormatHost(value, zone);
    assert !IsSpace('.') by { DotNoSpace(); }
    if t == "@" {
      AtToken();
    } else {
      assert t <= h;
      assert forall i :: 0 <= i < |t| ==> h[i] == t[i];
    }
  }

  /** The written target is absolute, and it is the target meant unless that is an absolute name of
      a single label, which the formatter completes by the zone. */
  lemma HostMeant(value: string, zone: string)
    requires ZoneName(zone) && TrimDot(TrimSpace(value)) != ""
    ensures Complete(FormatHost(value, zone), zone + ".") == FormatHost(value, zone)
    ensures FormatHost(value, zone) == Target(value, zone) <==> !AbsoluteLabel(value)
  {
    hide TrimSpace, IsSpace;
    var v, t, h := TrimSpace(value), TrimDot(TrimSpace(value)), FormatHost(value, zone);
    assert v == t || v == t + ".";
    assert t + "." + zone + "." == t + "." + (zone + ".");
    assert h[|h| - 1] == '.' && h != "@";
    if t == "@" {
      assert zone[0] != '@' && (v != t ==> v[0] == '@');
    }
  }

  /** A written target is read as the target meant exactly when that is a plain token and not an
      absolute name of a single label. */
  lemma HostReadsBackExactly(value: string, zone: string)
    requires ZoneName(zone) && TrimDot(TrimSpace(value)) != ""
    ensures ReadHost(FormatHost(value, zone), zone + ".") == Some(Host(Target(value, zone))) <==> ValidTarget(value)
    ensures NameToken(FormatHost(value, zone)) <==> PlainTarget(value)
  {
    hide TrimSpace, NameToken, FormatHost, Target, Complete, AbsoluteLabel;
    HostTokens(value, zone);
    HostMeant(value, zone);
  }

  lemma HostReadsBack(value: string, zone: string)
    requires ValidTarget(value) && ZoneName(zone)
    ensures ReadHost(FormatHost(value, zone), zone + ".") == Some(Host(Target(value, zone)))
    ensures NameToken(FormatHost(value, zone))
  {
    hide TrimSpace, FormatHost, IsSpace;
    HostReadsBackExactly(value, zone);
  }

  lemma DecimalWord(n: nat)
    ensures OneWord(Decimal(n)) && !IsSpace(Decimal(n)[0]) && OneLine(Decimal(n))
  {
    hide ToBase;
    DecimalChars(n);
    forall i | 0 <= i < |Decimal(n)| ensures !IsSpace(Decimal(n)[i]) && Decimal(n)[i] != '\n' {}
  }

  lemma NonNegative(n: int)
    requires n >= 0
    ensures Itoa(n) == Decimal(n)
  {
  }

  /** A written MX value is read as its priority and the target meant, exactly unless that is an
      absolute name of a single label. */
  lemma MxReadsBackExactly(value: string, zone: string)
    requires MxShape(value) && PlainTarget(MxTarget(value)) && ZoneName(zone)
    ensures var d := FormatMx(value, zone);
            && d.Some? && d.value != "" && !IsSpace(d.value[0]) && OneLine(d.value)
            && (ReadData("MX", d.value, zone + ".") == Some(MxMeaning(value, zone)) <==> ValidMx(value))
  {
    hide ToBase, FromBase, Fields, Join, NameToken, FormatHost, Target, Atoi, AbsoluteLabel, TrimSpace, IsSpace,
         Complete;
    var p := Atoi(Fields(value)[0]).value;
    NonNegative(p);
    DecimalWord(p);
    BaseRoundTrip(p, 10);
    var target := MxTarget(value);
    var host := FormatHost(target, zone);
    assert TrimDot(TrimSpace(target)) != "" by { TokenSome(TrimDot(TrimSpace(target))); }
    HostTokens(target, zone);
    HostMeant(target, zone);
    TokenWord(host);
    WordStep(Decimal(p), host);
    assert Decimal(p) + (" " + host) == Decimal(p) + " " + host;
    assert "MX" != "TXT" by { assert "MX"[0] != "TXT"[0]; }
    assert OneLine(" ");
  }

  lemma TokenSome(s: string)
    requires NameToken(s)
    ensures s != ""
  {
  }

  lemma MxReadsBack(value: string, zone: string)
    requires ValidMx(value) && ZoneName(zone)
    ensures var d := FormatMx(value, zone);
            && d.Some? && d.value != "" && !IsSpace(d.value[0]) && OneLine(d.value)
            && ReadData("MX", d.value, zone + ".") == Some(DataMeaning(MX, value, zone))
  {
    hide FormatMx, ReadData, Fields, Join, Target, Atoi, IsSpace, AbsoluteLabel, PlainTarget;
    MxReadsBackExactly(value, zone);
  }

  lemma {:induction false} ReplaceKeepsLines(s: string, pattern: string, substitute: string)
    requires pattern != "" && OneLine(pattern) && OneLine(substitute)
    ensures OneLine(ReplaceAll(s, pattern, substitute)) <==> OneLine(s)
    decreases |s|
  {
    if s != "" {
      if pattern <= s {
        ReplaceKeepsLines(s[|pattern|..], pattern, substitute);
        assert s == pattern + s[|pattern|..];
      } else {
        ReplaceKeepsLines(s[1..], pattern, substitute);
        assert s == [s[0]] + s[1..];
      }
    }
  }

  /** A text is written on one line exactly when it is one line; the validator does not ask. */
  lemma TxtShape(value: string)
    ensures FormatTxt(value) != "" && FormatTxt(value)[0] == '\"'
    ensures OneLine(FormatTxt(value)) <==> OneLine(value)
  {
    hide ReplaceAll;
    QuotesOneLine();
    ReplaceKeepsLines(value, "\\\"", "\\\\\"");
    ReplaceKeepsLines(ReplaceAll(value, "\\\"", "\\\\\""), "\"", "\\\"");
  }

  lemma QuotesOneLine()
    ensures OneLine("\\\"") && OneLine("\\\\\"") && OneLine("\"")
  {
  }

  lemma KindWords(k: Kind)
    ensures OneWord(KindText(k)) && OneLine(KindText(k)) && !IsSpace(KindText(k)[0])
    ensures KindText(k) == "TXT" <==> k == TXT
    ensures KindText(k) == "MX" <==> k == MX
    ensures k == CNAME || k == NS || k == PTR ==> KindText(k) == "CNAME" || KindText(k) == "NS" || KindText(k) == "PTR"
  {
    assert |KindText(k)| > 0 && KindText(k)[0] in {'A', 'C', 'T', 'P', 'M', 'N'};
  }

  lemma DataReadsBack(k: Kind, value: string, zone: string, canonicalIP: (string, bool) -> string)
    requires k != A && k != AAAA && ValidData(k, value) && ZoneName(zone)
    ensures var d := FormatData(k, value, zone, canonicalIP);
            && d.Some? && d.value != "" && !IsSpace(d.value[0]) && OneLine(d.value)
            && ReadData(KindText(k), d.value, zone + ".") == Some(DataMeaning(k, value, zone))
  {
    hide KindText, ValidMx, ValidTarget, FormatMx, FormatHost, FormatTxt, ReadHost, IsSpace, NameToken, Target,
         Readable, ReadStrings;
    KindWords(k);
    if k == TXT {
      TxtShape(value);
      TxtReadsBack(value);
      assert !IsSpace('\"') by { QuoteNoSpace(); }
    } else if k == MX {
      MxReadsBack(value, zone);
    } else {
      HostReadsBack(value, zone);
      TokenWord(FormatHost(value, zone));
    }
  }

  lemma QuoteNoSpace()
    ensures !IsSpace('\"')
  {
  }

  /** A line of known parts is read part by part. */
  lemma LineReadsBack(owner: string, ttl: nat, k: Kind, data: string, origin: string)
    requires NameToken(owner) && data != "" && !IsSpace(data[0])
    ensures ReadResource(Line(owner, ttl, KindText(k), data), origin) ==
            match ReadData(KindText(k), data, origin)
            case None => None
            case Some(d) => Some(Resource(Complete(owner, origin), ttl, KindText(k), d))
    ensures Line(owner, ttl, KindText(k), data) != "" && FirstWord(Line(owner, ttl, KindText(k), data)) == owner
  {
    hide NameToken, ToBase, FromBase, ReadData, Complete, IsSpace, FirstWord, AfterWord, KindText, OneWord;
    KindWords(k);
    TokenWord(owner);
    DecimalWord(ttl);
    BaseRoundTrip(ttl, 10);
    ClassWord();
    var l3 := KindText(k) + " " + data;
    var l2 := "IN" + " " + l3;
    var l1 := Decimal(ttl) + " " + l2;
    WordStep(KindText(k), data);
    WordStep("IN", l3);
    WordStep(Decimal(ttl), l2);
    WordStep(owner, l1);
    assert "IN " + l3 == l2;
    assert l1[0] == Decimal(ttl)[0];
    assert Line(owner, ttl, KindText(k), data) == owner + " " + l1;
  }

  lemma ClassWord()
    ensures OneWord("IN") && !IsSpace('I')
  {
  }

  lemma OneLineLine(owner: string, ttl: nat, k: Kind, data: string)
    requires NameToken(owner) && OneLine(data)
    ensures OneLine(Line(owner, ttl, KindText(k), data))
  {
    hide NameToken, ToBase, KindText;
    KindWords(k);
    TokenWord(owner);
    DecimalWord(ttl);
    OneLineClass();
    assert OneLine(KindText(k) + " " + data);
    assert OneLine("IN " + (KindText(k) + " " + data));
    assert OneLine(Decimal(ttl) + " " + ("IN " + (KindText(k) + " " + data)));
  }

  lemma OneLineClass()
    ensures OneLine("IN ") && OneLine(" ")
  {
  }

  /** The line of a stored record reads as the record under its full name. */
  lemma RecordReadsBack(r: Record, canonicalIP: (string, bool) -> string)
    requires Eligible(r) && Valid(r)
    ensures var zone := ZoneOf(r);
            var line := FormatLine(zone, DEFAULT_TTL, r.(name := OwnerOf(r)), canonicalIP);
            && line.Some? && OneLine(line.value)
            && forall rs :: ReadLine(Zone(zone + ".", rs), line.value) == Zone(zone + ".", rs + [Meaning(r)])
  {
    hide TrimSpace, ToLower, KindOf, SplitDomain, ValidName, ValidData, FormatData, ReadData, DataMeaning, NameToken,
         Line, KindText, Complete, ReadResource, FirstWord, IsSpace;
    var (zone, owner) := SplitDomain(r.name);
    SplitCompletes(r.name);
    TokenTrimmed(owner);
    TokenWord(owner);
    var k := KindOf(r.kind).value;
    DataReadsBack(k, TrimSpace(r.value), zone, canonicalIP);
    var data := FormatData(k, TrimSpace(r.value), zone, canonicalIP).value;
    LineReadsBack(owner, Ttl(r, DEFAULT_TTL), k, data, zone + ".");
    OneLineLine(owner, Ttl(r, DEFAULT_TTL), k, data);
    Directives();
  }

  lemma Directives()
    ensures "$ORIGIN"[0] == '$' && "$TTL"[0] == '$'
  {
  }

  /* ---------- whole zones ---------- */

  /** The lines are there, and read as these records. */
  predicate ReadsAs(lines: Option<seq<string>>, zone: string, records: seq<Resource>) {
    && lines.Some? && AllOneLine(lines.value) && |lines.value| == |records|
    && ReadLines(Zone(zone + ".", []), lines.value) == Zone(zone + ".", records)
  }

  lemma EntryReads(records: seq<Resource>, lines: seq<string>, r: Record, canonicalIP: (string, bool) -> string)
    requires Eligible(r) && Valid(r) && ReadsAs(Some(lines), ZoneOf(r), records)
    ensures var line := FormatLine(ZoneOf(r), DEFAULT_TTL, r.(name := OwnerOf(r)), canonicalIP);
            line.Some? && ReadsAs(Some(lines + [line.value]), ZoneOf(r), records + [Meaning(r)])
  {
    hide Valid, Eligible, Meaning, FormatLine, ReadLine, ZoneOf, OwnerOf, OneLine;
    RecordReadsBack(r, canonicalIP);
    var start, zone := Zone(ZoneOf(r) + ".", []), Zone(ZoneOf(r) + ".", records);
    var line := FormatLine(ZoneOf(r), DEFAULT_TTL, r.(name := OwnerOf(r)), canonicalIP).value;
    ReadLinesConcat(start, lines, [line]);
    ReadOneLine(zone, line);
  }

  lemma NothingReads(zone: string, canonicalIP: (string, bool) -> string)
    ensures ReadsAs(RecordLines(zone, DEFAULT_TTL, [], canonicalIP), zone, [])
  {
  }

  lemma {:induction false} GroupReadsBack(records: seq<Record>, zone: string, canonicalIP: (string, bool) -> string)
    requires AllValid(records)
    ensures ReadsAs(RecordLines(zone, DEFAULT_TTL, Group(records, zone), canonicalIP), zone, ZoneMeaning(records, zone))
  {
    hide Valid, Eligible, Meaning, FormatLine, ReadsAs, ZoneOf, OwnerOf, RecordLines;
    if records == [] {
      NothingReads(zone, canonicalIP);
    } else {
      var n := |records| - 1;
      var init, r := records[..n], records[n];
      GroupReadsBack(init, zone, canonicalIP);
      if Eligible(r) && ZoneOf(r) == zone {
        var lines := RecordLines(zone, DEFAULT_TTL, Group(init, zone), canonicalIP);
        assert lines.Some? by { ReadsSome(lines, zone, ZoneMeaning(init, zone)); }
        EntryReads(ZoneMeaning(init, zone), lines.value, r, canonicalIP);
        EntryEnabled(r);
        AddLine(zone, Group(init, zone), r.(name := OwnerOf(r)), canonicalIP);
      }
    }
  }

  lemma ReadsSome(lines: Option<seq<string>>, zone: string, records: seq<Resource>)
    requires ReadsAs(lines, zone, records)
    ensures lines.Some?
  {
  }

  lemma EntryEnabled(r: Record)
    requires Eligible(r)
    ensures r.(name := OwnerOf(r)).enabled
  {
  }

  lemma AddLine(zone: string, group: seq<Record>, entry: Record, canonicalIP: (string, bool) -> string)
    requires entry.enabled && FormatLine(zone, DEFAULT_TTL, entry, canonicalIP).Some?
    requires RecordLines(zone, DEFAULT_TTL, group, canonicalIP).Some?
    ensures RecordLines(zone, DEFAULT_TTL, group + [entry], canonicalIP) ==
            Some(RecordLines(zone, DEFAULT_TTL, group, canonicalIP).value +
                 [FormatLine(zone, DEFAULT_TTL, entry, canonicalIP).value])
  {
    hide FormatLine;
    assert (group + [entry])[..|group|] == group;
  }

  lemma OriginReads(zone: string)
    requires ZoneName(zone)
    ensures ReadLine(Zone("", []), "$ORIGIN " + zone + ".") == Zone(zone + ".", [])
    ensures OneLine("$ORIGIN " + zone + ".")
  {
    hide NameToken, TrimLeft, ReadResource, IsSpace;
    TokenWord(zone);
    OriginWord();
    var l := "$ORIGIN" + " " + (zone + ".");
    WordStep("$ORIGIN", zone + ".");
    assert "$ORIGIN " + zone + "." == l;
    assert OneLine("$ORIGIN ");
  }

  lemma OriginWord()
    ensures OneWord("$ORIGIN") && OneWord("$TTL") && OneLine("$ORIGIN ") && OneLine("$TTL ")
    ensures "$ORIGIN" != "$TTL"
  {
    assert "$ORIGIN"[1] != "$TTL"[1];
  }

  lemma TtlReads(z: Zone)
    requires z.Zone?
    ensures ReadLine(z, "$TTL " + Decimal(DEFAULT_TTL)) == z && OneLine("$TTL " + Decimal(DEFAULT_TTL))
  {
    hide ToBase, TrimLeft, ReadResource, IsSpace, OneWord;
    DecimalWord(DEFAULT_TTL);
    OriginWord();
    WordStep("$TTL", Decimal(DEFAULT_TTL));
    assert "$TTL " + Decimal(DEFAULT_TTL) == "$TTL" + " " + Decimal(DEFAULT_TTL);
  }

  lemma HeadReads(zone: string)
    requires ZoneName(zone)
    ensures ReadLines(Zone("", []), Head(zone, DEFAULT_TTL)) == Zone(zone + ".", [])
            && AllOneLine(Head(zone, DEFAULT_TTL))
  {
    hide NameToken, ReadLine, ToBase;
    var h := Head(zone, DEFAULT_TTL);
    OriginReads(zone);
    TtlReads(Zone(zone + ".", []));
    ReadLinesConcat(Zone("", []), [h[0], h[1]], [h[2]]);
    ReadLinesConcat(Zone("", []), [h[0]], [h[1]]);
    ReadOneLine(Zone("", []), h[0]);
    ReadOneLine(Zone(zone + ".", []), h[1]);
    ReadOneLine(Zone(zone + ".", []), h[2]);
    BlankLine(Zone(zone + ".", []));
    assert [h[0]] + [h[1]] == [h[0], h[1]] && [h[0], h[1]] + [h[2]] == h;
  }

  lemma BlankLine(z: Zone)
    ensures ReadLine(z, "") == z && OneLine("")
  {
  }

  lemma {:induction false} SomeMeaning(records: seq<Record>, zone: string)
    requires AllValid(records) && zone in Zones(records)
    ensures ZoneMeaning(records, zone) != []
  {
    hide Valid, Meaning, Eligible, ZoneOf, Zones;
    if records == [] {
      NoZones(records);
    } else {
      var n := |records| - 1;
      ZonesSnoc(records, n);
      assert records[..n + 1] == records;
      if !(Eligible(records[n]) && ZoneOf(records[n]) == zone) { SomeMeaning(records[..n], zone); }
    }
  }

  lemma ZoneIsToken(records: seq<Record>, zone: string)
    requires AllValid(records) && zone in Zones(records)
    ensures ZoneName(zone) && Bare(zone) == zone
  {
    hide SplitDomain, NameToken, TrimSpace, Eligible;
    var i :| 0 <= i < |records| && Eligible(records[i]) && ZoneOf(records[i]) == zone;
    assert Valid(records[i]);
    SplitCompletes(records[i].name);
    TokenTrimmed(zone);
  }

  /** A zone's file reads as exactly the zone's records, in stored order, under their full names. */
  lemma FileMeansRecords(records: seq<Record>, zone: string, canonicalIP: (string, bool) -> string)
    requires AllValid(records) && zone in Zones(records)
    ensures FileOf(records, zone, canonicalIP).Some?
    ensures ReadZone(FileOf(records, zone, canonicalIP).value) == Zone(zone + ".", ZoneMeaning(records, zone))
  {
    hide AllValid, ZoneMeaning, RecordLines, Group, Zones, NameToken, ReadLine, Unlines, Split, Head, Bare, OneLine;
    ZoneIsToken(records, zone);
    GroupReadsBack(records, zone, canonicalIP);
    SomeMeaning(records, zone);
    HeadReads(zone);
    var head := Head(zone, DEFAULT_TTL);
    var lines := RecordLines(zone, DEFAULT_TTL, Group(records, zone), canonicalIP).value;
    ReadLinesConcat(Zone("", []), head, lines);
    ReadLinesConcat(Zone("", []), head + lines, [""]);
    ReadOneLine(Zone(zone + ".", ZoneMeaning(records, zone)), "");
    BlankLine(Zone(zone + ".", ZoneMeaning(records, zone)));
    SplitUnlines(head + lines);
  }

  /* ---------- every record, in exactly one zone ---------- */

  ghost function AllMeanings(records: seq<Record>): multiset<Resource>
    requires AllValid(records)
  {
    if records == [] then multiset{}
    else
      var r := records[|records| - 1];
      AllMeanings(records[..|records| - 1]) + if Eligible(r) then multiset{Meaning(r)} else multiset{}
  }

  /** What the files of several zones say together. */
  ghost function Together(records: seq<Record>, zones: seq<string>): multiset<Resource>
    requires AllValid(records)
  {
    if zones == [] then multiset{}
    else Together(records, zones[..|zones| - 1]) + multiset(ZoneMeaning(records, zones[|zones| - 1]))
  }

  predicate DistinctZones(zones: seq<string>) { forall i, j :: 0 <= i < j < |zones| ==> zones[i] != zones[j] }

  lemma ZoneMeaningSnoc(records: seq<Record>, zone: string)
    requires AllValid(records) && records != []
    ensures var init, r := records[..|records| - 1], records[|records| - 1];
            multiset(ZoneMeaning(records, zone)) ==
            multiset(ZoneMeaning(init, zone)) +
            if Eligible(r) && ZoneOf(r) == zone then multiset{Meaning(r)} else multiset{}
  {
    hide Valid, Meaning, Eligible, ZoneOf;
  }

  lemma {:induction false} TogetherSnoc(records: seq<Record>, zones: seq<string>)
    requires AllValid(records) && records != [] && DistinctZones(zones)
    ensures var r := records[|records| - 1];
            Together(records, zones) ==
            Together(records[..|records| - 1], zones) +
            if Eligible(r) && ZoneOf(r) in zones then multiset{Meaning(r)} else multiset{}
  {
    hide Valid, Meaning, Eligible, ZoneOf, ZoneMeaning, DistinctZones;
    if zones != [] {
      var n := |zones| - 1;
      ZoneMeaningSnoc(records, zones[n]);
      LastZone(zones);
      TogetherSnoc(records, zones[..n]);
    }
  }

  lemma LastZone(zones: seq<string>)
    requires zones != [] && DistinctZones(zones)
    ensures DistinctZones(zones[..|zones| - 1]) && zones[|zones| - 1] !in zones[..|zones| - 1]
    ensures forall z :: z in zones <==> z in zones[..|zones| - 1] || z == zones[|zones| - 1]
  {
    assert zones == zones[..|zones| - 1] + [zones[|zones| - 1]];
  }

  lemma {:induction false} TogetherNone(zones: seq<string>)
    ensures Together([], zones) == multiset{}
  {
    if zones != [] { TogetherNone(zones[..|zones| - 1]); }
  }

  lemma {:induction false} ZonesPartition(records: seq<Record>, zones: seq<string>)
    requires AllValid(records) && DistinctZones(zones)
    requires forall i :: 0 <= i < |records| && Eligible(records[i]) ==> ZoneOf(records[i]) in zones
    ensures Together(records, zones) == AllMeanings(records)
  {
    hide Valid, Meaning, Eligible, ZoneOf, DistinctZones;
    if records == [] {
      TogetherNone(zones);
    } else {
      ZonesPartition(records[..|records| - 1], zones);
      TogetherSnoc(records, zones);
    }
  }

  /** The zone files together denote exactly the stored records, each in exactly one zone. */
  lemma RewritesMeanRecords(records: seq<Record>, canonicalIP: (string, bool) -> string)
    requires AllValid(records)
    ensures forall z :: z in Zones(records) ==>
              && FileOf(records, z, canonicalIP).Some?
              && ReadZone(FileOf(records, z, canonicalIP).value) == Zone(z + ".", ZoneMeaning(records, z))
    ensures Together(records, Sorted(Zones(records))) == AllMeanings(records)
  {
    hide AllValid, ZoneMeaning, FileOf, ReadZone, Sorted, Less;
    forall z | z in Zones(records)
      ensures FileOf(records, z, canonicalIP).Some?
              && ReadZone(FileOf(records, z, canonicalIP).value) == Zone(z + ".", ZoneMeaning(records, z))
    {
      FileMeansRecords(records, z, canonicalIP);
    }
    SortedAscending(Zones(records));
    AscendingDistinct(Sorted(Zones(records)));
    ZonesPartition(records, Sorted(Zones(records)));
  }

  lemma AscendingDistinct(zones: seq<string>)
    requires Ascending(zones)
    ensures DistinctZones(zones)
  {
    hide Less;
    forall i, j | 0 <= i < j < |zones| ensures zones[i] != zones[j] { LessIrreflexive(zones[i]); }
  }
}
