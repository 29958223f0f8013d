/** Which custom DNS records the program accepts, and that accepted records are written faithfully. */
module DnsValidate {
  import opened Text
  import opened Lines
  import opened DnsNames
  import opened DnsStrings
  import opened DnsTxt
  import opened DnsZones
  import opened DnsZoneMeaning

  /** `unicode.IsLetter` or `unicode.IsDigit`: below 0x80 only letters and digits, and never a blank. */
  ghost predicate LettersAndDigits(letter: char -> bool) {
    forall c :: letter(c) ==> LabelChar(c) && c != '-'
  }

  predicate LabelPasses(text: string, letter: char -> bool) {
    && text != "" && ByteLength(text) <= 63
    && text[0] != '-' && text[|text| - 1] != '-'
    && forall i :: 0 <= i < |text| ==> letter(text[i]) || text[i] == '-'
  }

  method ValidateDNSLabel(text: string, letter: char -> bool) returns (ok: bool)
    ensures ok == LabelPasses(text, letter)
  {
    hide ByteLength;
    if text == "" || ByteLength(text) > 63 { return false; }
    if text[0] == '-' || text[|text| - 1] == '-' { return false; }
    for i := 0 to |text|
      invariant forall j :: 0 <= j < i ==> letter(text[j]) || text[j] == '-'
    {
      if letter(text[i]) || text[i] == '-' { continue; }
      return false;
    }
    return true;
  }

  predicate LabelsPass(labels: seq<string>, letter: char -> bool) {
    forall i :: 0 <= i < |labels| ==> LabelPasses(labels[i], letter)
  }

  method ValidateLabels(labels: seq<string>, letter: char -> bool) returns (ok: bool)
    ensures ok == LabelsPass(labels, letter)
  {
    hide LabelPasses;
    for i := 0 to |labels|
      invariant forall j :: 0 <= j < i ==> LabelPasses(labels[j], letter)
    {
      var good := ValidateDNSLabel(labels[i], letter);
      if !good { return false; }
    }
    return true;
  }

  predicate HostPasses(value: string, allowReverse: bool, letter: char -> bool) {
    var host := TrimDot(TrimSpace(value));
    var labels := Split(host, '.');
    && host != ""
    && if allowReverse && '.' in host then forall i :: 0 <= i < |labels| ==> labels[i] != ""
       else if |labels| == 1 then labels[0] == "@" || LabelPasses(labels[0], letter)
       else LabelsPass(labels, letter)
  }

  method ValidateDNSHostname(value: string, allowReverse: bool, letter: char -> bool) returns (ok: bool)
    ensures ok == HostPasses(value, allowReverse, letter)
  {
    hide TrimSpace, Split, LabelPasses;
    var host := TrimDot(TrimSpace(value));
    if host == "" { return false; }
    var labels := Split(host, '.');
    if allowReverse && '.' in host {
      for i := 0 to |labels|
        invariant forall j :: 0 <= j < i ==> labels[j] != ""
      {
        if labels[i] == "" { return false; }
      }
      return true;
    }
    if |labels| == 1 {
      if labels[0] == "@" { return true; }
      ok := ValidateDNSLabel(labels[0], letter);
    } else {
      ok := ValidateLabels(labels, letter);
    }
  }

  predicate MxPasses(value: string, letter: char -> bool) {
    var parts := Fields(value);
    && |parts| >= 2 && Atoi(parts[0]).Some? && 0 <= Atoi(parts[0]).value <= 65535
    && HostPasses(Join(parts[1..], ' '), false, letter)
  }

  predicate DataPasses(k: Kind, value: string, letter: char -> bool, isIP: (string, bool) -> bool) {
    match k
    case A => isIP(value, true)
    case AAAA => isIP(value, false)
    case TXT => ByteLength(value) <= 4096
    case MX => MxPasses(value, letter)
    case PTR => HostPasses(value, true, letter)
    case _ => HostPasses(value, false, letter)
  }

  /** `ValidateDNSRewrite` without its messages. */
  predicate Passes(r: Record, letter: char -> bool, isIP: (string, bool) -> bool) {
    var domain := Normalize(r.name);
    && domain != "" && '.' in domain && LabelsPass(Split(domain, '.'), letter)
    && KindOf(r.kind).Some? && TrimSpace(r.value) != "" && Ttl(r, DEFAULT_TTL) <= 2147483647
    && DataPasses(KindOf(r.kind).value, TrimSpace(r.value), letter, isIP)
  }

  method ValidateDNSRewrite(r: Record, letter: char -> bool, isIP: (string, bool) -> bool) returns (ok: bool)
    ensures ok == Passes(r, letter, isIP)
  {
    hide TrimSpace, Normalize, Split, LabelPasses, HostPasses, ByteLength, KindOf;
    var domain := Normalize(r.name);
    if domain == "" || '.' !in domain { return false; }
    var labelsOk := ValidateLabels(Split(domain, '.'), letter);
    if !labelsOk { return false; }
    var kind := KindOf(r.kind);
    if kind.None? { return false; }
    var value := TrimSpace(r.value);
    if value == "" { return false; }
    var ttl := r.ttl;
    if ttl <= 0 { ttl := DEFAULT_TTL; }
    if ttl > 2147483647 { return false; }
    match kind.value {
      case A => ok := isIP(value, true);
      case AAAA => ok := isIP(value, false);
      case TXT => ok := ByteLength(value) <= 4096;
      case MX =>
        var parts := Fields(value);
        if |parts| < 2 { return false; }
        var prio := Atoi(parts[0]);
        if prio.None? || prio.value < 0 || prio.value > 65535 { return false; }
        ok := ValidateDNSHostname(Join(parts[1..], ' '), false, letter);
      case PTR => ok := ValidateDNSHostname(value, true, letter);
      case _ => ok := ValidateDNSHostname(value, false, letter);
    }
  }

  /* ---------- accepted records are written faithfully ---------- */

  lemma PassedLabels(labels: seq<string>, letter: char -> bool)
    requires LettersAndDigits(letter) && LabelsPass(labels, letter)
    ensures AllLabels(labels)
  {
    hide ByteLength, LabelChar;
    assert LabelChar('-') by { DashLabel(); }
    forall i | 0 <= i < |labels| ensures Label(labels[i]) {
      assert LabelPasses(labels[i], letter);
    }
  }

  lemma DashLabel()
    ensures LabelChar('-')
  {
  }

  lemma PassedHost(value: string, letter: char -> bool)
    requires LettersAndDigits(letter) && HostPasses(value, false, letter)
    ensures PlainTarget(value)
  {
    hide TrimSpace, Split, LabelPasses, NameToken, AllLabels;
    var host := TrimDot(TrimSpace(value));
    var labels := Split(host, '.');
    JoinSplit(host, '.');
    if labels != ["@"] { PassedLabels(labels, letter); }
    LabelsAreTargets(value);
  }

  /** What the validator leaves open: any target may be an absolute name of a single label, a PTR
      target with a dot may hold any character, and a text may hold line feeds, backslashes and
      quotes anywhere. */
  ghost predicate WritableData(k: Kind, value: string) {
    match k
    case TXT => OneLine(value) && Readable(value)
    case PTR => ValidTarget(value)
    case MX => MxShape(value) ==> !AbsoluteLabel(MxTarget(value))
    case CNAME => !AbsoluteLabel(value)
    case NS => !AbsoluteLabel(value)
    case _ => true
  }

  /** The record uses none of the openings. */
  ghost predicate Writable(r: Record) {
    KindOf(r.kind).Some? ==> WritableData(KindOf(r.kind).value, TrimSpace(r.value))
  }

  lemma PassedData(k: Kind, value: string, letter: char -> bool, isIP: (string, bool) -> bool)
    requires LettersAndDigits(letter) && DataPasses(k, value, letter, isIP)
    ensures ValidData(k, value) <==> WritableData(k, value)
  {
    hide HostPasses, PlainTarget, AbsoluteLabel, LettersAndDigits, ByteLength, Join, Fields, Readable;
    match k
    case CNAME => PassedHost(value, letter);
    case NS => PassedHost(value, letter);
    case MX => PassedHost(MxTarget(value), letter);
    case _ =>
  }

  /** A record that passes is valid exactly when it uses none of the openings. */
  lemma PassedIsValid(r: Record, letter: char -> bool, isIP: (string, bool) -> bool)
    requires LettersAndDigits(letter) && Passes(r, letter, isIP)
    ensures ValidName(Normalize(r.name)) && (Valid(r) <==> Writable(r))
  {
    hide TrimSpace, Normalize, Split, KindOf, DataPasses, LettersAndDigits, LabelPasses, Label, ValidData,
         WritableData;
    PassedLabels(Split(Normalize(r.name), '.'), letter);
    PassedData(KindOf(r.kind).value, TrimSpace(r.value), letter, isIP);
  }

  /* ---------- what the first written line of a record says ---------- */

  /** The written data of a record that passes, up to its first line feed, is read as what is stored
      exactly when none of the openings is used; then it is all on one line. */
  lemma FirstLineExactly(k: Kind, value: string, zone: string, letter: char -> bool, isIP: (string, bool) -> bool,
                         canonicalIP: (string, bool) -> string)
    requires k != A && k != AAAA && LettersAndDigits(letter) && DataPasses(k, value, letter, isIP)
    requires ZoneName(zone) && Trimmed(value)
    ensures var data := FormatData(k, value, zone, canonicalIP);
            && data.Some? && data.value != "" && !IsSpace(data.value[0])
            && (WritableData(k, value) ==> OneLine(data.value))
            && ((exists d :: DataSays(k, value, zone, d)
                             && ReadData(KindText(k), FirstLine(data.value), zone + ".") == Some(d)) <==>
                WritableData(k, value))
  {
    hide KindText, HostPasses, ValidTarget, PlainTarget, AbsoluteLabel, LettersAndDigits, ByteLength, FormatHost,
         FormatTxt, ReadHost, IsSpace, ZoneName, Target, Readable, ReadStrings, Denotes, FormatMx, MxMeaning, MxTarget,
         MxShape, Split;
    KindWords(k);
    match k {
      case TXT =>
        TxtShape(value);
        assert !IsSpace('\"') by { QuoteNoSpace(); }
        TextExactly(value);
      case MX => MxExactly(value, zone, letter);
      case PTR => HostExactly(value, true, zone, letter);
      case _ =>
        HostExactly(value, false, zone, letter);
        PassedPlain(value, letter);
    }
  }

  lemma TextExactly(value: string)
    ensures (exists d: Data ::
               d.Texts? && Denotes(value, d.texts) && ReadTexts(FirstLine(FormatTxt(value))) == Some(d)) <==>
            OneLine(value) && Readable(value)
  {
    hide ReadStrings, FormatTxt, Denotes, Readable, Split;
    if OneLine(value) {
      TxtShape(value);
      OneLineSplit(FormatTxt(value));
      TxtExactly(value);
      TextRecovered(value);
    } else {
      forall texts | Denotes(value, texts) ensures ReadTexts(FirstLine(FormatTxt(value))) != Some(Texts(texts)) {
        FirstLineNeverSays(value, texts);
      }
    }
  }

  lemma TextRecovered(value: string)
    ensures (exists d: Data :: d.Texts? && Denotes(value, d.texts) && ReadTexts(FormatTxt(value)) == Some(d)) <==>
            exists texts, comment ::
              Denotes(value, texts) && ReadStrings(FormatTxt(value)) == Some(Strings(texts, comment))
  {
    hide ReadStrings, FormatTxt, Denotes;
    var r := ReadStrings(FormatTxt(value));
    if r.Some? && Denotes(value, r.value.texts) {
      assert Texts(r.value.texts).Texts? && ReadTexts(FormatTxt(value)) == Some(Texts(r.value.texts));
      assert r == Some(Strings(r.value.texts, r.value.comment));
    }
  }

  lemma MxExactly(value: string, zone: string, letter: char -> bool)
    requires LettersAndDigits(letter) && MxPasses(value, letter) && ZoneName(zone)
    ensures MxShape(value)
    ensures var d := FormatMx(value, zone);
            && d.Some? && d.value != "" && !IsSpace(d.value[0]) && OneLine(d.value)
            && (ReadData("MX", FirstLine(d.value), zone + ".") == Some(MxMeaning(value, zone)) <==>
                !AbsoluteLabel(MxTarget(value)))
  {
    hide Fields, Join, Atoi, HostPasses, PlainTarget, AbsoluteLabel, LettersAndDigits, FormatMx, ReadData, MxMeaning,
         IsSpace, ZoneName, Split;
    PassedHost(MxTarget(value), letter);
    MxReadsBackExactly(value, zone);
    OneLineSplit(FormatMx(value, zone).value);
  }

  lemma PassedPlain(value: string, letter: char -> bool)
    requires LettersAndDigits(letter) && HostPasses(value, false, letter)
    ensures ValidTarget(value) <==> !AbsoluteLabel(value)
  {
    hide HostPasses, PlainTarget, AbsoluteLabel, LettersAndDigits;
    PassedHost(value, letter);
  }

  lemma HostExactly(value: string, allowReverse: bool, zone: string, letter: char -> bool)
    requires HostPasses(value, allowReverse, letter) && Trimmed(value) && ZoneName(zone)
    ensures var h := FormatHost(value, zone);
            && h != "" && !IsSpace(h[0])
            && (ReadHost(FirstLine(h), zone + ".") == Some(Host(Target(value, zone))) <==> ValidTarget(value))
            && (ValidTarget(value) ==> OneLine(h))
  {
    hide IsSpace, TrimSpace, Split, LabelPasses, NameToken, PlainTarget, AbsoluteLabel, Target, Complete;
    HostStart(value, zone);
    HostReadsBackExactly(value, zone);
    var h := FormatHost(value, zone);
    if ValidTarget(value) { TokenWord(h); }
    if OneLine(h) {
      OneLineSplit(h);
    } else {
      TargetKeepsLines(value, zone);
      var rest := CutLine(h);
      TokenWord(zone);
      CompleteOneLine(FirstLine(h), zone);
    }
  }

  lemma HostStart(value: string, zone: string)
    requires Trimmed(value) && ZoneName(zone) && TrimDot(TrimSpace(value)) != ""
    ensures FormatHost(value, zone) != "" && !IsSpace(FormatHost(value, zone)[0])
  {
    hide IsSpace, TrimSpace;
    TrimFixed(value);
    TokenWord(zone);
  }

  /** A line feed in the written target comes from the target. */
  lemma TargetKeepsLines(value: string, zone: string)
    requires ZoneName(zone) && !OneLine(FormatHost(value, zone))
    ensures !OneLine(Target(value, zone))
  {
    hide TrimSpace, NameToken;
    TokenWord(zone);
    var v, t := TrimSpace(value), TrimDot(TrimSpace(value));
    assert !OneLine(t);
    assert t <= v;
    assert v <= Target(value, zone);
  }

  lemma CompleteOneLine(name: string, zone: string)
    requires OneLine(name) && OneLine(zone)
    ensures OneLine(Complete(name, zone + "."))
  {
  }

  /** The record is written as one line that is read as what is stored. */
  ghost predicate Recovered(r: Record, canonicalIP: (string, bool) -> string)
    requires KindOf(r.kind).Some?
  {
    var k, value, zone := KindOf(r.kind).value, TrimSpace(r.value), ZoneOf(r);
    var line := FormatLine(zone, DEFAULT_TTL, r.(name := OwnerOf(r)), canonicalIP);
    && line.Some? && OneLine(line.value)
    && exists d :: DataSays(k, value, zone, d)
         && ReadResource(line.value, zone + ".") ==
            Some(Resource(Normalize(r.name) + ".", Ttl(r, DEFAULT_TTL), KindText(k), d))
  }

  lemma DataRecoveredExactly(k: Kind, value: string, zone: string, letter: char -> bool, isIP: (string, bool) -> bool,
                             canonicalIP: (string, bool) -> string)
    requires k != A && k != AAAA && LettersAndDigits(letter) && DataPasses(k, value, letter, isIP)
    requires ZoneName(zone) && Trimmed(value)
    ensures var data := FormatData(k, value, zone, canonicalIP);
            && data.Some? && data.value != "" && !IsSpace(data.value[0])
            && ((OneLine(data.value)
                 && exists d :: DataSays(k, value, zone, d)
                     && ReadData(KindText(k), data.value, zone + ".") == Some(d)) <==>
                WritableData(k, value))
  {
    hide LettersAndDigits, DataPasses, DataSays, WritableData, FormatData, ReadData, KindText, ZoneName, Split,
         IsSpace;
    FirstLineExactly(k, value, zone, letter, isIP, canonicalIP);
    var data := FormatData(k, value, zone, canonicalIP).value;
    if OneLine(data) { OneLineSplit(data); }
  }

  /** A record that passes and goes to a zone file is recovered from its line exactly when it uses
      none of the openings. */
  lemma RecordRecoveredExactly(r: Record, letter: char -> bool, isIP: (string, bool) -> bool,
                               canonicalIP: (string, bool) -> string)
    requires LettersAndDigits(letter) && Passes(r, letter, isIP) && Eligible(r)
    ensures Recovered(r, canonicalIP) <==> Writable(r)
  {
    hide TrimSpace, KindOf, SplitDomain, ValidName, FormatData, ReadData, NameToken, KindText, Complete, ReadResource,
         IsSpace, DataPasses, DataSays, LettersAndDigits, Normalize, WritableData, Line, Valid, ZoneName;
    PassedIsValid(r, letter, isIP);
    var (zone, owner) := SplitDomain(r.name);
    SplitCompletes(r.name);
    TokenTrimmed(owner);
    TokenWord(owner);
    var k, value := KindOf(r.kind).value, TrimSpace(r.value);
    TrimIsTrimmed(r.value);
    DataRecoveredExactly(k, value, zone, letter, isIP, canonicalIP);
    var data := FormatData(k, value, zone, canonicalIP).value;
    LineReadsBack(owner, Ttl(r, DEFAULT_TTL), k, data, zone + ".");
    OneLineLineExactly(owner, Ttl(r, DEFAULT_TTL), k, data);
    assert FormatLine(zone, DEFAULT_TTL, r.(name := owner), canonicalIP) ==
           Some(Line(owner, Ttl(r, DEFAULT_TTL), KindText(k), data));
  }

  lemma OneLineLineExactly(owner: string, ttl: nat, k: Kind, data: string)
    requires NameToken(owner)
    ensures OneLine(Line(owner, ttl, KindText(k), data)) <==> OneLine(data)
  {
    hide NameToken, ToBase, KindText;
    if OneLine(data) { OneLineLine(owner, ttl, k, data); }
    var l := Line(owner, ttl, KindText(k), data);
    assert l == owner + " " + Decimal(ttl) + " IN " + KindText(k) + " " + data;
    if '\n' in data {
      var i :| 0 <= i < |data| && data[i] == '\n';
      assert l[|l| - |data| + i] == '\n';
    }
  }

  /** From the validator to the files: when every record passed, and none uses an opening, the
      zone files denote exactly the stored records. */
  lemma AcceptedRewritesMeanRecords(records: seq<Record>, letter: char -> bool, isIP: (string, bool) -> bool,
                                    canonicalIP: (string, bool) -> string)
    requires LettersAndDigits(letter)
    requires forall i :: 0 <= i < |records| ==> Passes(records[i], letter, isIP) && Writable(records[i])
    ensures AllValid(records)
    ensures forall z :: z in Zones(records) ==>
              && FileOf(records, z, canonicalIP).Some?
              && ReadZone(FileOf(records, z, canonicalIP).value) == Zone(z + ".", ZoneMeaning(records, z))
    ensures Together(records, Sorted(Zones(records))) == AllMeanings(records)
  {
    hide Passes, Writable, Valid, Eligible, FileOf, ReadZone, ZoneMeaning, LettersAndDigits, Sorted, Zones;
    forall i | 0 <= i < |records| ensures Valid(records[i]) {
      PassedIsValid(records[i], letter, isIP);
    }
    RewritesMeanRecords(records, canonicalIP);
  }

  /* ---------- the rules in other words ---------- */

  /** A label is 1 to 63 bytes of letters, digits and hyphens, beginning and ending with a letter or digit. */
  lemma LabelExactly(text: string, letter: char -> bool)
    requires !letter('-')
    ensures LabelPasses(text, letter) <==>
            && 1 <= |text| && ByteLength(text) < 64 && letter(text[0]) && letter(text[|text| - 1])
            && forall c :: c in text ==> c == '-' || letter(c)
  {
    hide ByteLength;
    if forall c :: c in text ==> c == '-' || letter(c) {
      assert forall i :: 0 <= i < |text| ==> text[i] in text;
    }
  }

  /** A target, without blanks around it and without one trailing dot, is "@", or made of labels, or, for a
      reverse name, has dots and no empty piece. */
  lemma HostnameExactly(value: string, allowReverse: bool, letter: char -> bool)
    ensures var t := TrimDot(TrimSpace(value));
            var labels := Split(t, '.');
            HostPasses(value, allowReverse, letter) <==>
            && t != ""
            && (t == "@" || (forall l :: l in labels ==> LabelPasses(l, letter))
                || (allowReverse && |labels| >= 2 && "" !in labels))
  {
    hide TrimSpace, Split, LabelPasses;
    var t := TrimDot(TrimSpace(value));
    var labels := Split(t, '.');
    JoinSplit(t, '.');
    DotMeansPieces(t);
    NoLabelEmpty(letter);
    assert labels == ["@"] <==> t == "@" by { OneAt(); }
    assert forall i :: 0 <= i < |labels| ==> labels[i] in labels;
  }

  lemma NoLabelEmpty(letter: char -> bool)
    ensures !LabelPasses("", letter)
  {
  }

  lemma OneAt()
    ensures Split("@", '.') == ["@"]
  {
  }

  lemma DotMeansPieces(t: string)
    ensures '.' in t <==> |Split(t, '.')| >= 2
  {
  }

  /** A record is accepted when its name has a dot and is made of labels, its value is not blank, its TTL
      is at most 2147483647 (a TTL of zero or less stands for 300), and its data suits its type. */
  lemma AcceptedExactly(r: Record, letter: char -> bool, isIP: (string, bool) -> bool)
    ensures var name, value, kind := Normalize(r.name), TrimSpace(r.value), ToUpper(TrimSpace(r.kind));
            Passes(r, letter, isIP) <==>
            && |Split(name, '.')| >= 2 && (forall l :: l in Split(name, '.') ==> LabelPasses(l, letter))
            && value != "" && r.ttl <= 2147483647
            && (|| (kind == "A" && isIP(value, true)) || (kind == "AAAA" && isIP(value, false))
                || (kind == "TXT" && ByteLength(value) <= 4096)
                || (kind == "MX" && MxPasses(value, letter))
                || (kind == "PTR" && HostPasses(value, true, letter))
                || (kind in {"CNAME", "NS"} && HostPasses(value, false, letter)))
  {
    hide TrimSpace, Split, LabelPasses, HostPasses, MxPasses, ByteLength, Normalize, ToUpper;
    KindExactly(r.kind);
    DotMeansPieces(Normalize(r.name));
    TypesDiffer();
    var labels := Split(Normalize(r.name), '.');
    assert forall i :: 0 <= i < |labels| ==> labels[i] in labels;
  }

  lemma TypesDiffer()
    ensures forall k: Kind :: (KindText(k) == "A" <==> k == A) && (KindText(k) == "AAAA" <==> k == AAAA)
                              && (KindText(k) == "TXT" <==> k == TXT) && (KindText(k) == "MX" <==> k == MX)
    ensures forall k: Kind :: (KindText(k) == "PTR" <==> k == PTR)
                              && (KindText(k) in {"CNAME", "NS"} <==> k == CNAME || k == NS)
  {
  }

  /** An MX value is a number from 0 to 65535, blanks, and a target. */
  lemma MxValueExactly(priority: nat, blanks: string, target: string, letter: char -> bool)
    requires OneWord(target) && blanks != "" && Blank(blanks)
    ensures MxPasses(Decimal(priority) + blanks + target, letter) <==>
            priority <= 65535 && HostPasses(target, false, letter)
  {
    hide ToBase, HostPasses, Atoi, IsSpace;
    MxFields(priority, blanks, target);
    AtoiExactly(priority);
    assert [Decimal(priority), target][1..] == [target];
    assert Join([target], ' ') == target;
  }

  lemma MxFields(priority: nat, blanks: string, target: string)
    requires OneWord(target) && blanks != "" && Blank(blanks)
    ensures Fields(Decimal(priority) + blanks + target) == [Decimal(priority), target]
  {
    hide ToBase, IsSpace;
    DecimalWord(priority);
    FieldsCons(Decimal(priority), blanks[0], blanks[1..] + target);
    assert Decimal(priority) + blanks + target == Decimal(priority) + [blanks[0]] + (blanks[1..] + target);
    FieldsBlank(blanks[1..], target);
    FieldsOne(target);
  }

  lemma {:induction false} FieldsBlank(a: string, s: string)
    requires Blank(a)
    ensures Fields(a + s) == Fields(s)
  {
    hide IsSpace;
    if a == "" {
      assert a + s == s;
    } else {
      FieldsBlank(a[1..], s);
      assert (a + s)[1..] == a[1..] + s;
    }
  }
}
