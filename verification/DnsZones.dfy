/** Zone files for the custom DNS records other than addresses: how records are grouped into
    zones and how one zone is written. */
module DnsZones {
  import opened Text
  import opened Lines
  import opened DnsNames

  const DEFAULT_TTL: nat := 300

  datatype Record = Record(name: string, kind: string, value: string, ttl: int, enabled: bool)

  datatype Kind = A | AAAA | CNAME | TXT | PTR | MX | NS

  function KindText(k: Kind): string {
    match k
    case A => "A" case AAAA => "AAAA" case CNAME => "CNAME" case TXT => "TXT"
    case PTR => "PTR" case MX => "MX" case NS => "NS"
  }

  /** `unicode.ToUpper` on ASCII and on the two other characters whose upper case is ASCII. */
  function UpperChar(c: char): char {
    if 'a' <= c <= 'z' then c - 'a' + 'A'
    else if c == '\U{131}' then 'I'
    else if c == '\U{17F}' then 'S'
    else c
  }

  function ToUpper(s: string): string {
    seq(|s|, i requires 0 <= i < |s| => UpperChar(s[i]))
  }

  /** The record type a text names, in any letter case. */
  function KindOf(text: string): Option<Kind> {
    var t := ToUpper(TrimSpace(text));
    if t == "A" then Some(A)
    else if t == "AAAA" then Some(AAAA)
    else if t == "CNAME" then Some(CNAME)
    else if t == "TXT" then Some(TXT)
    else if t == "PTR" then Some(PTR)
    else if t == "MX" then Some(MX)
    else if t == "NS" then Some(NS)
    else None
  }

  lemma UpperAscii(c: char)
    requires c < '\U{80}'
    ensures ToUpper([c]) == if 'a' <= c <= 'z' then [c - ' '] else [c]
  {
  }

  /** The seven types, by name, and no other text. */
  lemma KindExactly(text: string)
    ensures KindOf(text).Some? <==> ToUpper(TrimSpace(text)) in {"A", "AAAA", "CNAME", "TXT", "PTR", "MX", "NS"}
    ensures KindOf(text).Some? ==> KindText(KindOf(text).value) == ToUpper(TrimSpace(text))
  {
    hide TrimSpace, ToUpper;
  }

  /* ---------- zones ---------- */

  /** The zone a domain belongs to and its owner name there. */
  function SplitDomain(domain: string): (string, string) {
    var fqdn := Normalize(domain);
    if fqdn == "" then ("", "")
    else
      var labels := Split(fqdn, '.');
      if |labels| == 1 then (fqdn, "@") else (Join(labels[1..], '.'), labels[0])
  }

  function ZoneOf(r: Record): string { SplitDomain(r.name).0 }
  function OwnerOf(r: Record): string { SplitDomain(r.name).1 }

  /** The records that go to a zone file. */
  predicate Eligible(r: Record) {
    r.enabled && KindOf(r.kind) != Some(A) && KindOf(r.kind) != Some(AAAA) && ZoneOf(r) != ""
  }

  function Zones(records: seq<Record>): set<string> {
    set i | 0 <= i < |records| && Eligible(records[i]) :: ZoneOf(records[i])
  }

  /** The records of one zone under their owner names, in stored order. */
  function Group(records: seq<Record>, zone: string): seq<Record> {
    if records == [] then []
    else
      var init := Group(records[..|records| - 1], zone);
      var r := records[|records| - 1];
      if Eligible(r) && ZoneOf(r) == zone then init + [r.(name := OwnerOf(r))] else init
  }

  lemma GroupSnoc(records: seq<Record>, i: nat, zone: string)
    requires i < |records|
    ensures Group(records[..i + 1], zone) ==
            if Eligible(records[i]) && ZoneOf(records[i]) == zone
            then Group(records[..i], zone) + [records[i].(name := OwnerOf(records[i]))] else Group(records[..i], zone)
  {
    hide Eligible, ZoneOf, OwnerOf;
    assert records[..i + 1][..i] == records[..i];
  }

  lemma ZonesSnoc(records: seq<Record>, i: nat)
    requires i < |records|
    ensures Zones(records[..i + 1]) == Zones(records[..i]) + if Eligible(records[i]) then {ZoneOf(records[i])} else {}
  {
    hide Eligible, ZoneOf;
    var next := records[..i + 1];
    forall z | z in Zones(records[..i]) ensures z in Zones(next) {
      var j :| 0 <= j < i && Eligible(records[..i][j]) && z == ZoneOf(records[..i][j]);
      assert next[j] == records[j];
    }
    forall z | z in Zones(next) && z !in Zones(records[..i]) ensures Eligible(records[i]) && z == ZoneOf(records[i]) {
      var j :| 0 <= j < i + 1 && Eligible(next[j]) && z == ZoneOf(next[j]);
    }
    assert next[i] == records[i];
  }

  lemma {:induction false} GroupEmpty(records: seq<Record>, zone: string)
    requires zone !in Zones(records)
    ensures Group(records, zone) == []
  {
    hide Eligible, ZoneOf, OwnerOf, Zones;
    if records != [] {
      var n := |records| - 1;
      ZonesSnoc(records, n);
      assert records[..n + 1] == records;
      GroupEmpty(records[..n], zone);
    }
  }

  /* ---------- one line ---------- */

  function ReplaceAll(s: string, pattern: string, substitute: string): string
    requires pattern != ""
    decreases |s|
  {
    if s == "" then ""
    else if pattern <= s then substitute + ReplaceAll(s[|pattern|..], pattern, substitute)
    else [s[0]] + ReplaceAll(s[1..], pattern, substitute)
  }

  function FormatTxt(value: string): string {
    if value != "" && value[0] == '\"' && value[|value| - 1] == '\"' then value
    else "\"" + ReplaceAll(ReplaceAll(value, "\\\"", "\\\\\""), "\"", "\\\"") + "\""
  }

  /** A target: the zone itself, an absolute name, or a name completed by the zone. */
  function FormatHost(value: string, zone: string): string {
    var v := TrimDot(TrimSpace(value));
    if v == "" || v == "@" then TrimDot(zone) + "."
    else if '.' in v then v + "."
    else v + "." + TrimDot(zone) + "."
  }

  function FormatMx(value: string, zone: string): Option<string> {
    var parts := Fields(value);
    if |parts| < 2 || Atoi(parts[0]).None? then None
    else Some(Itoa(Atoi(parts[0]).value) + " " + FormatHost(Join(parts[1..], ' '), zone))
  }

  function FormatData(k: Kind, value: string, zone: string, canonicalIP: (string, bool) -> string): Option<string> {
    match k
    case A => Some(canonicalIP(value, true))
    case AAAA => Some(canonicalIP(value, false))
    case TXT => Some(FormatTxt(value))
    case MX => FormatMx(value, zone)
    case _ => Some(FormatHost(value, zone))
  }

  function Ttl(r: Record, defaultTTL: nat): nat { if r.ttl <= 0 then defaultTTL else r.ttl }

  function Line(name: string, ttl: nat, kind: string, data: string): string {
    name + " " + (Decimal(ttl) + " " + ("IN " + (kind + " " + data)))
  }

  /** `formatZoneLine`: None is its error. */
  function FormatLine(zone: string, defaultTTL: nat, r: Record, canonicalIP: (string, bool) -> string): Option<string> {
    var trimmed := TrimDot(TrimSpace(r.name));
    var name := if trimmed == "" then "@" else trimmed;
    match KindOf(r.kind)
    case None => None
    case Some(k) =>
      match FormatData(k, TrimSpace(r.value), zone, canonicalIP)
      case None => None
      case Some(data) => Some(Line(name, Ttl(r, defaultTTL), KindText(k), data))
  }

  /* ---------- one file ---------- */

  function Bare(zone: string): string { TrimDot(TrimSpace(zone)) }

  function Head(zone: string, defaultTTL: nat): seq<string> {
    ["$ORIGIN " + zone + ".", "$TTL " + Decimal(defaultTTL), ""]
  }

  /** The lines of the enabled records; None when one of them has no line. */
  function RecordLines(zone: string, defaultTTL: nat, records: seq<Record>, canonicalIP: (string, bool) -> string)
    : Option<seq<string>>
  {
    if records == [] then Some([])
    else
      var r := records[|records| - 1];
      match RecordLines(zone, defaultTTL, records[..|records| - 1], canonicalIP)
      case None => None
      case Some(init) =>
        if !r.enabled then Some(init)
        else match FormatLine(zone, defaultTTL, r, canonicalIP)
          case None => None
          case Some(l) => Some(init + [l])
  }

  function AuthorityLine(zone: string, defaultTTL: nat): string {
    "@ " + Decimal(defaultTTL) + " IN SOA " + zone + ". hostadmin." + zone + ". ( 1 7200 3600 86400 300 )"
  }

  function ZoneLines(zone: string, defaultTTL: nat, records: seq<Record>, canonicalIP: (string, bool) -> string)
    : Option<seq<string>>
  {
    match RecordLines(Bare(zone), defaultTTL, records, canonicalIP)
    case None => None
    case Some(lines) =>
      Some(Head(Bare(zone), defaultTTL) + if lines == [] then [AuthorityLine(Bare(zone), defaultTTL)] else lines)
  }

  function ZoneText(zone: string, defaultTTL: int, records: seq<Record>, canonicalIP: (string, bool) -> string)
    : Option<string>
  {
    match ZoneLines(zone, if defaultTTL <= 0 then DEFAULT_TTL else defaultTTL, records, canonicalIP)
    case None => None
    case Some(lines) => Some(Unlines(lines))
  }

  lemma RecordLinesSnoc(zone: string, defaultTTL: nat, records: seq<Record>, i: nat,
                        canonicalIP: (string, bool) -> string)
    requires i < |records|
    ensures RecordLines(zone, defaultTTL, records[..i + 1], canonicalIP) ==
            match RecordLines(zone, defaultTTL, records[..i], canonicalIP)
            case None => None
            case Some(init) =>
              if !records[i].enabled then Some(init)
              else match FormatLine(zone, defaultTTL, records[i], canonicalIP)
                case None => None
                case Some(l) => Some(init + [l])
  {
    hide FormatLine;
    assert records[..i + 1][..i] == records[..i];
  }

  lemma {:induction false} RecordLinesFail(zone: string, defaultTTL: nat, records: seq<Record>, i: nat,
                                            canonicalIP: (string, bool) -> string)
    requires i <= |records| && RecordLines(zone, defaultTTL, records[..i], canonicalIP).None?
    ensures RecordLines(zone, defaultTTL, records, canonicalIP).None?
    decreases |records| - i
  {
    hide RecordLines, FormatLine;
    if i < |records| {
      RecordLinesSnoc(zone, defaultTTL, records, i, canonicalIP);
      RecordLinesFail(zone, defaultTTL, records, i + 1, canonicalIP);
    } else {
      assert records[..i] == records;
    }
  }

  lemma HeadText(zone: string, defaultTTL: nat)
    ensures "" + ("$ORIGIN " + zone + ".") + "\n" + ("$TTL " + Decimal(defaultTTL)) + "\n" + "" + "\n" ==
            Unlines(Head(zone, defaultTTL))
  {
    hide Decimal, Unlines;
    var h := Head(zone, defaultTTL);
    NoLines();
    UnlinesSnoc([], h[0]);
    UnlinesSnoc([] + [h[0]], h[1]);
    UnlinesSnoc([] + [h[0]] + [h[1]], h[2]);
    assert [] + [h[0]] + [h[1]] + [h[2]] == h;
  }

  method WriteZoneFile(zone: string, defaultTTL: int, records: seq<Record>, canonicalIP: (string, bool) -> string)
    returns (body: Option<string>)
    ensures body == ZoneText(zone, defaultTTL, records, canonicalIP)
  {
    hide TrimDot, TrimSpace, RecordLines, FormatLine, Unlines, Head, AuthorityLine, ToBase;
    var z := TrimDot(TrimSpace(zone));
    assert z == Bare(zone);
    var ttl: nat := if defaultTTL <= 0 then DEFAULT_TTL else defaultTTL;
    var buf := new Buffer();
    HeadText(z, ttl);
    buf.Line("$ORIGIN " + z + ".");
    buf.Line("$TTL " + Decimal(ttl));
    buf.Line("");
    ghost var lines: seq<string> := [];
    var wrote := 0;
    NoRecords(z, ttl, records, canonicalIP);
    assert Head(z, ttl) + [] == Head(z, ttl);
    for i := 0 to |records|
      invariant RecordLines(z, ttl, records[..i], canonicalIP) == Some(lines)
      invariant fresh(buf) && buf.text == Unlines(Head(z, ttl) + lines) && wrote == |lines|
    {
      RecordLinesSnoc(z, ttl, records, i, canonicalIP);
      var r := records[i];
      if !r.enabled { continue; }
      var line := FormatLine(z, ttl, r, canonicalIP);
      if line.None? {
        RecordLinesFail(z, ttl, records, i + 1, canonicalIP);
        return None;
      }
      UnlinesSnoc(Head(z, ttl) + lines, line.value);
      assert Head(z, ttl) + lines + [line.value] == Head(z, ttl) + (lines + [line.value]);
      buf.Line(line.value);
      lines := lines + [line.value];
      wrote := wrote + 1;
    }
    assert records[..|records|] == records;
    if wrote == 0 {
      UnlinesSnoc(Head(z, ttl), AuthorityLine(z, ttl));
      buf.Line(AuthorityLine(z, ttl));
    }
    return Some(buf.text);
  }

  lemma NoRecords(zone: string, defaultTTL: nat, records: seq<Record>, canonicalIP: (string, bool) -> string)
    ensures RecordLines(zone, defaultTTL, records[..0], canonicalIP) == Some([])
  {
  }

  /* ---------- all zones ---------- */

  /** A zone and the text of its file. */
  datatype Block = Block(zone: string, body: string)

  function FileOf(records: seq<Record>, zone: string, canonicalIP: (string, bool) -> string): Option<string> {
    ZoneText(zone, DEFAULT_TTL, Group(records, zone), canonicalIP)
  }

  method GroupByZone(records: seq<Record>) returns (byZone: map<string, seq<Record>>)
    ensures byZone.Keys == Zones(records)
    ensures forall z :: z in byZone ==> byZone[z] == Group(records, z)
  {
    hide Zones, Group, KindOf, SplitDomain;
    byZone := map[];
    NoZones(records);
    for i := 0 to |records|
      invariant byZone.Keys == Zones(records[..i])
      invariant forall z :: z in byZone ==> byZone[z] == Group(records[..i], z)
    {
      ZonesSnoc(records, i);
      forall z ensures Group(records[..i + 1], z) ==
                       if Eligible(records[i]) && ZoneOf(records[i]) == z
                       then Group(records[..i], z) + [records[i].(name := OwnerOf(records[i]))]
                       else Group(records[..i], z) {
        GroupSnoc(records, i, z);
      }
      var r := records[i];
      if !r.enabled { continue; }
      var kind := KindOf(r.kind);
      if kind == Some(A) || kind == Some(AAAA) { continue; }
      var (zone, owner) := SplitDomain(r.name);
      if zone == "" { continue; }
      if zone !in byZone { GroupEmpty(records[..i], zone); }
      var earlier := if zone in byZone then byZone[zone] else [];
      byZone := byZone[zone := earlier + [r.(name := owner)]];
    }
    assert records[..|records|] == records;
  }

  lemma NoZones(records: seq<Record>)
    ensures Zones(records[..0]) == {} && (records == [] ==> Zones(records) == {})
  {
  }

  /** One file per zone, zones in ascending order; None when some record has no line. */
  method PrepareRewriteZones(records: seq<Record>, canonicalIP: (string, bool) -> string)
    returns (blocks: Option<seq<Block>>)
    ensures blocks.None? <==> exists z :: z in Zones(records) && FileOf(records, z, canonicalIP).None?
    ensures blocks.Some? ==>
              && |blocks.value| == |Sorted(Zones(records))|
              && forall i :: 0 <= i < |blocks.value| ==>
                   && blocks.value[i].zone == Sorted(Zones(records))[i]
                   && FileOf(records, blocks.value[i].zone, canonicalIP) == Some(blocks.value[i].body)
  {
    hide Zones, Group, ZoneText, Sorted;
    var byZone := GroupByZone(records);
    var zones := SortKeys(byZone.Keys);
    var out: seq<Block> := [];
    for i := 0 to |zones|
      invariant |out| == i
      invariant forall j :: 0 <= j < i ==>
                  out[j].zone == zones[j] && FileOf(records, zones[j], canonicalIP) == Some(out[j].body)
    {
      var zone := zones[i];
      assert zone in zones;
      var body := WriteZoneFile(zone, DEFAULT_TTL, byZone[zone], canonicalIP);
      if body.None? {
        assert FileOf(records, zone, canonicalIP).None?;
        return None;
      }
      out := out + [Block(zone, body.value)];
    }
    forall z | z in Zones(records) ensures FileOf(records, z, canonicalIP).Some? {
      assert z in zones;
      var i :| 0 <= i < |zones| && zones[i] == z;
    }
    return Some(out);
  }

  /* ---------- the text around the records ---------- */

  /** Every file begins with its origin and the default TTL. */
  lemma FileBegins(records: seq<Record>, zone: string, canonicalIP: (string, bool) -> string)
    requires FileOf(records, zone, canonicalIP).Some?
    ensures "$ORIGIN " + Bare(zone) + ".\n$TTL 300\n\n" <= FileOf(records, zone, canonicalIP).value
  {
    hide RecordLines, Unlines, Group, TrimSpace, Head, AuthorityLine;
    var lines := RecordLines(Bare(zone), DEFAULT_TTL, Group(records, zone), canonicalIP).value;
    var rest := if lines == [] then [AuthorityLine(Bare(zone), DEFAULT_TTL)] else lines;
    UnlinesConcat(Head(Bare(zone), DEFAULT_TTL), rest);
    HeadPrinted(Bare(zone));
  }

  lemma HeadPrinted(zone: string)
    ensures Unlines(Head(zone, DEFAULT_TTL)) == "$ORIGIN " + zone + ".\n$TTL 300\n\n"
  {
    hide Unlines, ToBase;
    ThreeHundred();
    HeadText(zone, 300);
    assert "" + ("$ORIGIN " + zone + ".") + "\n" + ("$TTL " + "300") + "\n" + "" + "\n" ==
           "$ORIGIN " + zone + (".\n" + ("$TTL " + "300" + "\n\n"));
    assert ".\n" + ("$TTL " + "300" + "\n\n") == ".\n$TTL 300\n\n";
  }

  lemma ThreeHundred()
    ensures Decimal(300) == "300"
  {
    assert Decimal(3) == "3" && Decimal(30) == "30";
  }

  /** Without an enabled record a zone file has an authority record instead. */
  lemma NobodyWritten(zone: string, defaultTTL: int, records: seq<Record>, canonicalIP: (string, bool) -> string)
    requires forall r :: r in records ==> !r.enabled
    ensures var z, n := Bare(zone), Decimal(if defaultTTL <= 0 then 300 else defaultTTL);
            ZoneText(zone, defaultTTL, records, canonicalIP) ==
            Some(Unlines(["$ORIGIN " + z + ".", "$TTL " + n, "",
                          "@ " + n + " IN SOA " + z + ". hostadmin." + z + ". ( 1 7200 3600 86400 300 )"]))
  {
    hide Unlines, TrimSpace, ToBase;
    var ttl: nat := if defaultTTL <= 0 then DEFAULT_TTL else defaultTTL;
    NoLinesWritten(Bare(zone), ttl, records, canonicalIP);
    assert Head(Bare(zone), ttl) + [AuthorityLine(Bare(zone), ttl)] ==
           ["$ORIGIN " + Bare(zone) + ".", "$TTL " + Decimal(ttl), "", AuthorityLine(Bare(zone), ttl)];
  }

  lemma {:induction false} NoLinesWritten(zone: string, ttl: nat, records: seq<Record>,
                                          canonicalIP: (string, bool) -> string)
    requires forall r :: r in records ==> !r.enabled
    ensures RecordLines(zone, ttl, records, canonicalIP) == Some([])
  {
    hide FormatLine;
    if records != [] { NoLinesWritten(zone, ttl, records[..|records| - 1], canonicalIP); }
  }

  /** A line begins with the record's name without a trailing dot, or "@" when it is blank, and its TTL. */
  lemma LineBegins(zone: string, defaultTTL: nat, r: Record, canonicalIP: (string, bool) -> string)
    requires FormatLine(zone, defaultTTL, r, canonicalIP).Some?
    ensures var name := TrimDot(TrimSpace(r.name));
            (if name == "" then "@" else name) + (" " + Decimal(if r.ttl <= 0 then defaultTTL else r.ttl) + " IN ")
            <= FormatLine(zone, defaultTTL, r, canonicalIP).value
  {
    hide TrimSpace, ToBase, FormatData, KindText, KindOf;
    var k := KindOf(r.kind).value;
    var data := FormatData(k, TrimSpace(r.value), zone, canonicalIP).value;
    var name := TrimDot(TrimSpace(r.name));
    var owner, ttl := if name == "" then "@" else name, Decimal(if r.ttl <= 0 then defaultTTL else r.ttl);
    assert FormatLine(zone, defaultTTL, r, canonicalIP).value ==
           owner + (" " + ttl + " IN ") + (KindText(k) + " " + data);
  }
}
