/** What whole zone files are read as, whatever the records hold: a record may spoil the file it is
    written to, or add records to it. */
module DnsFiles {
  import opened Text
  import opened Lines
  import opened DnsNames
  import opened DnsStrings
  import opened DnsTxt
  import opened DnsZones
  import opened DnsZoneMeaning
  import opened DnsValidate

  predicate InZone(r: Record, zone: string) { Eligible(r) && ZoneOf(r) == zone }

  function DataOf(r: Record, canonicalIP: (string, bool) -> string): Option<string>
    requires KindOf(r.kind).Some?
  {
    FormatData(KindOf(r.kind).value, TrimSpace(r.value), ZoneOf(r), canonicalIP)
  }

  /** A record with a valid name and with data, which does not start with a blank. */
  predicate Written(r: Record, canonicalIP: (string, bool) -> string) {
    && Eligible(r) && ValidName(Normalize(r.name)) && KindOf(r.kind).Some?
    && DataOf(r, canonicalIP).Some? && DataOf(r, canonicalIP).value != "" && !IsSpace(DataOf(r, canonicalIP).value[0])
  }

  function WrittenData(r: Record, canonicalIP: (string, bool) -> string): string
    requires Written(r, canonicalIP)
  {
    DataOf(r, canonicalIP).value
  }

  function EntryLine(r: Record, canonicalIP: (string, bool) -> string): Option<string> {
    FormatLine(ZoneOf(r), DEFAULT_TTL, r.(name := OwnerOf(r)), canonicalIP)
  }

  /* ---------- one record ---------- */

  /** The zone after the first line of a record. */
  function AfterFirst(z: Zone, r: Record, canonicalIP: (string, bool) -> string): Zone
    requires Written(r, canonicalIP)
  {
    var k := KindOf(r.kind).value;
    if z.Malformed? then z
    else match ReadData(KindText(k), FirstLine(WrittenData(r, canonicalIP)), z.origin)
      case None => Malformed
      case Some(d) =>
        z.(records := z.records + [Resource(Complete(OwnerOf(r), z.origin), Ttl(r, DEFAULT_TTL), KindText(k), d)])
  }

  /** Everything on a record's line before its data. */
  function Front(owner: string, ttl: nat, kind: string): string {
    owner + " " + (Decimal(ttl) + " " + ("IN " + (kind + " ")))
  }

  lemma FrontOfLine(owner: string, ttl: nat, k: Kind, data: string)
    requires NameToken(owner)
    ensures Line(owner, ttl, KindText(k), data) == Front(owner, ttl, KindText(k)) + data
    ensures OneLine(Front(owner, ttl, KindText(k)))
  {
    hide NameToken, ToBase, KindText;
    assert OneLine("");
    OneLineLine(owner, ttl, k, "");
    assert Front(owner, ttl, KindText(k)) + "" == Front(owner, ttl, KindText(k));
    assert Line(owner, ttl, KindText(k), "") == Front(owner, ttl, KindText(k)) + "";
    assert Line(owner, ttl, KindText(k), data) == Front(owner, ttl, KindText(k)) + data;
  }

  lemma FirstLineRead(z: Zone, owner: string, ttl: nat, k: Kind, data: string)
    requires NameToken(owner) && data != "" && !IsSpace(data[0])
    ensures ReadLine(z, Line(owner, ttl, KindText(k), data)) ==
            if z.Malformed? then z
            else match ReadData(KindText(k), data, z.origin)
              case None => Malformed
              case Some(d) => z.(records := z.records + [Resource(Complete(owner, z.origin), ttl, KindText(k), d)])
  {
    hide NameToken, Line, ReadResource, ReadData, KindText, Complete, IsSpace, FirstWord;
    if z.Zone? { LineReadsBack(owner, ttl, k, data, z.origin); }
    TokenWord(owner);
    Directives();
  }

  lemma NoFeedFirst(data: string)
    requires data != "" && !IsSpace(data[0])
    ensures FirstLine(data) != "" && !IsSpace(FirstLine(data)[0])
  {
    hide Split;
    FirstLineStart(data);
  }

  /** A record's lines: the first is read as a record or spoils the file, then come the others. */
  lemma EntryReads(z: Zone, r: Record, canonicalIP: (string, bool) -> string)
    requires Written(r, canonicalIP)
    ensures EntryLine(r, canonicalIP).Some?
    ensures ReadLines(z, Split(EntryLine(r, canonicalIP).value, '\n')) ==
            ReadLines(AfterFirst(z, r, canonicalIP), Split(WrittenData(r, canonicalIP), '\n')[1..])
  {
    hide TrimSpace, KindOf, SplitDomain, ValidName, FormatData, ReadData, NameToken, Line, KindText, Complete, IsSpace,
         Split, ReadLine, Normalize, Front;
    var owner, ttl, k, data := OwnerOf(r), Ttl(r, DEFAULT_TTL), KindOf(r.kind).value, WrittenData(r, canonicalIP);
    SplitCompletes(r.name);
    TokenTrimmed(owner);
    TokenWord(owner);
    FrontOfLine(owner, ttl, k, data);
    FrontOfLine(owner, ttl, k, FirstLine(data));
    assert EntryLine(r, canonicalIP).value == Line(owner, ttl, KindText(k), data);
    SplitPrefix(Front(owner, ttl, KindText(k)), data);
    NoFeedFirst(data);
    FirstLineRead(z, owner, ttl, k, FirstLine(data));
    var first, rest := Line(owner, ttl, KindText(k), FirstLine(data)), Split(data, '\n')[1..];
    ReadLinesConcat(z, [first], rest);
    ReadOneLine(z, first);
  }

  /* ---------- one file ---------- */

  function LinesOf(records: seq<Record>, zone: string, canonicalIP: (string, bool) -> string): Option<seq<string>> {
    RecordLines(zone, DEFAULT_TTL, Group(records, zone), canonicalIP)
  }

  /** What the records' part of a zone's file is read as. */
  function StateOf(records: seq<Record>, zone: string, canonicalIP: (string, bool) -> string): Zone
    requires LinesOf(records, zone, canonicalIP).Some?
  {
    ReadLines(Zone(zone + ".", []), Flat(LinesOf(records, zone, canonicalIP).value))
  }

  lemma LinesSnoc(records: seq<Record>, zone: string, canonicalIP: (string, bool) -> string)
    requires records != []
    ensures var before, r := LinesOf(records[..|records| - 1], zone, canonicalIP), records[|records| - 1];
            LinesOf(records, zone, canonicalIP) ==
            if !InZone(r, zone) || before.None? then before
            else match EntryLine(r, canonicalIP) case None => None case Some(l) => Some(before.value + [l])
  {
    hide Eligible, ZoneOf, OwnerOf, FormatLine;
    var n := |records| - 1;
    var r := records[n];
    var group := Group(records[..n], zone);
    if InZone(r, zone) {
      var entry := r.(name := OwnerOf(r));
      assert entry.enabled by { EntryEnabled(r); }
      assert (group + [entry])[..|group|] == group;
    }
  }

  lemma StateSnoc(records: seq<Record>, zone: string, canonicalIP: (string, bool) -> string)
    requires records != [] && LinesOf(records, zone, canonicalIP).Some?
    ensures var init, r := records[..|records| - 1], records[|records| - 1];
            && LinesOf(init, zone, canonicalIP).Some?
            && (!InZone(r, zone) ==> StateOf(records, zone, canonicalIP) == StateOf(init, zone, canonicalIP))
            && (InZone(r, zone) ==>
                  && EntryLine(r, canonicalIP).Some?
                  && StateOf(records, zone, canonicalIP) ==
                     ReadLines(StateOf(init, zone, canonicalIP), Split(EntryLine(r, canonicalIP).value, '\n')))
  {
    hide LinesOf, InZone, EntryLine, ReadLines, Flat, Split;
    LinesSnoc(records, zone, canonicalIP);
    var init, r := records[..|records| - 1], records[|records| - 1];
    if InZone(r, zone) {
      var before, line := LinesOf(init, zone, canonicalIP).value, EntryLine(r, canonicalIP).value;
      FlatSnoc(before, line);
      ReadLinesConcat(Zone(zone + ".", []), Flat(before), Split(line, '\n'));
    }
  }

  lemma NoState(zone: string, canonicalIP: (string, bool) -> string)
    ensures LinesOf([], zone, canonicalIP) == Some([]) && StateOf([], zone, canonicalIP) == Zone(zone + ".", [])
  {
  }

  lemma {:induction false} FlatOneLine(lines: seq<string>)
    requires AllOneLine(lines)
    ensures Flat(lines) == lines
  {
    hide OneLine, Split;
    if lines != [] {
      var n := |lines| - 1;
      FlatOneLine(lines[..n]);
      OneLineSplit(lines[n]);
      assert lines == lines[..n] + [lines[n]];
    }
  }

  lemma {:induction false} FlatConcat(a: seq<string>, b: seq<string>)
    ensures Flat(a + b) == Flat(a) + Flat(b)
  {
    hide Split;
    if b == [] {
      assert a + b == a;
    } else {
      var n := |b| - 1;
      FlatConcat(a, b[..n]);
      assert (a + b)[..|a + b| - 1] == a + b[..n];
    }
  }

  /** A zone's file with at least one record is read as its records' part. */
  lemma FileState(records: seq<Record>, zone: string, canonicalIP: (string, bool) -> string)
    requires ZoneName(zone)
    requires LinesOf(records, zone, canonicalIP).Some? && LinesOf(records, zone, canonicalIP).value != []
    ensures FileOf(records, zone, canonicalIP).Some?
    ensures ReadZone(FileOf(records, zone, canonicalIP).value) == StateOf(records, zone, canonicalIP)
  {
    hide RecordLines, Group, NameToken, ReadLine, ReadLines, Unlines, Split, Head, TrimSpace, OneLine, Flat;
    TokenTrimmed(zone);
    HeadReads(zone);
    var head, lines := Head(zone, DEFAULT_TTL), LinesOf(records, zone, canonicalIP).value;
    FlatUnlines(head + lines);
    FlatConcat(head, lines);
    FlatOneLine(head);
    ReadLinesConcat(Zone("", []), head, Flat(lines));
    ReadLinesConcat(Zone("", []), head + Flat(lines), [""]);
    ReadOneLine(StateOf(records, zone, canonicalIP), "");
    BlankLine(StateOf(records, zone, canonicalIP));
  }

  lemma FileThere(records: seq<Record>, zone: string, canonicalIP: (string, bool) -> string)
    requires ZoneName(zone)
    ensures FileOf(records, zone, canonicalIP).Some? <==> LinesOf(records, zone, canonicalIP).Some?
  {
    hide RecordLines, Group, NameToken, TrimSpace;
    TokenTrimmed(zone);
  }

  lemma {:induction false} LinesThere(records: seq<Record>, zone: string, canonicalIP: (string, bool) -> string)
    requires LinesOf(records, zone, canonicalIP).Some? && zone in Zones(records)
    ensures LinesOf(records, zone, canonicalIP).value != []
  {
    hide LinesOf, Eligible, ZoneOf, EntryLine, Zones;
    if records == [] {
      NoZones(records);
    } else {
      var n := |records| - 1;
      LinesSnoc(records, zone, canonicalIP);
      ZonesSnoc(records, n);
      assert records[..n + 1] == records;
      if !InZone(records[n], zone) { LinesThere(records[..n], zone, canonicalIP); }
    }
  }

  /* ---------- a record that cannot be read ---------- */

  lemma ReadDataAnyOrigin(kind: string, s: string, a: string, b: string)
    ensures ReadData(kind, s, a).None? <==> ReadData(kind, s, b).None?
  {
    hide NameToken, FromBase, ReadStrings;
  }

  lemma {:induction false} MalformedStays(lines: seq<string>)
    ensures ReadLines(Malformed, lines) == Malformed
  {
    if lines != [] { MalformedStays(lines[..|lines| - 1]); }
  }

  /** The first written line of the record's data cannot be read. */
  predicate Unreadable(r: Record, canonicalIP: (string, bool) -> string) {
    && Written(r, canonicalIP)
    && ReadData(KindText(KindOf(r.kind).value), FirstLine(WrittenData(r, canonicalIP)), ZoneOf(r) + ".").None?
  }

  lemma UnreadableEntry(z: Zone, r: Record, canonicalIP: (string, bool) -> string)
    requires Unreadable(r, canonicalIP)
    ensures EntryLine(r, canonicalIP).Some?
    ensures ReadLines(z, Split(EntryLine(r, canonicalIP).value, '\n')) == Malformed
  {
    hide ReadData, EntryLine, ReadLines, Split, DataOf, Eligible, ValidName, KindText, Complete;
    EntryReads(z, r, canonicalIP);
    if z.Zone? {
      ReadDataAnyOrigin(KindText(KindOf(r.kind).value), FirstLine(WrittenData(r, canonicalIP)), z.origin,
                        ZoneOf(r) + ".");
    }
    MalformedStays(Split(WrittenData(r, canonicalIP), '\n')[1..]);
  }

  lemma {:induction false} SpoiledState(records: seq<Record>, i: nat, zone: string,
                                        canonicalIP: (string, bool) -> string)
    requires i < |records| && InZone(records[i], zone) && Unreadable(records[i], canonicalIP)
    requires LinesOf(records, zone, canonicalIP).Some?
    ensures StateOf(records, zone, canonicalIP) == Malformed
  {
    hide LinesOf, InZone, Unreadable, EntryLine, StateOf, Split, ReadLines;
    var n := |records| - 1;
    StateSnoc(records, zone, canonicalIP);
    if i == n {
      UnreadableEntry(StateOf(records[..n], zone, canonicalIP), records[n], canonicalIP);
    } else {
      SpoiledState(records[..n], i, zone, canonicalIP);
      if InZone(records[n], zone) { MalformedStays(Split(EntryLine(records[n], canonicalIP).value, '\n')); }
    }
  }

  /** One record whose written data cannot be read spoils the whole file of its zone, whatever else
      is in it. */
  lemma UnreadableSpoilsFile(records: seq<Record>, i: nat, canonicalIP: (string, bool) -> string)
    requires i < |records| && Unreadable(records[i], canonicalIP)
    requires FileOf(records, ZoneOf(records[i]), canonicalIP).Some?
    ensures ReadZone(FileOf(records, ZoneOf(records[i]), canonicalIP).value) == Malformed
  {
    hide LinesOf, StateOf, FileOf, ReadZone, ZoneOf, Eligible, ReadData, DataOf, FirstLine, ValidName, ZoneName;
    var zone := ZoneOf(records[i]);
    SplitZone(records[i]);
    FileThere(records, zone, canonicalIP);
    assert zone in Zones(records);
    LinesThere(records, zone, canonicalIP);
    FileState(records, zone, canonicalIP);
    SpoiledState(records, i, zone, canonicalIP);
  }

  lemma SplitZone(r: Record)
    requires ValidName(Normalize(r.name))
    ensures ZoneName(ZoneOf(r))
  {
    SplitCompletes(r.name);
  }

  /* ---------- when a file says what is stored ---------- */

  /** The resource says what the record stores, under its full name. */
  ghost predicate Matches(x: Resource, r: Record) {
    && KindOf(r.kind).Some?
    && x.owner == Normalize(r.name) + "." && x.ttl == (if r.ttl <= 0 then 300 else r.ttl)
    && x.kind == ToUpper(TrimSpace(r.kind))
    && DataSays(KindOf(r.kind).value, TrimSpace(r.value), ZoneOf(r), x.data)
  }

  /** One matching resource for each record of the zone, in stored order, and no other. */
  ghost predicate MatchesZone(resources: seq<Resource>, records: seq<Record>, zone: string) {
    if records == [] then resources == []
    else
      var init, r := records[..|records| - 1], records[|records| - 1];
      if !InZone(r, zone) then MatchesZone(resources, init, zone)
      else
        && resources != [] && Matches(resources[|resources| - 1], r)
        && MatchesZone(resources[..|resources| - 1], init, zone)
  }

  function Count(records: seq<Record>, zone: string): nat {
    if records == [] then 0
    else Count(records[..|records| - 1], zone) + if InZone(records[|records| - 1], zone) then 1 else 0
  }

  lemma {:induction false} MatchesCount(resources: seq<Resource>, records: seq<Record>, zone: string)
    requires MatchesZone(resources, records, zone)
    ensures |resources| == Count(records, zone)
  {
    hide InZone, Matches;
    if records != [] {
      var n := |records| - 1;
      MatchesCount(if InZone(records[n], zone) then resources[..|resources| - 1] else resources, records[..n], zone);
    }
  }

  /** Reading on only adds records. */
  lemma {:induction false} ReadingAdds(z: Zone, lines: seq<string>)
    requires ReadLines(z, lines).Zone?
    ensures z.Zone? && z.records <= ReadLines(z, lines).records
  {
    hide ReadResource, FirstWord, AfterWord, Complete;
    if lines != [] { ReadingAdds(z, lines[..|lines| - 1]); }
  }

  /** Every record of the zone passes the validator. */
  ghost predicate AllPass(records: seq<Record>, zone: string, letter: char -> bool, isIP: (string, bool) -> bool) {
    forall i :: 0 <= i < |records| && InZone(records[i], zone) ==> Passes(records[i], letter, isIP)
  }

  ghost predicate AllWritable(records: seq<Record>, zone: string) {
    forall i :: 0 <= i < |records| && InZone(records[i], zone) ==> Writable(records[i])
  }

  lemma FirstAdds(z: Zone, r: Record, canonicalIP: (string, bool) -> string)
    requires Written(r, canonicalIP) && AfterFirst(z, r, canonicalIP).Zone?
    ensures var f := AfterFirst(z, r, canonicalIP);
            && z.Zone? && f.origin == z.origin
            && |f.records| == |z.records| + 1 && f.records[..|z.records|] == z.records
  {
    hide ReadData, Complete, KindText, FormatData, Eligible, ValidName, Ttl, OwnerOf, FirstLine, DataOf;
  }

  /** The first written line of a record that passes is read as what the record stores exactly when it
      uses none of the openings; then that is its only line. */
  lemma EntryExactly(r: Record, rs: seq<Resource>, letter: char -> bool, isIP: (string, bool) -> bool,
                     canonicalIP: (string, bool) -> string)
    requires LettersAndDigits(letter) && Passes(r, letter, isIP) && Eligible(r)
    ensures Written(r, canonicalIP) && ZoneName(ZoneOf(r))
    ensures Writable(r) ==> OneLine(WrittenData(r, canonicalIP))
    ensures var f := AfterFirst(Zone(ZoneOf(r) + ".", rs), r, canonicalIP);
            (f.Zone? && |f.records| == |rs| + 1 && Matches(f.records[|rs|], r)) <==> Writable(r)
  {
    hide TrimSpace, KindOf, SplitDomain, ValidName, FormatData, ReadData, KindText, Complete, IsSpace, ZoneName,
         NameToken, DataPasses, DataSays, LettersAndDigits, Normalize, WritableData, Valid, Split;
    KindExactly(r.kind);
    PassedIsValid(r, letter, isIP);
    SplitCompletes(r.name);
    TrimIsTrimmed(r.value);
    FirstLineExactly(KindOf(r.kind).value, TrimSpace(r.value), ZoneOf(r), letter, isIP, canonicalIP);
  }

  /** What holds of a reader's state after the records of a zone. */
  ghost predicate Exact(z: Zone, records: seq<Record>, zone: string) {
    && (z.Zone? ==> |z.records| >= Count(records, zone))
    && ((z.Zone? && MatchesZone(z.records, records, zone)) <==> AllWritable(records, zone))
    && (AllWritable(records, zone) ==> z.origin == zone + ".")
  }

  lemma ExactlyBack(z: Zone, w: Zone, init: seq<Record>, r: Record, zone: string, letter: char -> bool,
                    isIP: (string, bool) -> bool, canonicalIP: (string, bool) -> string)
    requires LettersAndDigits(letter) && Passes(r, letter, isIP) && InZone(r, zone) && Exact(z, init, zone)
    requires Written(r, canonicalIP)
             && w == ReadLines(AfterFirst(z, r, canonicalIP), Split(WrittenData(r, canonicalIP), '\n')[1..])
    requires w.Zone?
    ensures |w.records| >= Count(init, zone) + 1
    ensures Matches(w.records[|w.records| - 1], r) && MatchesZone(w.records[..|w.records| - 1], init, zone) ==>
              AllWritable(init, zone) && Writable(r)
  {
    hide Eligible, ZoneOf, Passes, Writable, Matches, LettersAndDigits, Split, ReadLines, WrittenData, Written,
         AfterFirst, AllWritable, Count, MatchesZone, Complete;
    var f := AfterFirst(z, r, canonicalIP);
    ReadingAdds(f, Split(WrittenData(r, canonicalIP), '\n')[1..]);
    FirstAdds(z, r, canonicalIP);
    var m := |w.records| - 1;
    if Matches(w.records[m], r) && MatchesZone(w.records[..m], init, zone) {
      MatchesCount(w.records[..m], init, zone);
      assert |z.records| == m && f.records == w.records;
      assert z == Zone(zone + ".", z.records);
      EntryExactly(r, z.records, letter, isIP, canonicalIP);
    }
  }

  lemma ExactlyOn(z: Zone, w: Zone, init: seq<Record>, r: Record, zone: string, letter: char -> bool,
                  isIP: (string, bool) -> bool, canonicalIP: (string, bool) -> string)
    requires LettersAndDigits(letter) && Passes(r, letter, isIP) && InZone(r, zone) && Exact(z, init, zone)
    requires Written(r, canonicalIP)
             && w == ReadLines(AfterFirst(z, r, canonicalIP), Split(WrittenData(r, canonicalIP), '\n')[1..])
    requires AllWritable(init, zone) && Writable(r)
    ensures w.Zone? && w.origin == zone + "." && w.records != []
    ensures Matches(w.records[|w.records| - 1], r) && MatchesZone(w.records[..|w.records| - 1], init, zone)
  {
    hide Eligible, ZoneOf, Passes, Writable, Matches, LettersAndDigits, Split, WrittenData, Written, AfterFirst,
         AllWritable, Count, MatchesZone, Complete, ReadLine;
    assert z == Zone(zone + ".", z.records);
    EntryExactly(r, z.records, letter, isIP, canonicalIP);
    FirstAdds(z, r, canonicalIP);
    OneLineSplit(WrittenData(r, canonicalIP));
  }

  lemma ExactSnoc(w: Zone, records: seq<Record>, zone: string)
    requires records != []
    requires var init, r := records[..|records| - 1], records[|records| - 1];
             if !InZone(r, zone) then Exact(w, init, zone)
             else
               && (w.Zone? ==>
                     && |w.records| >= Count(init, zone) + 1
                     && (Matches(w.records[|w.records| - 1], r)
                         && MatchesZone(w.records[..|w.records| - 1], init, zone) ==>
                           AllWritable(init, zone) && Writable(r)))
               && (AllWritable(init, zone) && Writable(r) ==>
                     && w.Zone? && w.origin == zone + "." && w.records != []
                     && Matches(w.records[|w.records| - 1], r) && MatchesZone(w.records[..|w.records| - 1], init, zone))
    ensures Exact(w, records, zone)
  {
    hide InZone, Matches, Writable;
    var n := |records| - 1;
    var init, r := records[..n], records[n];
    assert AllWritable(records, zone) <==> AllWritable(init, zone) && (InZone(r, zone) ==> Writable(r)) by {
      if AllWritable(records, zone) {
        forall i | 0 <= i < |init| && InZone(init[i], zone) ensures Writable(init[i]) { assert init[i] == records[i]; }
      }
    }
  }

  /** One record at a time: the records' part of a file matches the records exactly when all of them
      are writable. */
  lemma {:induction false} StateExactly(records: seq<Record>, zone: string, letter: char -> bool,
                                        isIP: (string, bool) -> bool, canonicalIP: (string, bool) -> string)
    requires LettersAndDigits(letter) && AllPass(records, zone, letter, isIP)
    ensures LinesOf(records, zone, canonicalIP).Some?
    ensures Exact(StateOf(records, zone, canonicalIP), records, zone)
  {
    hide Eligible, ZoneOf, Passes, Writable, Matches, StateOf, LinesOf, LettersAndDigits, EntryLine, Split, ReadLines,
         WrittenData, Written, AfterFirst, Exact, AllWritable, MatchesZone, Count;
    if records == [] {
      NoState(zone, canonicalIP);
      NothingExact(zone);
    } else {
      var n := |records| - 1;
      var init, r := records[..n], records[n];
      StateExactly(init, zone, letter, isIP, canonicalIP);
      LinesSnoc(records, zone, canonicalIP);
      if InZone(r, zone) {
        EntryExactly(r, [], letter, isIP, canonicalIP);
        EntryReads(StateOf(init, zone, canonicalIP), r, canonicalIP);
        StateSnoc(records, zone, canonicalIP);
        var z, w := StateOf(init, zone, canonicalIP), StateOf(records, zone, canonicalIP);
        if w.Zone? { ExactlyBack(z, w, init, r, zone, letter, isIP, canonicalIP); }
        if AllWritable(init, zone) && Writable(r) { ExactlyOn(z, w, init, r, zone, letter, isIP, canonicalIP); }
      } else {
        StateSnoc(records, zone, canonicalIP);
      }
      ExactSnoc(StateOf(records, zone, canonicalIP), records, zone);
    }
  }

  lemma NothingExact(zone: string)
    ensures Exact(Zone(zone + ".", []), [], zone)
  {
  }

  /** The file of a zone is read as one matching resource for each of its records, and nothing else. */
  ghost predicate Faithful(records: seq<Record>, zone: string, canonicalIP: (string, bool) -> string) {
    var file := FileOf(records, zone, canonicalIP);
    file.Some? && ReadZone(file.value).Zone? && MatchesZone(ReadZone(file.value).records, records, zone)
  }

  /** The file of accepted records is faithful exactly when none of the zone's records uses an opening:
      one record that does spoils its file, or is read as something else, or adds a record. */
  lemma FileFaithfulExactly(records: seq<Record>, zone: string, letter: char -> bool, isIP: (string, bool) -> bool,
                            canonicalIP: (string, bool) -> string)
    requires LettersAndDigits(letter) && AllPass(records, zone, letter, isIP) && zone in Zones(records)
    ensures FileOf(records, zone, canonicalIP).Some?
    ensures Faithful(records, zone, canonicalIP) <==> AllWritable(records, zone)
  {
    hide LettersAndDigits, LinesOf, StateOf, FileOf, ReadZone, ZoneName, Passes, Eligible, MatchesZone, AllWritable,
         Count, ZoneOf, Written, Matches;
    StateExactly(records, zone, letter, isIP, canonicalIP);
    LinesThere(records, zone, canonicalIP);
    var i :| 0 <= i < |records| && Eligible(records[i]) && ZoneOf(records[i]) == zone;
    EntryExactly(records[i], [], letter, isIP, canonicalIP);
    FileState(records, zone, canonicalIP);
  }

  /** All files of accepted records are faithful exactly when none of the records uses an opening. */
  lemma FilesFaithfulExactly(records: seq<Record>, letter: char -> bool, isIP: (string, bool) -> bool,
                             canonicalIP: (string, bool) -> string)
    requires LettersAndDigits(letter)
    requires forall i :: 0 <= i < |records| && Eligible(records[i]) ==> Passes(records[i], letter, isIP)
    ensures (forall z :: z in Zones(records) ==> Faithful(records, z, canonicalIP)) <==>
            forall i :: 0 <= i < |records| && Eligible(records[i]) ==> Writable(records[i])
  {
    hide LettersAndDigits, Passes, Eligible, ZoneOf, Writable, Faithful;
    forall z | z in Zones(records) ensures Faithful(records, z, canonicalIP) <==> AllWritable(records, z) {
      FileFaithfulExactly(records, z, letter, isIP, canonicalIP);
    }
    if forall z :: z in Zones(records) ==> Faithful(records, z, canonicalIP) {
      forall i | 0 <= i < |records| && Eligible(records[i]) ensures Writable(records[i]) {
        assert ZoneOf(records[i]) in Zones(records);
        assert AllWritable(records, ZoneOf(records[i]));
      }
    }
  }

  /* ---------- accepted records that spoil their file ---------- */

  /** A record for "x.y". */
  function Sample(kind: string, value: string): Record { Record("x.y", kind, value, 300, true) }

  lemma SampleName()
    ensures Normalize("x.y") == "x.y" && Split("x.y", '.') == ["x", "y"] && SplitDomain("x.y") == ("y", "x")
  {
    hide TrimSpace, Split, Join;
    TrimFixed("x.y");
    assert ToLower("x.y") == "x.y";
    SplitCons("x", '.', "y");
    assert "x" + ['.'] + "y" == "x.y";
    YAlone();
  }

  lemma YAlone()
    ensures Split("y", '.') == ["y"] && Join(["y"], '.') == "y"
  {
  }

  lemma SampleLabels(letter: char -> bool)
    requires letter('x') && letter('y')
    ensures LabelsPass(["x", "y"], letter)
  {
    assert "x"[..0] == "" && "y"[..0] == "";
  }

  lemma SampleKinds()
    ensures KindOf("PTR") == Some(PTR) && KindOf("TXT") == Some(TXT)
  {
    hide TrimSpace;
    TrimFixed("PTR");
    TrimFixed("TXT");
    assert ToUpper("PTR") == "PTR" && ToUpper("TXT") == "TXT";
  }

  lemma SamplePasses(kind: string, value: string, k: Kind, letter: char -> bool, isIP: (string, bool) -> bool)
    requires letter('x') && letter('y') && KindOf(kind) == Some(k) && k != A && k != AAAA
    requires Trimmed(value) && value != "" && DataPasses(k, value, letter, isIP)
    ensures Passes(Sample(kind, value), letter, isIP) && Eligible(Sample(kind, value))
            && ZoneOf(Sample(kind, value)) == "y"
    ensures TrimSpace(value) == value
  {
    hide TrimSpace, Normalize, Split, KindOf, SplitDomain, DataPasses, LabelsPass;
    SampleName();
    SampleLabels(letter);
    TrimFixed(value);
  }

  lemma SampleSpoils(kind: string, value: string, k: Kind, canonicalIP: (string, bool) -> string)
    requires KindOf(kind) == Some(k) && Eligible(Sample(kind, value)) && ZoneOf(Sample(kind, value)) == "y"
    requires TrimSpace(value) == value
    requires var d := FormatData(k, value, "y", canonicalIP);
             && d.Some? && d.value != "" && !IsSpace(d.value[0]) && OneLine(d.value)
             && ReadData(KindText(k), d.value, "y.") == None
    ensures FileOf([Sample(kind, value)], "y", canonicalIP).Some?
    ensures ReadZone(FileOf([Sample(kind, value)], "y", canonicalIP).value) == Malformed
  {
    hide TrimSpace, Normalize, Split, KindOf, SplitDomain, FormatData, ReadData, KindText, Eligible, ReadZone, FileOf,
         LinesOf, ZoneName;
    SampleName();
    assert ValidName("x.y") by { XYValid(); }
    assert "y" + "." == "y.";
    var r := Sample(kind, value);
    OneLineSplit(FormatData(k, value, "y", canonicalIP).value);
    SplitZone(r);
    OneRecord(r, canonicalIP);
    FileThere([r], "y", canonicalIP);
    UnreadableSpoilsFile([r], 0, canonicalIP);
  }

  /** The file of a single record. */
  lemma OneRecord(r: Record, canonicalIP: (string, bool) -> string)
    requires Written(r, canonicalIP)
    ensures EntryLine(r, canonicalIP).Some?
            && LinesOf([r], ZoneOf(r), canonicalIP) == Some([EntryLine(r, canonicalIP).value])
    ensures StateOf([r], ZoneOf(r), canonicalIP) ==
            ReadLines(Zone(ZoneOf(r) + ".", []), Split(EntryLine(r, canonicalIP).value, '\n'))
  {
    hide Eligible, ValidName, KindOf, DataOf, ZoneOf, EntryLine, LinesOf, StateOf, Split, ReadLines;
    NoState(ZoneOf(r), canonicalIP);
    EntryReads(Malformed, r, canonicalIP);
    assert [r][..0] == [] && [] + [EntryLine(r, canonicalIP).value] == [EntryLine(r, canonicalIP).value];
    LinesSnoc([r], ZoneOf(r), canonicalIP);
    StateSnoc([r], ZoneOf(r), canonicalIP);
  }

  lemma XYValid()
    ensures ValidName("x.y")
  {
    hide Split;
    SampleName();
  }

  /** An accepted PTR record whose target holds a blank spoils the file of its zone. */
  lemma PtrBlankLost(letter: char -> bool, isIP: (string, bool) -> bool, canonicalIP: (string, bool) -> string)
    requires letter('x') && letter('y')
    ensures Passes(Sample("PTR", "a b.c"), letter, isIP) && Eligible(Sample("PTR", "a b.c"))
    ensures FileOf([Sample("PTR", "a b.c")], "y", canonicalIP).Some?
    ensures ReadZone(FileOf([Sample("PTR", "a b.c")], "y", canonicalIP).value) == Malformed
  {
    hide KindOf, Passes, Eligible, FileOf, ReadZone, Sample, HostPasses;
    SampleKinds();
    BlankHost(letter);
    SamplePasses("PTR", "a b.c", PTR, letter, isIP);
    SampleSpoils("PTR", "a b.c", PTR, canonicalIP);
  }

  lemma BlankHost(letter: char -> bool)
    ensures HostPasses("a b.c", true, letter) && Trimmed("a b.c")
    ensures FormatHost("a b.c", "y") == "a b.c." && ReadHost("a b.c.", "y.") == None && OneLine("a b.c.")
            && !IsSpace('a')
    ensures KindText(PTR) == "PTR" && "PTR" != "TXT" && "PTR" != "MX"
  {
    hide TrimSpace, Split;
    TrimFixed("a b.c");
    BlankLabels();
    assert "a b.c."[1] == ' ' && IsSpace(' ');
    assert "a b.c" + "." == "a b.c.";
    assert "a b.c"[3] == '.';
    assert "PTR"[0] == 'P' && "TXT"[0] == 'T' && "MX"[0] == 'M';
  }

  lemma BlankLabels()
    ensures Split("a b.c", '.') == ["a b", "c"]
  {
    SplitCons("a b", '.', "c");
    assert "a b" + ['.'] + "c" == "a b.c";
    assert Split("c", '.') == ["c"];
  }

  /** So does an accepted text that is a single quote. */
  lemma LoneQuoteSpoils(letter: char -> bool, isIP: (string, bool) -> bool, canonicalIP: (string, bool) -> string)
    requires letter('x') && letter('y')
    ensures Passes(Sample("TXT", "\""), letter, isIP) && Eligible(Sample("TXT", "\""))
    ensures FileOf([Sample("TXT", "\"")], "y", canonicalIP).Some?
    ensures ReadZone(FileOf([Sample("TXT", "\"")], "y", canonicalIP).value) == Malformed
  {
    hide KindOf, Passes, Eligible, FileOf, ReadZone, Sample, FormatTxt, ReadStrings;
    SampleKinds();
    QuoteText();
    LoneQuoteLost();
    SamplePasses("TXT", "\"", TXT, letter, isIP);
    SampleSpoils("TXT", "\"", TXT, canonicalIP);
  }

  lemma QuoteText()
    ensures Trimmed("\"") && ByteLength("\"") <= 4096 && OneLine("\"") && !IsSpace('\"') && KindText(TXT) == "TXT"
  {
    assert "\""[..0] == "";
  }

  /* ---------- accepted records that are read as something else ---------- */

  /** What the file of a sample is read as: the first line of its data, then the lines after that. */
  lemma SampleReads(kind: string, value: string, k: Kind, canonicalIP: (string, bool) -> string)
    requires KindOf(kind) == Some(k) && Eligible(Sample(kind, value)) && ZoneOf(Sample(kind, value)) == "y"
    requires TrimSpace(value) == value
    requires var d := FormatData(k, value, "y", canonicalIP);
             && d.Some? && d.value != "" && !IsSpace(d.value[0])
             && ReadData(KindText(k), FirstLine(d.value), "y.").Some?
    ensures FileOf([Sample(kind, value)], "y", canonicalIP).Some?
    ensures var data := FormatData(k, value, "y", canonicalIP).value;
            var first := Resource("x.y.", 300, KindText(k), ReadData(KindText(k), FirstLine(data), "y.").value);
            ReadZone(FileOf([Sample(kind, value)], "y", canonicalIP).value) ==
            ReadLines(Zone("y.", [first]), Split(data, '\n')[1..])
  {
    hide TrimSpace, Normalize, Split, KindOf, SplitDomain, FormatData, ReadData, KindText, Eligible, ReadZone, FileOf,
         LinesOf, ZoneName, ReadLines, StateOf, FirstLine;
    SampleName();
    assert ValidName("x.y") by { XYValid(); }
    assert "y" + "." == "y." && "x" + "." + "y." == "x.y." && "x" != "@";
    var r := Sample(kind, value);
    SplitZone(r);
    OneRecord(r, canonicalIP);
    EntryReads(Zone("y.", []), r, canonicalIP);
    FileState([r], "y", canonicalIP);
    assert AfterFirst(Zone("y.", []), r, canonicalIP).records ==
           [Resource("x.y.", 300, KindText(k),
                     ReadData(KindText(k), FirstLine(WrittenData(r, canonicalIP)), "y.").value)];
  }

  /** Two quoted strings, and between them a line feed and the beginning of a record. */
  const TWO_LINES := "\"a\"\nz 9 IN TXT \"b\""

  /** The file of an accepted text with a line feed holds a record nobody stored. */
  lemma LineFeedAddsRecord(letter: char -> bool, isIP: (string, bool) -> bool, canonicalIP: (string, bool) -> string)
    requires letter('x') && letter('y')
    ensures Passes(Sample("TXT", TWO_LINES), letter, isIP) && Eligible(Sample("TXT", TWO_LINES))
    ensures FileOf([Sample("TXT", TWO_LINES)], "y", canonicalIP).Some?
    ensures ReadZone(FileOf([Sample("TXT", TWO_LINES)], "y", canonicalIP).value) ==
            Zone("y.", [Resource("x.y.", 300, "TXT", Texts(["a"])), Resource("z.y.", 9, "TXT", Texts(["b"]))])
  {
    hide KindOf, Passes, Eligible, FileOf, ReadZone, Sample, FormatTxt, ReadStrings, Split, ReadLines;
    SampleKinds();
    TwoLinesText();
    SamplePasses("TXT", TWO_LINES, TXT, letter, isIP);
    SampleReads("TXT", TWO_LINES, TXT, canonicalIP);
    AddedRecord(Zone("y.", [Resource("x.y.", 300, "TXT", Texts(["a"]))]));
  }

  lemma TwoLinesText()
    ensures Trimmed(TWO_LINES) && TWO_LINES != "" && ByteLength(TWO_LINES) <= 4096 && FormatTxt(TWO_LINES) == TWO_LINES
    ensures Split(TWO_LINES, '\n') == ["\"a\"", "z 9 IN TXT \"b\""] && FirstLine(TWO_LINES) == "\"a\""
    ensures ReadTexts("\"a\"") == Some(Texts(["a"])) && !IsSpace('\"') && KindText(TXT) == "TXT"
  {
    hide ByteLength, Split, ReadTexts;
    FewBytes(TWO_LINES);
    QuotedText('a', "\"a\"");
    TwoLinesSplit();
  }

  lemma TwoLinesSplit()
    ensures Split(TWO_LINES, '\n') == ["\"a\"", "z 9 IN TXT \"b\""]
  {
    hide Split;
    SplitConcat("\"a\"", "z 9 IN TXT \"b\"");
    assert TWO_LINES == "\"a\"" + "\n" + "z 9 IN TXT \"b\"";
    OneLineSplit("\"a\"");
    OneLineSplit("z 9 IN TXT \"b\"");
  }

  lemma QuotedText(c: char, s: string)
    requires c != '\"' && c != '\\' && s == ['\"', c, '\"']
    ensures ReadTexts(s) == Some(Texts([[c]]))
  {
    hide ReadString;
    ReadPlainString([c], "");
    assert s[1..] == [c] + ("\"" + "");
  }

  lemma AddedRecord(z: Zone)
    requires z.Zone? && z.origin == "y."
    ensures ReadLines(z, ["z 9 IN TXT \"b\""]) == z.(records := z.records + [Resource("z.y.", 9, "TXT", Texts(["b"]))])
  {
    hide ReadLine, ReadTexts, ReadLines, Line, NameToken, IsSpace;
    AddedLine();
    QuotedText('b', "\"b\"");
    FirstLineRead(z, "z", 9, TXT, "\"b\"");
    ReadOneLine(z, "z 9 IN TXT \"b\"");
  }

  lemma AddedLine()
    ensures Line("z", 9, KindText(TXT), "\"b\"") == "z 9 IN TXT \"b\""
    ensures NameToken("z") && !IsSpace('\"') && Complete("z", "y.") == "z.y." && KindText(TXT) == "TXT"
  {
    assert Decimal(9) == "9";
  }

  /** An accepted target "mail." is absolute, and is read as a name in the zone. */
  lemma AbsoluteLabelMoved(letter: char -> bool, isIP: (string, bool) -> bool, canonicalIP: (string, bool) -> string)
    requires forall c :: c in "xymail" ==> letter(c)
    ensures Passes(Sample("CNAME", "mail."), letter, isIP) && Eligible(Sample("CNAME", "mail."))
    ensures Target("mail.", "y") == "mail."
    ensures FileOf([Sample("CNAME", "mail.")], "y", canonicalIP).Some?
    ensures ReadZone(FileOf([Sample("CNAME", "mail.")], "y", canonicalIP).value) ==
            Zone("y.", [Resource("x.y.", 300, "CNAME", Host("mail.y."))])
  {
    hide KindOf, Passes, Eligible, FileOf, ReadZone, Sample, HostPasses, Split, FormatHost, ReadHost, Target;
    CnameKind();
    MailHost(letter);
    SamplePasses("CNAME", "mail.", CNAME, letter, isIP);
    SampleReads("CNAME", "mail.", CNAME, canonicalIP);
    NothingMore(Zone("y.", [Resource("x.y.", 300, "CNAME", Host("mail.y."))]));
  }

  lemma NothingMore(z: Zone)
    ensures ReadLines(z, []) == z
  {
  }

  lemma CnameKind()
    ensures KindOf("CNAME") == Some(CNAME) && KindText(CNAME) == "CNAME" && "CNAME" != "TXT" && "CNAME" != "MX"
  {
    hide TrimSpace;
    TrimFixed("CNAME");
    assert ToUpper("CNAME") == "CNAME";
    assert |"CNAME"| == 5;
  }

  lemma MailHost(letter: char -> bool)
    requires forall c :: c in "mail" ==> letter(c)
    ensures HostPasses("mail.", false, letter) && Trimmed("mail.") && !IsSpace('m')
    ensures Target("mail.", "y") == "mail." && FormatHost("mail.", "y") == "mail.y."
    ensures ReadHost("mail.y.", "y.") == Some(Host("mail.y."))
    ensures FirstLine("mail.y.") == "mail.y." && Split("mail.y.", '\n') == ["mail.y."]
  {
    hide TrimSpace, Split, LabelPasses, ReadHost;
    TrimFixed("mail.");
    assert TrimDot("mail.") == "mail";
    MailLabel(letter);
    assert "mail" + "." + "y" + "." == "mail.y.";
    OneLineSplit("mail.y.");
    MailRead();
  }

  lemma MailRead()
    ensures ReadHost("mail.y.", "y.") == Some(Host("mail.y."))
  {
  }

  lemma MailLabel(letter: char -> bool)
    requires forall c :: c in "mail" ==> letter(c)
    ensures Split("mail", '.') == ["mail"] && LabelPasses("mail", letter)
  {
    hide ByteLength, Split;
    FewBytes("mail");
    SplitJoin(["mail"], '.');
    assert Join(["mail"], '.') == "mail";
  }

  /** The records of zone files: enabled ones of any type but the two address types. */
  lemma EligibleExactly(r: Record)
    requires ValidName(Normalize(r.name))
    ensures Eligible(r) <==> r.enabled && ToUpper(TrimSpace(r.kind)) !in {"A", "AAAA"}
  {
    hide TrimSpace, ToUpper, SplitDomain, ValidName, Normalize;
    KindExactly(r.kind);
    SplitCompletes(r.name);
    TypesDiffer();
  }
}
