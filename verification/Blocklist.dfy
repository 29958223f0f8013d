/** Which domains are blocked, and the hosts file that says so. */
module Blocklist {
  import opened Text
  import opened Lines
  import opened DnsNames

  /** A stored rule; the kind is free text, matched in any letter case. */
  datatype Rule = Rule(domain: string, kind: string, enabled: bool)

  /** A domain normalized and met for the first time, in the order met. */
  function Distinct(domains: seq<string>): seq<string> {
    if domains == [] then []
    else
      var init := Distinct(domains[..|domains| - 1]);
      var d := Normalize(domains[|domains| - 1]);
      if d == "" || d in init then init else init + [d]
  }

  function HostLine(ip: string, name: string): string { ip + " " + name }

  function HostLines(ip: string, names: seq<string>): seq<string> {
    if names == [] then [] else HostLines(ip, names[..|names| - 1]) + [HostLine(ip, names[|names| - 1])]
  }

  function SinkOf(blockIP: string): string {
    if TrimSpace(blockIP) == "" then "0.0.0.0" else TrimSpace(blockIP)
  }

  function HostsFile(blockIP: string, domains: seq<string>): string {
    Unlines(HostLines(SinkOf(blockIP), Distinct(domains)))
  }

  lemma DistinctSnoc(domains: seq<string>, i: nat)
    requires i < |domains|
    ensures var init, d := Distinct(domains[..i]), Normalize(domains[i]);
            Distinct(domains[..i + 1]) == if d == "" || d in init then init else init + [d]
  {
    assert domains[..i + 1][..i] == domains[..i];
  }

  lemma HostLinesSnoc(ip: string, names: seq<string>, d: string)
    ensures Unlines(HostLines(ip, names + [d])) == Unlines(HostLines(ip, names)) + HostLine(ip, d) + "\n"
  {
    hide Unlines, HostLine;
    assert (names + [d])[..|names|] == names;
    UnlinesSnoc(HostLines(ip, names), HostLine(ip, d));
  }

  method WriteBlockHostsFile(blockIP: string, domains: seq<string>) returns (body: string)
    ensures body == HostsFile(blockIP, domains)
  {
    hide TrimSpace, Normalize, Unlines, HostLines, HostLine, Distinct;
    var ip := TrimSpace(blockIP);
    if ip == "" { ip := "0.0.0.0"; }
    var buf := new Buffer();
    var seen: set<string> := {};
    NoHosts(ip, domains);
    for i := 0 to |domains|
      invariant forall n :: n in seen <==> n in Distinct(domains[..i])
      invariant fresh(buf) && buf.text == Unlines(HostLines(ip, Distinct(domains[..i])))
    {
      DistinctSnoc(domains, i);
      var d := Normalize(domains[i]);
      if d == "" || d in seen { continue; }
      seen := seen + {d};
      HostLinesSnoc(ip, Distinct(domains[..i]), d);
      buf.Line(HostLine(ip, d));
    }
    assert domains[..|domains|] == domains;
    body := buf.text;
  }

  lemma NoHosts(ip: string, domains: seq<string>)
    ensures Distinct(domains[..0]) == [] && Unlines(HostLines(ip, [])) == ""
  {
  }

  lemma {:induction false} DistinctMembers(domains: seq<string>)
    ensures forall n :: n in Distinct(domains) <==>
              n != "" && exists i :: 0 <= i < |domains| && Normalize(domains[i]) == n
    ensures forall i, j :: 0 <= i < j < |Distinct(domains)| ==> Distinct(domains)[i] != Distinct(domains)[j]
  {
    hide Normalize;
    if domains != [] {
      var init := domains[..|domains| - 1];
      DistinctMembers(init);
      forall n ensures n in Distinct(domains) <==>
                       n != "" && exists i :: 0 <= i < |domains| && Normalize(domains[i]) == n {
        if n in Distinct(init) {
          var i :| 0 <= i < |init| && Normalize(init[i]) == n;
          assert Normalize(domains[i]) == n;
        }
        if i :| 0 <= i < |domains| && Normalize(domains[i]) == n {
          if i < |init| { assert Normalize(init[i]) == n; }
        }
      }
    }
  }

  /* ---------- reading a hosts file ---------- */

  predicate Sink(ip: string) { ip == "0.0.0.0" || ip == "127.0.0.1" || ip == "::" || ip == "::1" }

  function HostNames(fields: seq<string>): seq<string> {
    if fields == [] then []
    else
      var init := HostNames(fields[..|fields| - 1]);
      var host := TrimSpace(fields[|fields| - 1]);
      if host == "" || host == "localhost" || '.' !in Normalize(host) then init else init + [Normalize(host)]
  }

  /** The words after the sink address, when a line starts with one. */
  function LineWords(raw: string): seq<string> {
    var line := TrimSpace(raw);
    if line == "" || line[0] == '#' then []
    else
      var fields := Fields(line);
      if |fields| < 2 || !Sink(fields[0]) then [] else fields[1..]
  }

  function LineHosts(raw: string): seq<string> { HostNames(LineWords(raw)) }

  /** `bufio.MaxScanTokenSize`: a line of this many bytes stops the scanner. */
  const SCAN_LIMIT := 65536

  predicate Short(line: string) { ByteLength(line) < SCAN_LIMIT }

  /** The lines the scanner hands out: those before the first that is too long. */
  function Scanned(lines: seq<string>): seq<string> {
    if lines == [] || !Short(lines[0]) then [] else [lines[0]] + Scanned(lines[1..])
  }

  /** A line that is too long ends the reading, without an error. */
  lemma {:induction false} ScannedUpTo(lines: seq<string>, i: nat)
    requires i <= |lines| && (i < |lines| ==> ByteLength(lines[i]) >= 65536)
    requires forall j :: 0 <= j < i ==> ByteLength(lines[j]) < 65536
    ensures Scanned(lines) == lines[..i]
  {
    hide ByteLength;
    if i > 0 {
      ScannedUpTo(lines[1..], i - 1);
      assert lines[..i] == [lines[0]] + lines[1..][..i - 1];
    }
  }

  function HostsIn(lines: seq<string>): seq<string> {
    if lines == [] then [] else HostsIn(lines[..|lines| - 1]) + LineHosts(lines[|lines| - 1])
  }

  /** The domains of a hosts file, as the blocklist reader finds them. */
  function Parsed(body: string): seq<string> { HostsIn(Scanned(Split(body, '\n'))) }

  lemma HostNamesSnoc(fields: seq<string>, i: nat)
    requires i < |fields|
    ensures var init, host := HostNames(fields[..i]), TrimSpace(fields[i]);
            HostNames(fields[..i + 1]) ==
            if host == "" || host == "localhost" || '.' !in Normalize(host) then init else init + [Normalize(host)]
  {
    assert fields[..i + 1][..i] == fields[..i];
  }

  lemma HostsInSnoc(lines: seq<string>, i: nat)
    requires i < |lines|
    ensures HostsIn(lines[..i + 1]) == HostsIn(lines[..i]) + LineHosts(lines[i])
  {
    hide LineHosts;
    assert lines[..i + 1][..i] == lines[..i];
  }

  method LineDomains(fields: seq<string>, start: seq<string>) returns (out: seq<string>)
    ensures out == start + HostNames(fields)
  {
    hide TrimSpace, Normalize;
    out := start;
    for i := 0 to |fields|
      invariant out == start + HostNames(fields[..i])
    {
      HostNamesSnoc(fields, i);
      var host := TrimSpace(fields[i]);
      if host == "" || host == "localhost" { continue; }
      host := Normalize(host);
      if '.' in host { out := out + [host]; }
    }
    assert fields[..|fields|] == fields;
  }

  /** What one line adds. */
  method RawLineDomains(raw: string, start: seq<string>) returns (out: seq<string>)
    ensures out == start + LineHosts(raw)
  {
    hide TrimSpace, Fields, HostNames;
    NoHostNames();
    out := start;
    var line := TrimSpace(raw);
    if line == "" || line[0] == '#' { return; }
    var fields := Fields(line);
    if |fields| < 2 { return; }
    if Sink(fields[0]) { out := LineDomains(fields[1..], out); }
  }

  method ParseHostsDomains(body: string) returns (out: seq<string>)
    ensures out == Parsed(body)
  {
    hide LineHosts, Split, ByteLength, Scanned;
    out := [];
    var lines := Split(body, '\n');
    for i := 0 to |lines|
      invariant out == HostsIn(lines[..i])
      invariant forall j :: 0 <= j < i ==> Short(lines[j])
    {
      if !Short(lines[i]) {
        ScannedUpTo(lines, i);
        return;
      }
      HostsInSnoc(lines, i);
      out := RawLineDomains(lines[i], out);
    }
    ScannedUpTo(lines, |lines|);
  }

  lemma {:induction false} HostsInConcat(a: seq<string>, b: seq<string>)
    ensures HostsIn(a + b) == HostsIn(a) + HostsIn(b)
  {
    hide LineHosts;
    if b == [] {
      assert a + b == a;
    } else {
      assert (a + b)[..|a + b| - 1] == a + b[..|b| - 1];
      HostsInConcat(a, b[..|b| - 1]);
    }
  }

  lemma {:induction false} NoHostsIn(lines: seq<string>)
    ensures HostsIn(lines) == [] <==> forall i :: 0 <= i < |lines| ==> LineHosts(lines[i]) == []
  {
    hide LineHosts;
    if lines != [] {
      var n := |lines| - 1;
      NoHostsIn(lines[..n]);
      assert forall i :: 0 <= i < n ==> lines[..n][i] == lines[i];
      assert HostsIn(lines) == HostsIn(lines[..n]) + LineHosts(lines[n]);
      assert HostsIn(lines) == [] <==> HostsIn(lines[..n]) == [] && LineHosts(lines[n]) == [];
    }
  }

  /** Where the scanner stops: at the first line that is too long, or at the end. */
  lemma {:induction false} ScannedIsPrefix(lines: seq<string>)
    ensures Scanned(lines) <= lines
  {
    hide Short;
    if lines != [] && Short(lines[0]) { ScannedIsPrefix(lines[1..]); }
  }

  /** A body gives the domains of all its lines exactly when no domain stands in the first line that is
      too long or after it; otherwise those are missing. */
  lemma AllHostsRead(body: string)
    ensures var lines := Split(body, '\n');
            Parsed(body) == HostsIn(lines) <==>
            forall i :: |Scanned(lines)| <= i < |lines| ==> LineHosts(lines[i]) == []
  {
    hide Split, Scanned, LineHosts, HostsIn;
    var lines := Split(body, '\n');
    ScannedIsPrefix(lines);
    var n := |Scanned(lines)|;
    var rest := lines[n..];
    assert lines == Scanned(lines) + rest;
    HostsInConcat(Scanned(lines), rest);
    NoHostsIn(rest);
    assert HostsIn(Scanned(lines)) + HostsIn(rest) == HostsIn(Scanned(lines)) <==> HostsIn(rest) == [];
    assert forall i :: n <= i < |lines| ==> lines[i] == rest[i - n];
    assert forall i :: 0 <= i < |rest| ==> rest[i] == lines[n + i];
  }

  lemma NoHostNames()
    ensures HostNames([]) == []
  {
  }

  /* ---------- what is written is read back ---------- */

  function Dotted(names: seq<string>): seq<string> {
    if names == [] then []
    else Dotted(names[..|names| - 1]) + if '.' in names[|names| - 1] then [names[|names| - 1]] else []
  }

  /** A stored name without blanks. */
  predicate PlainName(name: string) { OneWord(name) && Stored(name) }

  lemma WordTrimmed(w: string)
    requires OneWord(w)
    ensures TrimSpace(w) == w
  {
    TrimFixed(w);
  }

  lemma LineWordsBack(ip: string, w: string)
    requires OneWord(ip) && OneWord(w)
    ensures LineWords(HostLine(ip, w)) == if Sink(ip) then [w] else []
  {
    hide TrimSpace, Fields, IsSpace;
    var line := HostLine(ip, w);
    assert line[0] == ip[0] && line[|line| - 1] == w[|w| - 1];
    TrimFixed(line);
    assert IsSpace(' ') by { Blanks(); }
    FieldsCons(ip, ' ', w);
    FieldsOne(w);
    assert line == ip + [' '] + w;
    assert Fields(line) == [ip, w];
    if Sink(ip) {
      SinkText(ip);
      assert [ip, w][1..] == [w];
    }
  }

  lemma LineReadsBack(ip: string, name: string)
    requires OneWord(ip) && PlainName(name)
    ensures LineHosts(HostLine(ip, name)) == if Sink(ip) && '.' in name then [name] else []
  {
    hide LineWords, HostNames, Sink, HostLine, Stored, IsSpace;
    LineWordsBack(ip, name);
    OneHostName(name);
    NoHostNames();
    StoredNames(name);
  }

  lemma StoredNames(name: string)
    requires Stored(name)
    ensures Normalize(name) == name
  {
  }

  /** A word other than `localhost` names its normal form, if that has a dot. */
  lemma OneHostName(w: string)
    requires OneWord(w)
    ensures HostNames([w]) == if '.' in Normalize(w) then [Normalize(w)] else []
  {
    hide TrimSpace, Normalize, IsSpace;
    WordTrimmed(w);
    NoDotInLocalhost();
    assert [w][..0] == [];
  }

  lemma Blanks()
    ensures IsSpace(' ')
  {
  }

  lemma SinkText(ip: string)
    requires Sink(ip)
    ensures ip[0] != '#'
  {
  }

  lemma NoDotInLocalhost()
    ensures '.' !in Normalize("localhost")
  {
    TrimFixed("localhost");
    assert ToLower("localhost") == "localhost";
  }

  /** The line of a name is within the scanner's limit. */
  predicate Fits(ip: string, name: string) { Short(HostLine(ip, name)) }

  lemma {:induction false} LinesReadBack(ip: string, names: seq<string>)
    requires OneWord(ip) && forall i :: 0 <= i < |names| ==> PlainName(names[i]) && Fits(ip, names[i])
    ensures HostsIn(HostLines(ip, names)) == if Sink(ip) then Dotted(names) else []
  {
    hide LineHosts, HostLine, PlainName, Sink, OneWord, Fits;
    if names != [] {
      var n := |names| - 1;
      LinesReadBack(ip, names[..n]);
      LineReadsBack(ip, names[n]);
    }
  }

  lemma {:induction false} LinesShape(ip: string, names: seq<string>)
    requires OneWord(ip) && forall i :: 0 <= i < |names| ==> PlainName(names[i]) && Fits(ip, names[i])
    ensures AllOneLine(HostLines(ip, names))
    ensures forall i :: 0 <= i < |HostLines(ip, names)| ==> Short(HostLines(ip, names)[i])
  {
    hide HostLine, PlainName, OneWord, Short, OneLine;
    if names != [] {
      var n := |names| - 1;
      LinesShape(ip, names[..n]);
      OneLineHost(ip, names[n]);
    }
  }

  lemma OneLineHost(ip: string, name: string)
    requires OneWord(ip) && PlainName(name)
    ensures OneLine(HostLine(ip, name))
  {
    assert IsSpace('\n');
  }

  lemma BlankLineHosts()
    ensures LineHosts("") == [] && Short("")
  {
    TrimFixed("");
  }

  lemma FileIsLines(ip: string, names: seq<string>)
    requires OneWord(ip) && forall i :: 0 <= i < |names| ==> PlainName(names[i]) && Fits(ip, names[i])
    ensures Parsed(Unlines(HostLines(ip, names))) == if Sink(ip) then Dotted(names) else []
  {
    hide LineHosts, HostLine, PlainName, Sink, OneWord, Unlines, Split, HostLines, Dotted, ByteLength, Fits, Scanned,
         HostsIn;
    LinesReadBack(ip, names);
    LinesShape(ip, names);
    var lines := HostLines(ip, names);
    SplitUnlines(lines);
    BlankLineHosts();
    ScannedUpTo(lines + [""], |lines| + 1);
    assert (lines + [""])[..|lines| + 1] == lines + [""];
    HostsInConcat(lines, [""]);
    BlankHostsIn();
    assert HostsIn(lines) + [] == HostsIn(lines);
  }

  lemma BlankHostsIn()
    ensures HostsIn([""]) == []
  {
    hide LineHosts;
    BlankLineHosts();
    assert [""][..0] == [];
  }

  /** Names whose trailing dot hides nothing and that hold no blank. */
  predicate CleanDomain(domain: string) {
    Settles(domain) && (TrimSpace(domain) == "" || OneWord(TrimSpace(domain)))
  }

  lemma CleanIsPlain(domain: string)
    requires CleanDomain(domain) && Normalize(domain) != ""
    ensures PlainName(Normalize(domain))
  {
    hide TrimSpace, ToLower, IsSpace, Settles;
    SettledStored(domain);
    var t := TrimSpace(domain);
    forall i | 0 <= i < |Normalize(domain)| ensures !IsSpace(Normalize(domain)[i]) {
      LowerKeeps(t, i);
    }
  }

  /** A domain that is written on a line of its own, which is read as its normal form. */
  predicate Writable(ip: string, domain: string) {
    CleanDomain(domain) && Fits(ip, Normalize(domain))
  }

  /** Reading the written hosts file gives back exactly the dotted names, each once and in order. */
  lemma HostsFileReadsBack(blockIP: string, domains: seq<string>)
    requires OneWord(SinkOf(blockIP)) && forall i :: 0 <= i < |domains| ==> Writable(SinkOf(blockIP), domains[i])
    ensures Parsed(HostsFile(blockIP, domains)) == if Sink(SinkOf(blockIP)) then Dotted(Distinct(domains)) else []
  {
    hide CleanDomain, PlainName, Fits, OneWord, SinkOf, Sink, Normalize, Unlines, HostLines, Dotted, Distinct, Parsed;
    DistinctMembers(domains);
    var names := Distinct(domains);
    forall i | 0 <= i < |names| ensures PlainName(names[i]) && Fits(SinkOf(blockIP), names[i]) {
      assert names[i] in names;
      var j :| 0 <= j < |domains| && Normalize(domains[j]) == names[i];
      CleanIsPlain(domains[j]);
    }
    FileIsLines(SinkOf(blockIP), names);
  }

  lemma {:induction false} DottedMembers(names: seq<string>)
    ensures forall n :: n in Dotted(names) <==> n in names && '.' in n
  {
    if names != [] {
      DottedMembers(names[..|names| - 1]);
      assert names == names[..|names| - 1] + [names[|names| - 1]];
    }
  }

  /* ---------- which domains are blocked ---------- */

  /** The domains the enabled rules of one kind name. */
  function Named(rules: seq<Rule>, kind: string): set<string> {
    set i | 0 <= i < |rules| && rules[i].enabled && Normalize(rules[i].domain) != "" && ToLower(rules[i].kind) == kind
      :: Normalize(rules[i].domain)
  }

  /** Manual blocks and, when ad blocking is on, the fetched lists, less every allowed domain. */
  function Blocked(adsEnabled: bool, rules: seq<Rule>, fetched: set<string>): set<string> {
    Named(rules, "block") + (if adsEnabled then fetched else {}) - Named(rules, "allow")
  }

  lemma NamedSnoc(rules: seq<Rule>, i: nat, kind: string)
    requires i < |rules|
    ensures Named(rules[..i + 1], kind) ==
            Named(rules[..i], kind) +
            if rules[i].enabled && Normalize(rules[i].domain) != "" && ToLower(rules[i].kind) == kind
            then {Normalize(rules[i].domain)} else {}
  {
    hide Normalize, ToLower;
    var next := rules[..i + 1];
    forall d | d in Named(rules[..i], kind) ensures d in Named(next, kind) {
      var j :| 0 <= j < i && rules[..i][j].enabled && Normalize(rules[..i][j].domain) != ""
               && ToLower(rules[..i][j].kind) == kind && d == Normalize(rules[..i][j].domain);
      assert next[j] == rules[j];
    }
    forall d | d in Named(next, kind) && d !in Named(rules[..i], kind)
      ensures rules[i].enabled && d == Normalize(rules[i].domain) && ToLower(rules[i].kind) == kind
    {
      var j :| 0 <= j < i + 1 && next[j].enabled && Normalize(next[j].domain) != ""
               && ToLower(next[j].kind) == kind && d == Normalize(next[j].domain);
    }
    assert next[i] == rules[i];
  }

  /** The rules' order does not matter. */
  lemma RuleOrder(rules: seq<Rule>, other: seq<Rule>, adsEnabled: bool, fetched: set<string>)
    requires multiset(rules) == multiset(other)
    ensures Blocked(adsEnabled, rules, fetched) == Blocked(adsEnabled, other, fetched)
  {
    NamedWithin(rules, other, "block");
    NamedWithin(other, rules, "block");
    NamedWithin(rules, other, "allow");
    NamedWithin(other, rules, "allow");
  }

  lemma NamedWithin(rules: seq<Rule>, other: seq<Rule>, kind: string)
    requires multiset(rules) == multiset(other)
    ensures Named(rules, kind) <= Named(other, kind)
  {
    hide Normalize, ToLower;
    forall d | d in Named(rules, kind) ensures d in Named(other, kind) {
      var i :| 0 <= i < |rules| && rules[i].enabled && Normalize(rules[i].domain) != ""
               && ToLower(rules[i].kind) == kind && d == Normalize(rules[i].domain);
      assert rules[i] in multiset(other);
      var j :| 0 <= j < |other| && other[j] == rules[i];
    }
  }

  /** Everything the fetched lists name; None when one of them could not be fetched. */
  function Fetched(bodies: seq<Option<string>>): Option<set<string>> {
    if None in bodies then None
    else Some(set i, d | 0 <= i < |bodies| && bodies[i].Some? && d in Parsed(bodies[i].value) :: d)
  }

  method LoadBlocklistDomains(bodies: seq<Option<string>>) returns (domains: Option<set<string>>)
    ensures domains == Fetched(bodies)
  {
    hide Parsed;
    var found: set<string> := {};
    for i := 0 to |bodies|
      invariant forall j :: 0 <= j < i ==> bodies[j].Some?
      invariant forall d :: d in found <==> exists j :: 0 <= j < i && d in Parsed(bodies[j].value)
    {
      if bodies[i].None? {
        assert bodies[i] in bodies;
        return None;
      }
      var names := ParseHostsDomains(bodies[i].value);
      found := found + set d | d in names;
    }
    assert Fetched(bodies).value == found;
    return Some(found);
  }

  method CollectBlockedDomains(adsEnabled: bool, rules: seq<Rule>, bodies: seq<Option<string>>)
    returns (out: Option<seq<string>>)
    ensures out.None? <==> adsEnabled && None in bodies
    ensures out.Some? ==>
              && (forall d :: d in out.value <==>
                    d in Blocked(adsEnabled, rules, if adsEnabled then Fetched(bodies).value else {}))
              && (forall i, j :: 0 <= i < j < |out.value| ==> out.value[i] != out.value[j])
  {
    hide Normalize, ToLower, Fetched;
    var allow, block: set<string> := {}, {};
    for i := 0 to |rules|
      invariant allow == Named(rules[..i], "allow") && block == Named(rules[..i], "block")
    {
      hide Named;
      NamedSnoc(rules, i, "allow");
      NamedSnoc(rules, i, "block");
      KindsDiffer();
      if !rules[i].enabled { continue; }
      var d := Normalize(rules[i].domain);
      if d == "" { continue; }
      var kind := ToLower(rules[i].kind);
      if kind == "allow" {
        allow := allow + {d};
      } else if kind == "block" {
        block := block + {d};
      }
    }
    assert rules[..|rules|] == rules;
    FetchFails(bodies);
    if adsEnabled {
      var domains := LoadBlocklistDomains(bodies);
      if domains.None? { return None; }
      block := block + domains.value;
    }
    var names := [];
    var rest := block;
    while rest != {}
      invariant rest <= block
      invariant forall d :: d in names <==> d in block - rest && d !in allow
      invariant forall i, j :: 0 <= i < j < |names| ==> names[i] != names[j]
    {
      var d :| d in rest;
      rest := rest - {d};
      if d in allow { continue; }
      names := names + [d];
    }
    return Some(names);
  }

  lemma KindsDiffer()
    ensures "allow" != "block"
  {
    assert "allow"[0] != "block"[0];
  }

  lemma FetchFails(bodies: seq<Option<string>>)
    ensures Fetched(bodies).None? <==> None in bodies
  {
  }

  /* ---------- from the rules to the hosts file ---------- */

  /** Stored names are written as they are. */
  lemma StoredDistinct(domains: seq<string>)
    requires forall i :: 0 <= i < |domains| ==> Stored(domains[i]) && domains[i] != ""
    ensures forall d :: d in Distinct(domains) <==> d in domains
  {
    hide Normalize, Distinct;
    DistinctMembers(domains);
    forall d ensures d in Distinct(domains) <==> d in domains {
      if d in Distinct(domains) {
        var i :| 0 <= i < |domains| && Normalize(domains[i]) == d;
        assert Stored(domains[i]);
      }
      if d in domains {
        var i :| 0 <= i < |domains| && domains[i] == d;
        assert Stored(domains[i]);
      }
    }
  }

  /** Every word a fetched list names a host with is written on a line of its own. */
  predicate WritableList(ip: string, body: string) {
    var lines := Scanned(Split(body, '\n'));
    forall i, w :: 0 <= i < |lines| && w in LineWords(lines[i]) ==> Writable(ip, w)
  }

  predicate WritableInputs(ip: string, adsEnabled: bool, rules: seq<Rule>, bodies: seq<Option<string>>) {
    && (forall i :: 0 <= i < |rules| && rules[i].enabled && ToLower(rules[i].kind) == "block" ==>
          Writable(ip, rules[i].domain))
    && (adsEnabled ==> forall i :: 0 <= i < |bodies| && bodies[i].Some? ==> WritableList(ip, bodies[i].value))
  }

  lemma {:induction false} FieldsAreWords(s: string)
    ensures forall w :: w in Fields(s) ==> OneWord(w)
    decreases |s|
  {
    hide IsSpace;
    if s != "" {
      if IsSpace(s[0]) { FieldsAreWords(s[1..]); } else { FieldsAreWords(s[WordEnd(s)..]); }
    }
  }

  lemma LineWordsAreWords(raw: string)
    ensures forall w :: w in LineWords(raw) ==> OneWord(w)
  {
    hide OneWord, TrimSpace, Fields;
    FieldsAreWords(TrimSpace(raw));
  }

  /** A collected name is the normal form of a word of the line. */
  lemma {:induction false} HostNamesFrom(fields: seq<string>, d: string)
    requires d in HostNames(fields) && forall w :: w in fields ==> OneWord(w)
    ensures '.' in d && exists w :: w in fields && d == Normalize(w)
  {
    hide Normalize, TrimSpace, OneWord;
    var n := |fields| - 1;
    WordTrimmed(fields[n]);
    if d in HostNames(fields[..n]) {
      HostNamesFrom(fields[..n], d);
      var w :| w in fields[..n] && d == Normalize(w);
      assert w in fields;
    }
  }

  lemma {:induction false} HostsInFrom(lines: seq<string>, d: string)
    requires d in HostsIn(lines)
    ensures exists i :: 0 <= i < |lines| && d in LineHosts(lines[i])
  {
    hide LineHosts;
    var n := |lines| - 1;
    if d in HostsIn(lines[..n]) {
      HostsInFrom(lines[..n], d);
      var i :| 0 <= i < n && d in LineHosts(lines[..n][i]);
      assert d in LineHosts(lines[i]);
    }
  }

  /** What a name on the hosts file needs, in its normal form. */
  predicate PlainFits(ip: string, name: string) { PlainName(name) && Fits(ip, name) }

  lemma WritableIsPlain(ip: string, domain: string)
    requires Writable(ip, domain) && Normalize(domain) != ""
    ensures PlainFits(ip, Normalize(domain))
  {
    CleanIsPlain(domain);
  }

  lemma ListNamesPlain(ip: string, body: string, d: string)
    requires WritableList(ip, body) && d in Parsed(body)
    ensures PlainFits(ip, d)
  {
    hide Writable, LineWords, OneWord, Normalize, Split, Scanned, PlainFits, HostNames;
    var lines := Scanned(Split(body, '\n'));
    HostsInFrom(lines, d);
    var i :| 0 <= i < |lines| && d in LineHosts(lines[i]);
    LineWordsAreWords(lines[i]);
    HostNamesFrom(LineWords(lines[i]), d);
    var w :| w in LineWords(lines[i]) && d == Normalize(w);
    WritableIsPlain(ip, w);
  }

  lemma BlockedPlain(ip: string, adsEnabled: bool, rules: seq<Rule>, bodies: seq<Option<string>>, d: string)
    requires WritableInputs(ip, adsEnabled, rules, bodies) && (adsEnabled ==> Fetched(bodies).Some?)
    requires d in Blocked(adsEnabled, rules, if adsEnabled then Fetched(bodies).value else {})
    ensures PlainFits(ip, d)
  {
    hide Writable, WritableList, Normalize, ToLower, Parsed, PlainFits;
    if d in Named(rules, "block") {
      var i :| 0 <= i < |rules| && rules[i].enabled && Normalize(rules[i].domain) != ""
               && ToLower(rules[i].kind) == "block" && d == Normalize(rules[i].domain);
      WritableIsPlain(ip, rules[i].domain);
    } else {
      var i :| 0 <= i < |bodies| && bodies[i].Some? && d in Parsed(bodies[i].value);
      ListNamesPlain(ip, bodies[i].value, d);
    }
  }

  /** Collecting and writing: read back, the hosts file holds the dotted blocked domains and no
      allowed one, when the domains of the rules and the words of the lists settle. */
  method PrepareBlockHosts(blockIP: string, adsEnabled: bool, rules: seq<Rule>, bodies: seq<Option<string>>)
    returns (body: Option<string>)
    ensures body.None? <==> adsEnabled && None in bodies
    ensures body.Some? && Sink(SinkOf(blockIP)) && WritableInputs(SinkOf(blockIP), adsEnabled, rules, bodies) ==>
              var blocked := Blocked(adsEnabled, rules, if adsEnabled then Fetched(bodies).value else {});
              && (forall d :: d in Parsed(body.value) <==> d in blocked && '.' in d)
              && (forall d :: d in Parsed(body.value) ==> d !in Named(rules, "allow"))
  {
    hide SinkOf, Sink, Parsed, Fetched, Named, PlainFits, WritableInputs, Dotted, Distinct, HostsFile;
    var domains := CollectBlockedDomains(adsEnabled, rules, bodies);
    FetchFails(bodies);
    if domains.None? { return None; }
    var text := WriteBlockHostsFile(blockIP, domains.value);
    body := Some(text);
    if Sink(SinkOf(blockIP)) && WritableInputs(SinkOf(blockIP), adsEnabled, rules, bodies) {
      forall i | 0 <= i < |domains.value| ensures PlainFits(SinkOf(blockIP), domains.value[i]) {
        assert domains.value[i] in domains.value;
        BlockedPlain(SinkOf(blockIP), adsEnabled, rules, bodies, domains.value[i]);
      }
      PlainFileReadsBack(blockIP, domains.value);
    }
  }

  lemma SinkIsWord(ip: string)
    requires Sink(ip)
    ensures OneWord(ip)
  {
  }

  lemma PlainIsWritable(ip: string, name: string)
    requires PlainFits(ip, name)
    ensures Writable(ip, name) && Stored(name) && name != ""
  {
    hide IsSpace, TrimSpace, ToLower, Fits;
    NormalizeTwiceExactly(name);
    WordTrimmed(name);
  }

  lemma PlainFileReadsBack(blockIP: string, domains: seq<string>)
    requires Sink(SinkOf(blockIP)) && forall i :: 0 <= i < |domains| ==> PlainFits(SinkOf(blockIP), domains[i])
    ensures forall d :: d in Parsed(HostsFile(blockIP, domains)) <==> d in domains && '.' in d
  {
    hide SinkOf, Sink, Parsed, PlainFits, Dotted, Distinct, HostsFile, Writable, Stored, OneWord;
    SinkIsWord(SinkOf(blockIP));
    forall i | 0 <= i < |domains|
      ensures Writable(SinkOf(blockIP), domains[i]) && Stored(domains[i]) && domains[i] != "" {
      PlainIsWritable(SinkOf(blockIP), domains[i]);
    }
    HostsFileReadsBack(blockIP, domains);
    StoredDistinct(domains);
    DottedMembers(Distinct(domains));
  }

  /* ---------- domains that are not stored names ---------- */

  /** The domains a set of names is written under. */
  function WrittenNames(names: set<string>): set<string> {
    set d | d in names && Normalize(d) != "" :: Normalize(d)
  }

  /** The hosts file is written for none of the allowed domains. */
  predicate AllowedUnwritten(adsEnabled: bool, rules: seq<Rule>, fetched: set<string>) {
    WrittenNames(Blocked(adsEnabled, rules, fetched)) !! Named(rules, "allow")
  }

  predicate OnlyAllows(rules: seq<Rule>) {
    forall i :: 0 <= i < |rules| ==> ToLower(rules[i].kind) == "allow"
  }

  lemma NamedAdded(rules: seq<Rule>, more: seq<Rule>, kind: string)
    ensures Named(rules + more, kind) == Named(rules, kind) + Named(more, kind)
  {
    hide Normalize, ToLower;
    var all := rules + more;
    forall d | d in Named(more, kind) ensures d in Named(all, kind) {
      var j :| 0 <= j < |more| && more[j].enabled && Normalize(more[j].domain) != ""
               && ToLower(more[j].kind) == kind && d == Normalize(more[j].domain);
      assert all[|rules| + j] == more[j];
    }
    forall d | d in Named(rules, kind) ensures d in Named(all, kind) {
      var j :| 0 <= j < |rules| && rules[j].enabled && Normalize(rules[j].domain) != ""
               && ToLower(rules[j].kind) == kind && d == Normalize(rules[j].domain);
      assert all[j] == rules[j];
    }
  }

  lemma MoreAllowed(adsEnabled: bool, rules: seq<Rule>, more: seq<Rule>, fetched: set<string>)
    requires OnlyAllows(more)
    ensures Blocked(adsEnabled, rules + more, fetched) == Blocked(adsEnabled, rules, fetched) - Named(more, "allow")
    ensures Named(rules + more, "allow") == Named(rules, "allow") + Named(more, "allow")
  {
    hide Normalize, ToLower;
    NamedAdded(rules, more, "allow");
    NamedAdded(rules, more, "block");
    KindsDiffer();
  }

  lemma AllowRule(d: string)
    requires Normalize(d) != ""
    ensures OnlyAllows([Rule(d, "allow", true)]) && Named([Rule(d, "allow", true)], "allow") == {Normalize(d)}
  {
    hide Normalize;
    var rules := [Rule(d, "allow", true)];
    assert ToLower("allow") == "allow";
    assert rules[0].domain == d;
  }

  /** The normal form of a blocked domain that is no stored name can be allowed and is written. */
  lemma AllowingBreaks(adsEnabled: bool, rules: seq<Rule>, fetched: set<string>, d: string)
    requires d in Blocked(adsEnabled, rules, fetched) && !Stored(d) && Normalize(d) != ""
    ensures exists more :: OnlyAllows(more) && !AllowedUnwritten(adsEnabled, rules + more, fetched)
  {
    hide Normalize, Named, OnlyAllows;
    var more := [Rule(d, "allow", true)];
    AllowRule(d);
    MoreAllowed(adsEnabled, rules, more, fetched);
    assert Normalize(d) in WrittenNames(Blocked(adsEnabled, rules + more, fetched));
    assert !AllowedUnwritten(adsEnabled, rules + more, fetched);
  }

  /** However many domains are allowed in addition, none of the allowed ones is written: this
      holds exactly when each blocked domain is a stored name, or is not written at all. */
  lemma AllowedNeverWritten(adsEnabled: bool, rules: seq<Rule>, fetched: set<string>)
    ensures (forall more :: OnlyAllows(more) ==> AllowedUnwritten(adsEnabled, rules + more, fetched)) <==>
            forall d :: d in Blocked(adsEnabled, rules, fetched) ==> Stored(d) || Normalize(d) == ""
  {
    hide Normalize, Named, OnlyAllows;
    var blocked := Blocked(adsEnabled, rules, fetched);
    if forall more :: OnlyAllows(more) ==> AllowedUnwritten(adsEnabled, rules + more, fetched) {
      forall d | d in blocked ensures Stored(d) || Normalize(d) == "" {
        if !Stored(d) && Normalize(d) != "" { AllowingBreaks(adsEnabled, rules, fetched, d); }
      }
    }
    if forall d :: d in blocked ==> Stored(d) || Normalize(d) == "" {
      forall more | OnlyAllows(more) ensures AllowedUnwritten(adsEnabled, rules + more, fetched) {
        MoreAllowed(adsEnabled, rules, more, fetched);
      }
    }
  }

  lemma SampleBody()
    ensures Parsed("0.0.0.0 a.b..") == ["a.b."]
  {
    hide LineWords, HostNames, Split, Normalize, Fields;
    var body := "0.0.0.0 a.b..";
    assert body == HostLine("0.0.0.0", "a.b..");
    LineWordsBack("0.0.0.0", "a.b..");
    OneHostName("a.b..");
    TwoDotsUnsettled();
    assert LineHosts(body) == ["a.b."];
    OneLineFile(body);
  }

  lemma OneLineFile(line: string)
    requires OneLine(line) && |line| < 100
    ensures Parsed(line) == LineHosts(line)
  {
    hide LineHosts, ByteLength;
    SplitJoin([line], '\n');
    FewBytes(line);
    assert Join([line], '\n') == line;
    ScannedUpTo([line], 1);
    assert [line][..1] == [line];
    HostsInSnoc([line], 0);
    assert HostsIn([line][..0]) + LineHosts(line) == LineHosts(line);
  }

  lemma OneList(body: string, d: string)
    requires Parsed(body) == [d]
    ensures Fetched([Some(body)]) == Some({d})
  {
    hide Parsed;
    var bodies := [Some(body)];
    FetchFails(bodies);
    assert d in Parsed(bodies[0].value);
    assert Fetched(bodies).value == {d};
  }

  /** A list entry with two trailing dots is collected as "a.b.", which the rule allowing "a.b"
      does not remove, and the hosts file blocks "a.b". */
  lemma AllowedNameWritten()
    ensures var rules, body := [Rule("a.b", "allow", true)], "0.0.0.0 a.b..";
            && Named(rules, "allow") == {"a.b"}
            && Fetched([Some(body)]) == Some({"a.b."})
            && Blocked(true, rules, {"a.b."}) == {"a.b."}
            && Parsed(HostsFile("0.0.0.0", ["a.b."])) == ["a.b"]
  {
    hide Parsed, Normalize, HostsFile, IsSpace;
    var rules := [Rule("a.b", "allow", true)];
    SampleBody();
    SampleAllow();
    SampleFile();
    OneList("0.0.0.0 a.b..", "a.b.");
  }

  lemma SampleName()
    ensures PlainName("a.b") && Fits("0.0.0.0", "a.b")
  {
    hide ByteLength;
    TrimFixed("a.b");
    assert ToLower("a.b") == "a.b";
    FewBytes(HostLine("0.0.0.0", "a.b"));
  }

  lemma SampleFile()
    ensures Parsed(HostsFile("0.0.0.0", ["a.b."])) == ["a.b"]
  {
    hide Parsed, Normalize, PlainName, Fits, HostLines;
    TwoDotsUnsettled();
    SampleName();
    TrimFixed("0.0.0.0");
    assert ["a.b."][..0] == [] && ["a.b"][..0] == [];
    assert Distinct(["a.b."]) == ["a.b"];
    SinkIsWord("0.0.0.0");
    FileIsLines("0.0.0.0", ["a.b"]);
  }

  lemma SampleAllow()
    ensures Named([Rule("a.b", "allow", true)], "allow") == {"a.b"}
            && Named([Rule("a.b", "allow", true)], "block") == {}
  {
    hide Normalize;
    SampleName();
    AllowRule("a.b");
    KindsDiffer();
    assert ToLower("allow") == "allow";
  }

  function Longer(names: set<string>, length: nat): set<string> { set n | n in names && |n| > length }

  /** The written names are the collected names exactly when each of them is a stored name. */
  lemma WrittenAsCollected(names: set<string>)
    requires forall d :: d in names ==> d != "" && ToLower(d) == d
    ensures WrittenNames(names) == names <==> forall d :: d in names ==> Stored(d)
  {
    hide Normalize, ToLower;
    if WrittenNames(names) == names {
      forall d | d in names ensures Stored(d) { EachStored(names, d); }
    }
    if forall d :: d in names ==> Stored(d) {
      AllStoredWritten(names);
    }
  }

  lemma AllStoredWritten(names: set<string>)
    requires forall d :: d in names ==> d != "" && Stored(d)
    ensures WrittenNames(names) == names
  {
    hide Normalize;
    forall d | d in WrittenNames(names) ensures d in names {
      var e :| e in names && Normalize(e) == d;
      assert Stored(e);
    }
    forall d | d in names ensures d in WrittenNames(names) { assert Stored(d); }
  }

  lemma {:induction false} EachStored(names: set<string>, d: string)
    requires forall n :: n in names ==> n != "" && ToLower(n) == n
    requires WrittenNames(names) == names && d in names
    ensures Stored(d)
    decreases Longer(names, |d|)
  {
    hide Normalize, ToLower;
    var e :| e in names && Normalize(e) == d;
    FixedExactly(e);
    if e != d {
      assert e in Longer(names, |d|) && e !in Longer(names, |e|);
      EachStored(names, e);
    }
  }

  /* ---------- the rules and lines in their own columns ---------- */

  /** An enabled rule of the kind, in any letter case, names the domain. */
  predicate RuleNames(r: Rule, kind: string, d: string) {
    r.enabled && ToLower(r.kind) == kind && Normalize(r.domain) == d
  }

  /** A domain is blocked exactly when no allow rule names it and a block rule or, with ad blocking on, a
      list does. */
  lemma BlockedExactly(adsEnabled: bool, rules: seq<Rule>, fetched: set<string>, d: string)
    requires d != ""
    ensures d in Blocked(adsEnabled, rules, fetched) <==>
            && (forall i :: 0 <= i < |rules| ==> !RuleNames(rules[i], "allow", d))
            && ((adsEnabled && d in fetched) || exists i :: 0 <= i < |rules| && RuleNames(rules[i], "block", d))
  {
    hide Normalize, ToLower, Named;
    NamedExactly(rules, "allow", d);
    NamedExactly(rules, "block", d);
  }

  lemma NamedExactly(rules: seq<Rule>, kind: string, d: string)
    requires d != ""
    ensures d in Named(rules, kind) <==> exists i :: 0 <= i < |rules| && RuleNames(rules[i], kind, d)
  {
    hide Normalize, ToLower;
    if d in Named(rules, kind) {
      var i :| 0 <= i < |rules| && rules[i].enabled && Normalize(rules[i].domain) != ""
               && ToLower(rules[i].kind) == kind && d == Normalize(rules[i].domain);
      assert RuleNames(rules[i], kind, d);
    }
  }

  /** A list gives a domain exactly when a line of it does, after a word that is one of four addresses. */
  lemma LineHostsExactly(raw: string, d: string)
    ensures var words := Fields(TrimSpace(raw));
            d in LineHosts(raw) <==>
            && TrimSpace(raw) != "" && TrimSpace(raw)[0] != '#'
            && |words| >= 2 && words[0] in {"0.0.0.0", "127.0.0.1", "::", "::1"} && '.' in d
            && exists i :: 1 <= i < |words| && words[i] != "localhost" && Normalize(words[i]) == d
  {
    hide TrimSpace, Fields, Normalize;
    NoHostNames();
    var words := Fields(TrimSpace(raw));
    FieldsAreWords(TrimSpace(raw));
    if LineWords(raw) != [] {
      forall i | 0 <= i < |words[1..]| ensures OneWord(words[1..][i]) { assert words[1 + i] in words; }
      HostNamesExactly(words[1..], d);
      if i :| 0 <= i < |words[1..]| && words[1..][i] != "localhost" && Normalize(words[1..][i]) == d {
        assert words[1 + i] == words[1..][i];
      }
      if i :| 1 <= i < |words| && words[i] != "localhost" && Normalize(words[i]) == d {
        assert words[1..][i - 1] == words[i];
      }
    }
  }

  lemma {:induction false} HostNamesExactly(words: seq<string>, d: string)
    requires forall i :: 0 <= i < |words| ==> OneWord(words[i])
    ensures d in HostNames(words) <==>
            '.' in d && exists i :: 0 <= i < |words| && words[i] != "localhost" && Normalize(words[i]) == d
  {
    hide TrimSpace, Normalize, OneWord;
    if words != [] {
      var n := |words| - 1;
      WordTrimmed(words[n]);
      WordSome(words[n]);
      HostNamesExactly(words[..n], d);
      if i :| 0 <= i < n && words[..n][i] != "localhost" && Normalize(words[..n][i]) == d {
        assert words[i] == words[..n][i];
      }
      if i :| 0 <= i < |words| && words[i] != "localhost" && Normalize(words[i]) == d {
        assert i < n ==> words[..n][i] == words[i];
      }
    }
  }

  lemma WordSome(w: string)
    requires OneWord(w)
    ensures w != ""
  {
  }

  /** The file's address is the one configured, without blanks around it, or 0.0.0.0 when there is none;
      each name stands on its own line behind it. */
  lemma HostsFileText(blockIP: string, domains: seq<string>)
    ensures var ip := if TrimSpace(blockIP) == "" then "0.0.0.0" else TrimSpace(blockIP);
            |domains| == 1 && Normalize(domains[0]) != "" ==>
              HostsFile(blockIP, domains) == ip + " " + Normalize(domains[0]) + "\n"
  {
    hide TrimSpace, Normalize, Unlines;
    if |domains| == 1 && Normalize(domains[0]) != "" {
      assert domains[..0] == [];
      var name, ip := Normalize(domains[0]), SinkOf(blockIP);
      assert Distinct(domains) == [name];
      assert [name][..0] == [];
      assert HostLines(ip, [name]) == [] + [HostLine(ip, name)];
      UnlinesSnoc([], HostLine(ip, name));
      NoLines();
      assert "" + HostLine(ip, name) + "\n" == ip + " " + name + "\n";
    }
  }

  /** Names are written in the order in which they are first met: more domains only add names at the end. */
  lemma {:induction false} DistinctGrows(a: seq<string>, b: seq<string>)
    ensures Distinct(a) <= Distinct(a + b)
  {
    hide Normalize;
    if b == [] {
      assert a + b == a;
    } else {
      assert (a + b)[..|a + b| - 1] == a + b[..|b| - 1];
      DistinctGrows(a, b[..|b| - 1]);
    }
  }
}
