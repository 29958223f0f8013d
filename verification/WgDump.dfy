/** The output of `wg show INTERFACE dump`: one line for the interface and one per peer, with
    tabs between the fields. */
module WgDump {
  import opened Text
  import opened Lines

  datatype PeerLine = PeerLine(
    publicKey: string, endpoint: string, allowedIPs: string, handshake: int, rx: int, tx: int, keepalive: int)

  datatype Result = Peers(peers: seq<PeerLine>) | EmptyDump | BadLine

  function NormalizeNone(v: string): string { if v == "(none)" then "" else v }

  /** `strconv.ParseInt` with its error dropped: 0 for no number, the nearest end for one out of range. */
  function ParseI64(text: string): int {
    var s := TrimSpace(text);
    var neg := s != "" && s[0] == '-';
    var body := if s != "" && (s[0] == '-' || s[0] == '+') then s[1..] else s;
    match FromBase(body, 10)
    case None => 0
    case Some(n) =>
      var v := if neg then 0 - n else n as int;
      if v > MAX_INT64 then MAX_INT64 else if v < -MAX_INT64 - 1 then -MAX_INT64 - 1 else v
  }

  function ReadPeer(line: string): Option<PeerLine> {
    var f := Split(line, '\t');
    if |f| < 8 then None
    else Some(PeerLine(f[0], NormalizeNone(f[2]), f[3], ParseI64(f[4]), ParseI64(f[5]), ParseI64(f[6]), ParseI64(f[7])))
  }

  /** The peers of the lines that are not blank; None when one has too few fields. */
  function ReadPeers(lines: seq<string>): Option<seq<PeerLine>> {
    if lines == [] then Some([])
    else
      match ReadPeers(lines[..|lines| - 1])
      case None => None
      case Some(init) =>
        var line := lines[|lines| - 1];
        if TrimSpace(line) == "" then Some(init)
        else match ReadPeer(line) case None => None case Some(p) => Some(init + [p])
  }

  function Dump(output: string): Result {
    var lines := Split(TrimSpace(output), '\n');
    if TrimSpace(lines[0]) == "" then EmptyDump
    else match ReadPeers(lines[1..]) case None => BadLine case Some(peers) => Peers(peers)
  }

  lemma ReadPeersSnoc(lines: seq<string>, i: nat)
    requires i < |lines|
    ensures ReadPeers(lines[..i + 1]) ==
            match ReadPeers(lines[..i])
            case None => None
            case Some(init) =>
              if TrimSpace(lines[i]) == "" then Some(init)
              else match ReadPeer(lines[i]) case None => None case Some(p) => Some(init + [p])
  {
    hide ReadPeer, TrimSpace;
    assert lines[..i + 1][..i] == lines[..i];
  }

  lemma {:induction false} ReadPeersFail(lines: seq<string>, i: nat)
    requires i <= |lines| && ReadPeers(lines[..i]).None?
    ensures ReadPeers(lines).None?
    decreases |lines| - i
  {
    hide ReadPeers, ReadPeer, TrimSpace;
    if i < |lines| {
      ReadPeersSnoc(lines, i);
      ReadPeersFail(lines, i + 1);
    } else {
      assert lines[..i] == lines;
    }
  }

  method ParseDump(output: string) returns (r: Result)
    ensures r == Dump(output)
  {
    hide TrimSpace, Split, ReadPeer, ReadPeers;
    var all := Split(TrimSpace(output), '\n');
    if TrimSpace(all[0]) == "" { return EmptyDump; }
    var lines := all[1..];
    var peers: seq<PeerLine> := [];
    NoPeers(lines);
    for i := 0 to |lines|
      invariant ReadPeers(lines[..i]) == Some(peers)
    {
      ReadPeersSnoc(lines, i);
      if TrimSpace(lines[i]) == "" { continue; }
      var p := ReadPeer(lines[i]);
      if p.None? {
        ReadPeersFail(lines, i + 1);
        return BadLine;
      }
      peers := peers + [p.value];
    }
    assert lines[..|lines|] == lines;
    return Peers(peers);
  }

  lemma NoPeers(lines: seq<string>)
    ensures ReadPeers(lines[..0]) == Some([])
  {
  }

  /* ---------- what the kernel prints ---------- */

  function ShowPeer(p: PeerLine, presharedKey: string): seq<string>
    requires p.handshake >= 0 && p.rx >= 0 && p.tx >= 0 && p.keepalive >= 0
  {
    [p.publicKey, presharedKey, if p.endpoint == "" then "(none)" else p.endpoint, p.allowedIPs,
     Decimal(p.handshake), Decimal(p.rx), Decimal(p.tx), if p.keepalive == 0 then "off" else Decimal(p.keepalive)]
  }

  predicate Field(s: string) { '\t' !in s && '\n' !in s }

  predicate Counter(n: int) { 0 <= n <= MAX_INT64 }

  /** A peer `wg` can print: fields without tabs or line ends, a key, counters of 64 bits. */
  predicate Printable(p: PeerLine) {
    && Field(p.publicKey) && p.publicKey != "" && !IsSpace(p.publicKey[0])
    && Field(p.endpoint) && p.endpoint != "(none)" && Field(p.allowedIPs)
    && Counter(p.handshake) && Counter(p.rx) && Counter(p.tx) && Counter(p.keepalive)
  }

  function PeerText(p: PeerLine, presharedKey: string): string
    requires Printable(p)
  {
    Join(ShowPeer(p, presharedKey), '\t')
  }

  /** Peers with the preshared key (or "(none)") printed beside each. */
  predicate AllPrintable(peers: seq<PeerLine>, presharedKeys: seq<string>) {
    && |presharedKeys| == |peers|
    && forall i :: 0 <= i < |peers| ==> Printable(peers[i]) && Field(presharedKeys[i])
  }

  function PeerTexts(peers: seq<PeerLine>, presharedKeys: seq<string>): seq<string>
    requires AllPrintable(peers, presharedKeys)
  {
    if peers == [] then []
    else
      var n := |peers| - 1;
      PeerTexts(peers[..n], presharedKeys[..n]) + [PeerText(peers[n], presharedKeys[n])]
  }

  lemma CounterReads(n: int)
    requires Counter(n)
    ensures ParseI64(Decimal(n)) == n && Field(Decimal(n)) && !IsSpace(Decimal(n)[|Decimal(n)| - 1])
  {
    hide TrimSpace, ToBase, FromBase;
    BaseRoundTrip(n, 10);
    DecimalChars(n);
    TrimFixed(Decimal(n));
    forall c | c in Decimal(n) ensures c != '\t' && c != '\n' {}
  }

  lemma OffReads()
    ensures ParseI64("off") == 0 && Field("off") && !IsSpace('f')
  {
    hide TrimSpace;
    TrimFixed("off");
  }

  lemma KeepaliveReads(p: PeerLine)
    requires Printable(p)
    ensures var s := if p.keepalive == 0 then "off" else Decimal(p.keepalive);
            ParseI64(s) == p.keepalive && Field(s) && s != "" && !IsSpace(s[|s| - 1])
  {
    hide ParseI64, ToBase, IsSpace;
    OffReads();
    CounterReads(p.keepalive);
  }

  lemma EndpointReads(p: PeerLine)
    requires Printable(p)
    ensures var s := if p.endpoint == "" then "(none)" else p.endpoint; NormalizeNone(s) == p.endpoint && Field(s)
  {
    hide IsSpace;
  }

  /** A printed peer is read back. */
  lemma PeerReadsBack(p: PeerLine, presharedKey: string)
    requires Printable(p) && Field(presharedKey)
    ensures ReadPeer(PeerText(p, presharedKey)) == Some(p)
  {
    hide ParseI64, ToBase, IsSpace, Split, Join, NormalizeNone, Field;
    var f := ShowPeer(p, presharedKey);
    CounterReads(p.handshake);
    CounterReads(p.rx);
    CounterReads(p.tx);
    KeepaliveReads(p);
    EndpointReads(p);
    assert forall i :: 0 <= i < |f| ==> Field(f[i]);
    FieldsTabless(f);
    SplitJoin(f, '\t');
  }

  lemma FieldsTabless(f: seq<string>)
    requires forall i :: 0 <= i < |f| ==> Field(f[i])
    ensures forall i :: 0 <= i < |f| ==> '\t' !in f[i] && '\n' !in f[i]
  {
  }

  lemma {:induction false} JoinLast(parts: seq<string>, c: char)
    requires parts != [] && parts[|parts| - 1] != ""
    ensures Join(parts, c) != ""
    ensures var j, l := Join(parts, c), parts[|parts| - 1]; j[|j| - 1] == l[|l| - 1]
  {
    if |parts| > 1 { JoinLast(parts[1..], c); }
  }

  lemma JoinEnds(parts: seq<string>, c: char)
    requires parts != [] && parts[0] != "" && parts[|parts| - 1] != ""
    ensures Join(parts, c) != "" && Join(parts, c)[0] == parts[0][0]
    ensures var j, l := Join(parts, c), parts[|parts| - 1]; j[|j| - 1] == l[|l| - 1]
  {
    JoinLast(parts, c);
  }

  lemma {:induction false} JoinOneLine(parts: seq<string>)
    requires forall i :: 0 <= i < |parts| ==> Field(parts[i])
    ensures OneLine(Join(parts, '\t'))
  {
    if |parts| > 1 {
      JoinOneLine(parts[1..]);
      TwoLines(parts[0], Join(parts[1..], '\t'));
    }
  }

  lemma TwoLines(a: string, b: string)
    requires OneLine(a) && OneLine(b)
    ensures OneLine(a + ['\t'] + b)
  {
  }

  lemma PeerTextShape(p: PeerLine, presharedKey: string)
    requires Printable(p) && Field(presharedKey)
    ensures var t := PeerText(p, presharedKey); t != "" && OneLine(t) && !IsSpace(t[0]) && !IsSpace(t[|t| - 1])
  {
    hide ParseI64, ToBase, IsSpace, Join, Field;
    var f := ShowPeer(p, presharedKey);
    CounterReads(p.handshake);
    CounterReads(p.rx);
    CounterReads(p.tx);
    KeepaliveReads(p);
    EndpointReads(p);
    assert forall i :: 0 <= i < |f| ==> Field(f[i]);
    JoinEnds(f, '\t');
    JoinOneLine(f);
  }

  lemma {:induction false} PeersReadBack(peers: seq<PeerLine>, presharedKeys: seq<string>)
    requires AllPrintable(peers, presharedKeys)
    ensures ReadPeers(PeerTexts(peers, presharedKeys)) == Some(peers)
    ensures AllOneLine(PeerTexts(peers, presharedKeys))
  {
    hide Printable, PeerText, ReadPeer, TrimSpace, Field, OneLine, IsSpace;
    if peers != [] {
      var n := |peers| - 1;
      PeersReadBack(peers[..n], presharedKeys[..n]);
      PeerReadsBack(peers[n], presharedKeys[n]);
      PeerTextShape(peers[n], presharedKeys[n]);
      TrimFixed(PeerText(peers[n], presharedKeys[n]));
      assert peers == peers[..n] + [peers[n]];
    }
  }

  /** What `wg` prints for an interface: a line about itself, then its peers. */
  function ShowDump(head: string, peers: seq<PeerLine>, presharedKeys: seq<string>): string
    requires AllPrintable(peers, presharedKeys)
  {
    Unlines([head] + PeerTexts(peers, presharedKeys))
  }

  /** Parsing what `wg` prints gives its peers, in order. */
  lemma DumpReadsBack(head: string, peers: seq<PeerLine>, presharedKeys: seq<string>)
    requires head != "" && Trimmed(head) && OneLine(head) && AllPrintable(peers, presharedKeys)
    ensures Dump(ShowDump(head, peers, presharedKeys)) == Peers(peers)
  {
    hide Printable, PeerText, ReadPeers, TrimSpace, Field, OneLine, IsSpace, Unlines, Join, Split;
    var rest := PeerTexts(peers, presharedKeys);
    var lines := [head] + rest;
    PeersReadBack(peers, presharedKeys);
    UnlinesJoined(lines);
    if peers != [] { PeerTextShape(peers[|peers| - 1], presharedKeys[|peers| - 1]); }
    JoinEnds(lines, '\n');
    var body := Join(lines, '\n');
    assert Blank("\n") by { NewlineBlank(); }
    TrimPadded("", body, "\n");
    assert "" + body + "\n" == body + "\n";
    assert forall i :: 0 <= i < |lines| ==> OneLine(lines[i]);
    LinesFree(lines);
    SplitJoin(lines, '\n');
    TrimFixed(head);
    assert lines[1..] == rest;
  }

  lemma NewlineBlank()
    ensures Blank("\n")
  {
  }

  lemma LinesFree(lines: seq<string>)
    requires forall i :: 0 <= i < |lines| ==> OneLine(lines[i])
    ensures forall i :: 0 <= i < |lines| ==> '\n' !in lines[i]
  {
  }

  lemma UnlinesJoined(lines: seq<string>)
    requires lines != []
    ensures Unlines(lines) == Join(lines, '\n') + "\n"
  {
    hide Unlines, Join;
    UnlinesIsJoin(lines);
    JoinSnoc(lines, '\n', "");
    assert Join(lines, '\n') + "\n" + "" == Join(lines, '\n') + "\n";
  }

  /* ---------- other texts ---------- */

  /** Numbers out of range become the nearest end, and what is no number becomes 0. */
  lemma ParsedNumber(n: nat)
    ensures ParseI64(Decimal(n)) == if n <= 9_223_372_036_854_775_807 then n else 9_223_372_036_854_775_807
    ensures ParseI64("-" + Decimal(n)) == if n <= 9_223_372_036_854_775_808 then 0 - n else -9_223_372_036_854_775_808
    ensures ParseI64("+" + Decimal(n)) == ParseI64(Decimal(n))
  {
    hide TrimSpace, ToBase, FromBase;
    BaseRoundTrip(n, 10);
    SignedText(n, '-');
    SignedText(n, '+');
    DecimalChars(n);
    DecimalTrimmed(n);
    TrimFixed(Decimal(n));
  }

  lemma DecimalTrimmed(n: nat)
    ensures Trimmed(Decimal(n))
  {
    hide ToBase;
    DecimalChars(n);
  }

  lemma SignedText(n: nat, sign: char)
    requires sign == '-' || sign == '+'
    ensures var s := [sign] + Decimal(n); TrimSpace(s) == s && s[0] == sign && s[1..] == Decimal(n)
  {
    hide TrimSpace, ToBase;
    var s := [sign] + Decimal(n);
    DecimalChars(n);
    assert s[|s| - 1] == Decimal(n)[|Decimal(n)| - 1];
    TrimFixed(s);
  }

  lemma NoNumber(text: string)
    requires Trimmed(text)
    requires text == "" || exists i :: 0 <= i < |text| && !('0' <= text[i] <= '9') && (i > 0 || text[i] !in "+-")
    ensures ParseI64(text) == 0
  {
    hide TrimSpace;
    TrimFixed(text);
    if text != "" {
      var i :| 0 <= i < |text| && !('0' <= text[i] <= '9') && (i > 0 || text[i] !in "+-");
      if text[0] == '-' || text[0] == '+' {
        assert text[1..][i - 1] == text[i];
        NotDecimal(text[1..], i - 1);
      } else {
        NotDecimal(text, i);
      }
    }
  }

  /** A line with fewer than seven tabs. */
  predicate TooFewFields(line: string) { TrimSpace(line) != "" && |Split(line, '\t')| < 8 }

  /** Parsing fails exactly on blank output, and when a line after the first that is not blank has fewer
      than eight fields. */
  lemma DumpFailsExactly(output: string)
    ensures var lines := Split(TrimSpace(output), '\n');
            && (Dump(output) == EmptyDump <==> TrimSpace(lines[0]) == "")
            && (Dump(output) == BadLine <==>
                  TrimSpace(lines[0]) != "" && exists i :: 0 < i < |lines| && TooFewFields(lines[i]))
  {
    hide TrimSpace, Split, TooFewFields;
    var lines := Split(TrimSpace(output), '\n');
    PeersFailExactly(lines[1..]);
    if i :| 0 < i < |lines| && TooFewFields(lines[i]) { assert lines[1..][i - 1] == lines[i]; }
    if i :| 0 <= i < |lines[1..]| && TooFewFields(lines[1..][i]) { assert lines[1 + i] == lines[1..][i]; }
  }

  lemma {:induction false} PeersFailExactly(lines: seq<string>)
    ensures ReadPeers(lines).None? <==> exists i :: 0 <= i < |lines| && TooFewFields(lines[i])
  {
    hide TrimSpace, Split, ParseI64;
    if lines != [] {
      var n := |lines| - 1;
      PeersFailExactly(lines[..n]);
      if i :| 0 <= i < n && TooFewFields(lines[..n][i]) { assert TooFewFields(lines[i]); }
    }
  }
}
