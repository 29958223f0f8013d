/** The wg-quick configuration parser, line by line. */
module WgQuickParse {
  import opened Text

  datatype Interface = Interface(
    privateKey: string, listenPort: int, address: string, dns: string, mtu: int,
    preUp: string, postUp: string, preDown: string, postDown: string, other: map<string, string>)

  datatype Peer = Peer(username: string, publicKey: string, presharedKey: string, allowedIPs: string,
                       endpoint: string, other: map<string, string>)

  datatype Config = Config(intf: Interface, peers: seq<Peer>)

  datatype ParseError = LineTooLong | MissingPrivateKey
  datatype Result = Ok(config: Config) | Err(error: ParseError)

  const EMPTY_INTERFACE := Interface("", 0, "", "", 0, "", "", "", "", map[])

  function NewPeer(name: string): Peer { Peer(name, "", "", "", "", map[]) }

  /** The variables of the parsing loop. */
  datatype State = State(intf: Interface, peers: seq<Peer>, section: string, pending: string, cur: Option<Peer>)

  const START := State(EMPTY_INTERFACE, [], "", "", None)

  /* ---------- one line ---------- */

  function TrimPrefixChar(s: string, c: char): string {
    if s != "" && s[0] == c then s[1..] else s
  }

  const USER_PREFIX := "user:"

  /** `# User: name` and its variants. */
  function ParseUserComment(line: string): Option<string> {
    var ln := TrimSpace(TrimPrefixChar(TrimSpace(TrimPrefixChar(line, '#')), ';'));
    if |ln| < |USER_PREFIX| || ToLower(ln)[..|USER_PREFIX|] != USER_PREFIX then None
    else
      var u := TrimSpace(ln[|USER_PREFIX|..]);
      if u == "" then None else Some(u)
  }

  function ParseKV(line: string): Option<(string, string)> {
    var i := IndexOf(line, '=');
    if i < 0 || TrimSpace(line[..i]) == "" then None
    else Some((ToLower(TrimSpace(line[..i])), TrimSpace(line[i + 1..])))
  }

  predicate IsComment(line: string) { line != "" && (line[0] == '#' || line[0] == ';') }

  predicate IsHeader(line: string) { |line| >= 2 && line[0] == '[' && line[|line| - 1] == ']' }

  function HeaderName(line: string): string
    requires IsHeader(line)
  {
    ToLower(TrimSpace(line[1..|line| - 1]))
  }

  datatype Field = PrivateKey | ListenPort | Address | Dns | Mtu | PreUp | PostUp | PreDown | PostDown

  function FieldOf(key: string): Option<Field> {
    if key == "privatekey" then Some(PrivateKey)
    else if key == "listenport" then Some(ListenPort)
    else if key == "address" then Some(Address)
    else if key == "dns" then Some(Dns)
    else if key == "mtu" then Some(Mtu)
    else if key == "preup" then Some(PreUp)
    else if key == "postup" then Some(PostUp)
    else if key == "predown" then Some(PreDown)
    else if key == "postdown" then Some(PostDown)
    else None
  }

  function AppendHookLine(existing: string, next: string): string {
    var n := TrimSpace(next);
    if n == "" then existing
    else if TrimSpace(existing) == "" then n
    else TrimSpace(existing) + "\n" + n
  }

  function SetField(i: Interface, f: Field, v: string): Interface {
    match f
    case PrivateKey => i.(privateKey := TrimSpace(v))
    case ListenPort =>
      (match Atoi(TrimSpace(v))
       case Some(n) => if 0 < n <= 65535 then i.(listenPort := n) else i
       case None => i)
    case Address => i.(address := TrimSpace(v))
    case Dns => i.(dns := TrimSpace(v))
    case Mtu =>
      (match Atoi(TrimSpace(v))
       case Some(n) => if n > 0 then i.(mtu := n) else i
       case None => i)
    case PreUp => i.(preUp := AppendHookLine(i.preUp, v))
    case PostUp => i.(postUp := AppendHookLine(i.postUp, v))
    case PreDown => i.(preDown := AppendHookLine(i.preDown, v))
    case PostDown => i.(postDown := AppendHookLine(i.postDown, v))
  }

  function ApplyInterface(i: Interface, key: string, v: string): Interface {
    match FieldOf(ToLower(key))
    case Some(f) => SetField(i, f, v)
    case None => i.(other := i.other[key := v])
  }

  datatype PeerField = PublicKey | PresharedKey | AllowedIPs | Endpoint

  function PeerFieldOf(key: string): Option<PeerField> {
    if key == "publickey" then Some(PublicKey)
    else if key == "presharedkey" then Some(PresharedKey)
    else if key == "allowedips" then Some(AllowedIPs)
    else if key == "endpoint" then Some(Endpoint)
    else None
  }

  function ApplyPeer(p: Peer, key: string, v: string): Peer {
    match PeerFieldOf(ToLower(key))
    case Some(PublicKey) => p.(publicKey := TrimSpace(v))
    case Some(PresharedKey) => p.(presharedKey := TrimSpace(v))
    case Some(AllowedIPs) => p.(allowedIPs := TrimSpace(v))
    case Some(Endpoint) => p.(endpoint := TrimSpace(v))
    case None => p.(other := p.other[key := v])
  }

  /** The peers so far, with the open one flushed. */
  function Flushed(st: State): seq<Peer> {
    if st.cur.Some? then st.peers + [st.cur.value] else st.peers
  }

  function Open(st: State, name: string): State {
    if name == "peer" then
      st.(peers := Flushed(st), cur := Some(NewPeer(TrimSpace(st.pending))), pending := "", section := "peer")
    else st.(peers := Flushed(st), cur := None, section := name)
  }

  function Assign(st: State, key: string, v: string): State {
    if st.section == "interface" then st.(intf := ApplyInterface(st.intf, key, v))
    else if st.section == "peer" then
      if st.cur.Some? then st.(cur := Some(ApplyPeer(st.cur.value, key, v)))
      else st.(cur := Some(ApplyPeer(NewPeer(TrimSpace(st.pending)), key, v)), pending := "")
    else st
  }

  function Step(st: State, raw: string): State {
    var line := TrimSpace(raw);
    if line == "" then st
    else if IsComment(line) then
      (match ParseUserComment(line) case Some(u) => st.(pending := u) case None => st)
    else if IsHeader(line) then Open(st, HeaderName(line))
    else match ParseKV(line)
      case Some(kv) => Assign(st, kv.0, kv.1)
      case None => st
  }

  function Scan(st: State, lines: seq<string>): State
    decreases |lines|
  {
    if lines == [] then st else Scan(Step(st, lines[0]), lines[1..])
  }

  /** Finishing: the open peer is flushed and the private key must not be blank. */
  function Finish(st: State): Result {
    if TrimSpace(st.intf.privateKey) == "" then Err(MissingPrivateKey)
    else Ok(Config(st.intf, Flushed(st)))
  }

  /** The scanner's buffer: a line of this many bytes does not fit, and reading fails. */
  const MAX_LINE := 1024 * 1024

  predicate Scannable(lines: seq<string>) {
    forall i :: 0 <= i < |lines| ==> ByteLength(lines[i]) < MAX_LINE
  }

  /** The whole parse. The scanner's lines are the pieces between line feeds; a last empty piece
      and a carriage return at the end of a line are dropped by trimming. */
  function Parse(text: string): Result {
    if Scannable(Split(text, '\n')) then Finish(Scan(START, Split(text, '\n'))) else Err(LineTooLong)
  }

  method ParseWGQuickConfig(text: string) returns (r: Result)
    ensures r == Parse(text)
  {
    var lines := Split(text, '\n');
    var intf, peers, section, pendingUser := EMPTY_INTERFACE, [], "", "";
    var curPeer: Option<Peer> := None;
    var i := 0;
    while i < |lines|
      invariant 0 <= i <= |lines|
      invariant forall j :: 0 <= j < i ==> ByteLength(lines[j]) < MAX_LINE
      invariant Scan(State(intf, peers, section, pendingUser, curPeer), lines[i..]) == Scan(START, lines)
    {
      hide ParseUserComment, ParseKV, ApplyInterface, ApplyPeer, ToLower, TrimSpace, TrimPrefixChar, ByteLength;
      if ByteLength(lines[i]) >= MAX_LINE { return Err(LineTooLong); }
      ghost var before := State(intf, peers, section, pendingUser, curPeer);
      assert lines[i..][1..] == lines[i + 1..];
      var line := TrimSpace(lines[i]);
      i := i + 1;
      if line == "" { continue; }
      if IsComment(line) {
        var u := ParseUserComment(line);
        if u.Some? { pendingUser := u.value; }
        continue;
      }
      if IsHeader(line) {
        section := HeaderName(line);
        if curPeer.Some? { peers := peers + [curPeer.value]; curPeer := None; }
        if section == "peer" {
          curPeer := Some(NewPeer(TrimSpace(pendingUser)));
          pendingUser := "";
        }
        assert State(intf, peers, section, pendingUser, curPeer) == Open(before, HeaderName(line));
        continue;
      }
      var kv := ParseKV(line);
      if kv.None? { continue; }
      if section == "interface" {
        intf := ApplyInterface(intf, kv.value.0, kv.value.1);
      } else if section == "peer" {
        if curPeer.None? {
          curPeer := Some(NewPeer(TrimSpace(pendingUser)));
          pendingUser := "";
        }
        curPeer := Some(ApplyPeer(curPeer.value, kv.value.0, kv.value.1));
      }
    }
    if curPeer.Some? { peers := peers + [curPeer.value]; }
    if TrimSpace(intf.privateKey) == "" { return Err(MissingPrivateKey); }
    r := Ok(Config(intf, peers));
  }

  lemma {:induction false} ScanConcat(st: State, a: seq<string>, b: seq<string>)
    ensures Scan(st, a + b) == Scan(Scan(st, a), b)
    decreases |a|
  {
    hide Step;
    if a == [] {
      assert a + b == b;
    } else {
      assert (a + b)[1..] == a[1..] + b;
      ScanConcat(Step(st, a[0]), a[1..], b);
    }
  }

  /* ---------- what every text gives ---------- */

  predicate PeerHeader(raw: string) {
    var line := TrimSpace(raw);
    line != "" && !IsComment(line) && IsHeader(line) && HeaderName(line) == "peer"
  }

  function UserNamed(raw: string): Option<string> {
    var line := TrimSpace(raw);
    if line != "" && IsComment(line) then ParseUserComment(line) else None
  }

  /** The name a peer header right after these lines takes: that of the nearest user comment
      with no peer header in between, and none otherwise. */
  function NameAfter(lines: seq<string>): string {
    if lines == [] then ""
    else
      var n := |lines| - 1;
      if PeerHeader(lines[n]) then ""
      else if UserNamed(lines[n]).Some? then UserNamed(lines[n]).value
      else NameAfter(lines[..n])
  }

  /** One name for each peer header, in order. */
  function HeaderNames(lines: seq<string>): seq<string> {
    if lines == [] then []
    else
      var n := |lines| - 1;
      HeaderNames(lines[..n]) + if PeerHeader(lines[n]) then [NameAfter(lines[..n])] else []
  }

  function Usernames(peers: seq<Peer>): seq<string> {
    seq(|peers|, i requires 0 <= i < |peers| => peers[i].username)
  }

  predicate Consistent(st: State, lines: seq<string>) {
    && (st.cur.Some? <==> st.section == "peer")
    && st.pending == NameAfter(lines) && Trimmed(st.pending)
    && Usernames(Flushed(st)) == HeaderNames(lines)
  }

  lemma ApplyKeepsName(p: Peer, key: string, v: string)
    ensures ApplyPeer(p, key, v).username == p.username
  {
    hide ToLower, TrimSpace;
  }

  lemma CommentTrimmed(line: string)
    ensures ParseUserComment(line).Some? ==> Trimmed(ParseUserComment(line).value)
  {
    hide ToLower;
    var ln := TrimSpace(TrimPrefixChar(TrimSpace(TrimPrefixChar(line, '#')), ';'));
    if |ln| >= |USER_PREFIX| { TrimIsTrimmed(ln[|USER_PREFIX|..]); }
  }

  lemma ConsistentStep(st: State, lines: seq<string>, raw: string)
    requires Consistent(st, lines)
    ensures Consistent(Step(st, raw), lines + [raw])
  {
    hide ToLower, TrimSpace, ParseUserComment, ParseKV, ApplyPeer, ApplyInterface, Trimmed;
    var more, line := lines + [raw], TrimSpace(raw);
    assert more[..|more| - 1] == lines;
    if line != "" {
      if IsComment(line) {
        CommentTrimmed(line);
      } else if IsHeader(line) {
        TrimFixed(st.pending);
        assert Trimmed("") by { EmptyTrimmed(); }
        OpenNames(st, HeaderName(line));
      } else if ParseKV(line).Some? {
        AssignNames(st, ParseKV(line).value.0, ParseKV(line).value.1);
      }
    }
  }

  lemma EmptyTrimmed()
    ensures Trimmed("")
  {
  }

  lemma OpenNames(st: State, name: string)
    ensures Usernames(Flushed(Open(st, name))) ==
            Usernames(Flushed(st)) + if name == "peer" then [TrimSpace(st.pending)] else []
  {
    hide TrimSpace;
  }

  lemma AssignNames(st: State, key: string, v: string)
    requires st.section == "peer" ==> st.cur.Some?
    ensures var t := Assign(st, key, v);
            t.section == st.section && t.pending == st.pending && t.cur.Some? == st.cur.Some?
            && Usernames(Flushed(t)) == Usernames(Flushed(st))
  {
    hide TrimSpace, ApplyPeer, ApplyInterface;
    if st.cur.Some? { ApplyKeepsName(st.cur.value, key, v); }
  }

  lemma {:induction false} ConsistentScan(lines: seq<string>)
    ensures Consistent(Scan(START, lines), lines)
  {
    if lines == [] {
      EmptyTrimmed();
      assert Usernames(Flushed(START)) == [];
    } else {
      hide Step, Consistent;
      var n := |lines| - 1;
      ConsistentScan(lines[..n]);
      ConsistentStep(Scan(START, lines[..n]), lines[..n], lines[n]);
      ScanConcat(START, lines[..n], [lines[n]]);
      assert lines == lines[..n] + [lines[n]] && [lines[n]][1..] == [];
    }
  }

  /** On any text: between lines a current peer exists exactly while the section is `peer`. */
  lemma PeerWhileInSection(lines: seq<string>, i: nat)
    requires i <= |lines|
    ensures var st := Scan(START, lines[..i]); st.cur.Some? <==> st.section == "peer"
  {
    ConsistentScan(lines[..i]);
  }

  /** On any text that parses: one peer for each peer header, each named by the nearest user
      comment since the header before it, so a comment names at most one peer. */
  lemma OnePeerPerHeader(text: string)
    requires Parse(text).Ok?
    ensures Usernames(Parse(text).config.peers) == HeaderNames(Split(text, '\n'))
  {
    hide Scan, HeaderNames, TrimSpace;
    ConsistentScan(Split(text, '\n'));
  }

  function CountHeaders(lines: seq<string>): nat {
    if lines == [] then 0
    else CountHeaders(lines[..|lines| - 1]) + if PeerHeader(lines[|lines| - 1]) then 1 else 0
  }

  lemma {:induction false} HeaderNamesCount(lines: seq<string>)
    ensures |HeaderNames(lines)| == CountHeaders(lines)
  {
    hide PeerHeader, NameAfter;
    if lines != [] {
      HeaderNamesCount(lines[..|lines| - 1]);
    }
  }

  lemma PeersCountHeaders(text: string)
    requires Parse(text).Ok?
    ensures |Parse(text).config.peers| == CountHeaders(Split(text, '\n'))
  {
    hide Parse, HeaderNames, CountHeaders, Split;
    OnePeerPerHeader(text);
    HeaderNamesCount(Split(text, '\n'));
    assert |Usernames(Parse(text).config.peers)| == |Parse(text).config.peers|;
  }

  /* ---------- what one line does, in its own columns ---------- */

  /** A further line of a hook goes below those that are there. */
  predicate Adds(hook: string, before: string, line: string) {
    hook == if TrimSpace(line) == "" then before
            else if TrimSpace(before) == "" then TrimSpace(line)
            else TrimSpace(before) + "\n" + TrimSpace(line)
  }

  /** A number that is given and in range replaces the one before. */
  predicate Reads(number: int, before: int, text: string, high: int) {
    number == match Atoi(TrimSpace(text)) case Some(n) => if 1 <= n <= high then n else before case None => before
  }

  /** In the interface section, in any letter case: the nine known keys set their columns, hooks line by
      line and numbers only when they are in range; every other key is kept beside them. */
  lemma InterfaceColumns(i: Interface, key: string, v: string)
    ensures var j, k := ApplyInterface(i, key, v), ToLower(key);
            && j.privateKey == (if k == "privatekey" then TrimSpace(v) else i.privateKey)
            && j.address == (if k == "address" then TrimSpace(v) else i.address)
            && j.dns == (if k == "dns" then TrimSpace(v) else i.dns)
    ensures var j, k := ApplyInterface(i, key, v), ToLower(key);
            && (if k == "listenport" then Reads(j.listenPort, i.listenPort, v, 65535) else j.listenPort == i.listenPort)
            && (if k == "mtu" then Reads(j.mtu, i.mtu, v, 9_223_372_036_854_775_807) else j.mtu == i.mtu)
    ensures var j, k := ApplyInterface(i, key, v), ToLower(key);
            && (if k == "preup" then Adds(j.preUp, i.preUp, v) else j.preUp == i.preUp)
            && (if k == "postup" then Adds(j.postUp, i.postUp, v) else j.postUp == i.postUp)
            && (if k == "predown" then Adds(j.preDown, i.preDown, v) else j.preDown == i.preDown)
            && (if k == "postdown" then Adds(j.postDown, i.postDown, v) else j.postDown == i.postDown)
    ensures ApplyInterface(i, key, v).other ==
            if FieldOf(ToLower(key)).Some? then i.other else i.other[key := v]
  {
    hide TrimSpace, ToLower, Atoi;
    AtoiRange(TrimSpace(v));
    KnownKeys(ToLower(key));
  }

  lemma AtoiRange(s: string)
    ensures Atoi(s).Some? ==> Atoi(s).value <= 9_223_372_036_854_775_807
  {
    hide FromBase;
  }

  /** The known keys, by their names. */
  lemma KnownKeys(k: string)
    ensures FieldOf(k).Some? <==>
            k in {"privatekey", "listenport", "address", "dns", "mtu", "preup", "postup", "predown", "postdown"}
    ensures FieldOf(k) == Some(PrivateKey) <==> k == "privatekey"
    ensures FieldOf(k) == Some(ListenPort) <==> k == "listenport"
    ensures (FieldOf(k) == Some(Address) <==> k == "address") && (FieldOf(k) == Some(Dns) <==> k == "dns")
    ensures (FieldOf(k) == Some(Mtu) <==> k == "mtu") && (FieldOf(k) == Some(PreUp) <==> k == "preup")
    ensures (FieldOf(k) == Some(PostUp) <==> k == "postup") && (FieldOf(k) == Some(PreDown) <==> k == "predown")
    ensures FieldOf(k) == Some(PostDown) <==> k == "postdown"
  {
    assert "privatekey"[1] == 'r' && "preup"[2] == 'e' && "predown"[3] == 'd' && "postup"[4] == 'u';
    assert "privatekey"[2] == 'i' && "preup"[3] == 'u' && "postdown"[4] == 'd' && "postup"[1] == 'o';
    assert |"privatekey"| == 10 && |"listenport"| == 10 && |"address"| == 7 && |"dns"| == 3 && |"mtu"| == 3;
    assert |"preup"| == 5 && |"postup"| == 6 && |"predown"| == 7 && |"postdown"| == 8;
    assert "listenport"[0] == 'l' && "privatekey"[0] == 'p' && "address"[0] == 'a' && "predown"[0] == 'p';
    assert "dns"[0] == 'd' && "mtu"[0] == 'm';
  }

  /** In a peer section, in any letter case: the four known keys set their columns, others are kept. */
  lemma PeerColumns(p: Peer, key: string, v: string)
    ensures var q, k := ApplyPeer(p, key, v), ToLower(key);
            && q.username == p.username
            && q.publicKey == (if k == "publickey" then TrimSpace(v) else p.publicKey)
            && q.presharedKey == (if k == "presharedkey" then TrimSpace(v) else p.presharedKey)
            && q.allowedIPs == (if k == "allowedips" then TrimSpace(v) else p.allowedIPs)
            && q.endpoint == (if k == "endpoint" then TrimSpace(v) else p.endpoint)
            && q.other == (if k in {"publickey", "presharedkey", "allowedips", "endpoint"} then p.other
                           else p.other[key := v])
  {
    hide TrimSpace, ToLower;
    assert |"publickey"| == 9 && |"presharedkey"| == 12 && |"allowedips"| == 10 && |"endpoint"| == 8;
  }

  /** A line is cut at its first equals sign; the key is lowered, and blanks around both parts go. */
  lemma KeyAndValue(a: string, key: string, b: string, c: string, v: string, d: string)
    requires Blank(a) && Blank(b) && Blank(c) && Blank(d) && Trimmed(key) && key != "" && Trimmed(v) && '=' !in key
    ensures ParseKV((a + key + b) + ['='] + (c + v + d)) == Some((ToLower(key), v))
  {
    hide TrimSpace, ToLower;
    BlankNoEquals(a);
    BlankNoEquals(b);
    IndexOfPrefix(a + key + b, '=', c + v + d);
    var line := (a + key + b) + ['='] + (c + v + d);
    assert line[..|a + key + b|] == a + key + b && line[|a + key + b| + 1..] == c + v + d;
    TrimPadded(a, key, b);
    TrimPadded(c, v, d);
  }

  lemma BlankNoEquals(a: string)
    requires Blank(a)
    ensures '=' !in a
  {
  }

  /** Lines of any other section, and those before the first, change nothing. */
  lemma OtherSections(st: State, raw: string)
    requires st.section != "interface" && st.section != "peer"
    requires var line := TrimSpace(raw); line != "" && line[0] != '#' && line[0] != ';' && !IsHeader(line)
    ensures Step(st, raw) == st
  {
    hide TrimSpace, ParseKV;
  }

  /** A user comment: a sharp or a semicolon, blanks, "user:" in any letter case, and a name. */
  lemma UserComment(mark: char, a: string, tag: string, b: string, name: string)
    requires mark == '#' || mark == ';'
    requires Blank(a) && Blank(b) && ToLower(tag) == "user:" && Trimmed(name) && name != ""
    ensures ParseUserComment([mark] + a + (tag + b + name)) == Some(name)
  {
    hide TrimSpace, IsSpace;
    var body := tag + b + name;
    var line := [mark] + a + body;
    TagSolid(tag);
    assert body[0] == tag[0] && body[|body| - 1] == name[|name| - 1];
    TrimPadded(a, body, "");
    assert a + body + "" == a + body && line[1..] == a + body;
    TrimFixed(body);
    if mark == ';' {
      assert line[|line| - 1] == body[|body| - 1] && !IsSpace(';') by { MarkSolid(); }
      TrimFixed(line);
    }
    assert ToLower(body)[..5] == ToLower(tag);
    assert body[5..] == b + name;
    TrimPadded(b, name, "");
    assert b + name + "" == b + name;
  }

  lemma MarkSolid()
    ensures !IsSpace(';')
  {
  }

  lemma TagSolid(tag: string)
    requires ToLower(tag) == "user:"
    ensures |tag| == 5 && !IsSpace(tag[0]) && tag[0] != ';' && tag[0] != '#'
  {
    assert LowerChar(tag[0]) == "user:"[0];
  }

  /** And every comment that names a user holds "user:" and then that name. */
  lemma UserNamedBy(line: string)
    requires ParseUserComment(line).Some?
    ensures var ln := TrimSpace(TrimPrefixChar(TrimSpace(TrimPrefixChar(line, '#')), ';'));
            && |ln| > 5 && ToLower(ln[..5]) == "user:"
            && ParseUserComment(line).value == TrimSpace(ln[5..]) && TrimSpace(ln[5..]) != ""
  {
    hide TrimSpace, TrimPrefixChar;
    var ln := TrimSpace(TrimPrefixChar(TrimSpace(TrimPrefixChar(line, '#')), ';'));
    assert ToLower(ln)[..5] == ToLower(ln[..5]);
    if |ln| == 5 {
      assert ln[5..] == "";
      TrimFixed("");
    }
  }

  /** Reading fails for a long line exactly when one has a MiB or more; otherwise exactly when there is no
      private key. */
  lemma ParseFailsExactly(text: string)
    ensures Parse(text) == Err(LineTooLong) <==> exists l :: l in Split(text, '\n') && ByteLength(l) >= 1_048_576
    ensures Parse(text) == Err(MissingPrivateKey) <==>
            && (forall l :: l in Split(text, '\n') ==> ByteLength(l) < 1_048_576)
            && TrimSpace(Scan(START, Split(text, '\n')).intf.privateKey) == ""
  {
    hide ByteLength, Scan, TrimSpace, Split, Scannable, Flushed;
    ScannableExactly(Split(text, '\n'));
  }

  lemma ScannableExactly(lines: seq<string>)
    ensures Scannable(lines) <==> forall l :: l in lines ==> ByteLength(l) < 1_048_576
    ensures !Scannable(lines) <==> exists l :: l in lines && ByteLength(l) >= 1_048_576
  {
    hide ByteLength;
    if Scannable(lines) {
      forall l | l in lines ensures ByteLength(l) < 1_048_576 {
        var i :| 0 <= i < |lines| && lines[i] == l;
      }
    } else {
      var i :| 0 <= i < |lines| && ByteLength(lines[i]) >= MAX_LINE;
      assert lines[i] in lines;
    }
  }

  /** A line that begins with a sharp or a semicolon sets nothing, whatever else it holds; at most it names
      the user of the next peer. */
  lemma CommentLine(st: State, raw: string)
    requires TrimSpace(raw) != "" && (TrimSpace(raw)[0] == '#' || TrimSpace(raw)[0] == ';')
    ensures var named := ParseUserComment(TrimSpace(raw));
            Step(st, raw) == st.(pending := match named case Some(u) => u case None => st.pending)
  {
    hide TrimSpace, ParseUserComment;
  }

  /** A header closes the open peer; one named "peer" in any letter case opens another. */
  lemma HeaderLine(st: State, raw: string)
    requires var line := TrimSpace(raw); |line| >= 2 && line[0] == '[' && line[|line| - 1] == ']'
    ensures var name := ToLower(TrimSpace(TrimSpace(raw)[1..|TrimSpace(raw)| - 1]));
            var closed := if st.cur.Some? then st.peers + [st.cur.value] else st.peers;
            Step(st, raw) ==
            if name == "peer"
            then State(st.intf, closed, "peer", "", Some(Peer(TrimSpace(st.pending), "", "", "", "", map[])))
            else State(st.intf, closed, name, st.pending, None)
  {
    hide TrimSpace, ToLower, ParseUserComment;
  }
}
