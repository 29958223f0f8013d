/** What is written is read back: parsing the generated configuration gives the stored settings
    and users, and writing the parsed result again gives the same file. */
module WgQuickRoundTrip {
  import opened Text
  import opened Lines
  import opened WgQuickParse
  import opened WgQuickWrite

  /* ---------- steps of the parser on the written lines ---------- */

  lemma StepBlank(st: State)
    ensures Step(st, "") == st
  {
  }

  lemma ScanOne(st: State, l: string)
    ensures Scan(st, [l]) == Step(st, l)
  {
    hide Step;
    assert [l][1..] == [];
  }

  lemma ScanThree(st: State, a: string, b: string, c: string)
    ensures Scan(st, [a, b]) == Step(Step(st, a), b)
    ensures Scan(st, [a, b, c]) == Step(Step(Step(st, a), b), c)
  {
    hide Step;
    assert [a, b][1..] == [b] && [a, b, c][1..] == [b, c];
    ScanOne(Step(st, a), b);
    assert [b, c][1..] == [c];
    ScanOne(Step(Step(st, a), b), c);
  }

  /** Trimming keeps a first character that is not white space. */
  lemma TrimKeepsFirst(s: string)
    requires s != "" && !IsSpace(s[0])
    ensures TrimSpace(s) != "" && TrimSpace(s)[0] == s[0]
  {
    TrimRightShape(s);
    assert TrimLeft(s) == s;
    var k := |TrimRight(s)|;
    forall i | k <= i < |s| ensures IsSpace(s[i]) { assert s[k..][i - k] == s[i]; }
  }

  /** A `# ` comment whose text starts with anything but u, U or ; names no user. */
  lemma OtherComment(st: State, raw: string)
    requires |raw| > 2 && raw[0] == '#' && raw[1] == ' ' && !IsSpace(raw[2])
    requires LowerChar(raw[2]) != 'u' && raw[2] != ';'
    ensures Step(st, raw) == st
  {
    hide TrimSpace, ParseKV, Open;
    TrimKeepsFirst(raw);
    var line := TrimSpace(raw);
    TrimLineTail(raw);
    var ln := TrimSpace(line[1..]);
    TrimKeepsFirst(raw[2..]);
    TrimIsTrimmed(line[1..]);
    TrimFixed(ln);
    assert ParseUserComment(line) == None by {
      assert TrimPrefixChar(ln, ';') == ln;
      if |ln| >= |USER_PREFIX| { assert ToLower(ln)[..5][0] == LowerChar(ln[0]); }
    }
  }

  /** Trimming the line first does not change the trimmed comment text. */
  lemma TrimLineTail(raw: string)
    requires |raw| > 2 && raw[0] == '#' && raw[1] == ' ' && !IsSpace(raw[2])
    ensures TrimSpace(raw) != "" && TrimSpace(raw)[0] == '#'
    ensures TrimSpace(TrimSpace(raw)[1..]) == TrimSpace(raw[2..])
  {
    hide TrimSpace;
    var body := raw[2..];
    TrimTail(body);
    var t := TrimSpace(body);
    TrimKeepsFirst(body);
    TrimIsTrimmed(body);
    var tail := body[|t|..];
    assert raw == "" + ("# " + t) + tail;
    TrimPadded("", "# " + t, tail);
    CommentTail(t);
  }

  lemma TrimTail(body: string)
    requires body != "" && !IsSpace(body[0])
    ensures |TrimSpace(body)| <= |body| && TrimSpace(body) == body[..|TrimSpace(body)|]
            && Blank(body[|TrimSpace(body)|..])
  {
    TrimRightShape(body);
    assert TrimLeft(body) == body;
  }

  lemma CommentTail(t: string)
    requires Trimmed(t)
    ensures ("# " + t)[1..] == " " + t && TrimSpace(("# " + t)[1..]) == t
  {
    hide TrimSpace;
    assert ("# " + t)[1..] == " " + t;
    TrimPadded(" ", t, "");
    assert " " + t + "" == " " + t;
  }

  /** The text of a user comment after the `# `. */
  function UserText(name: string): string { if name == "" then "User:" else "User: " + name }

  lemma TrimUser(name: string)
    requires Trimmed(name)
    ensures TrimSpace("# User: " + name) == "# " + UserText(name) && Trimmed(UserText(name))
  {
    hide TrimSpace;
    if name == "" {
      assert "# User: " + name == "" + "# User:" + " ";
      TrimPadded("", "# User:", " ");
    } else {
      assert "# User: " + name == "" + ("# " + UserText(name)) + "";
      TrimPadded("", "# " + UserText(name), "");
    }
  }

  lemma UserTextRead(name: string)
    requires Trimmed(name)
    ensures |UserText(name)| >= 5 && UserText(name)[0] == 'U'
    ensures ToLower(UserText(name))[..5] == USER_PREFIX
    ensures TrimSpace(UserText(name)[5..]) == name
  {
    hide TrimSpace;
    var ln := UserText(name);
    assert ln[0] == 'U' && ln[1] == 's' && ln[2] == 'e' && ln[3] == 'r' && ln[4] == ':';
    if name == "" {
      assert ln[5..] == "";
      TrimFixed("");
    } else {
      assert ln[5..] == " " + name + "";
      TrimPadded(" ", name, "");
    }
  }

  lemma StepUser(st: State, name: string)
    requires Trimmed(name) && st.pending == ""
    ensures Step(st, "# User: " + name) == st.(pending := name)
  {
    hide TrimSpace, ParseKV, Open, ToLower, UserText;
    var ln := UserText(name);
    TrimUser(name);
    CommentTail(ln);
    UserTextRead(name);
    TrimFixed(ln);
    assert TrimPrefixChar("# " + ln, '#') == ("# " + ln)[1..];
    assert TrimPrefixChar(ln, ';') == ln;
  }

  lemma HeaderOf(st: State, title: string, name: string)
    requires Trimmed(title) && title != "" && ToLower(title) == name
    ensures Step(st, "[" + title + "]") == Open(st, name)
  {
    hide Open, ParseKV, ParseUserComment, TrimSpace, ToLower;
    var line := "[" + title + "]";
    TrimFixed(line);
    assert line[1..|line| - 1] == title;
    TrimFixed(title);
  }

  lemma StepHeaders(st: State)
    ensures Step(st, INTERFACE_HEADER) == Open(st, "interface")
    ensures Step(st, PEER_HEADER) == Open(st, "peer")
  {
    hide Open, Step;
    assert ToLower("Interface") == "interface";
    assert ToLower("Peer") == "peer";
    HeaderOf(st, "Interface", "interface");
    HeaderOf(st, "Peer", "peer");
    assert "[" + "Interface" + "]" == INTERFACE_HEADER;
    assert "[" + "Peer" + "]" == PEER_HEADER;
  }

  /** A key the parser takes as a key: not a comment, not a header, no `=`. */
  predicate PlainKey(key: string) {
    key != "" && Trimmed(key) && '=' !in key && key[0] != '#' && key[0] != ';' && key[0] != '['
  }

  function AfterEquals(value: string): string { if value == "" then "" else " " + value }

  lemma TrimKV(key: string, value: string)
    requires PlainKey(key) && Trimmed(value)
    ensures TrimSpace(KV(key, value)) == (key + " ") + ['='] + AfterEquals(value)
  {
    hide TrimSpace, KV, AfterEquals;
    var line := (key + " ") + ['='] + AfterEquals(value);
    var pad := if value == "" then " " else "";
    KVPadded(key, value);
    TrimPadded("", line, pad);
  }

  lemma KVPadded(key: string, value: string)
    requires PlainKey(key) && Trimmed(value)
    ensures var line := (key + " ") + ['='] + AfterEquals(value);
            KV(key, value) == "" + line + (if value == "" then " " else "") && Trimmed(line)
  {
    hide IsSpace;
    var line := (key + " ") + ['='] + AfterEquals(value);
    assert line[0] == key[0];
    if value == "" {
      assert line[|line| - 1] == '=';
      EqualsNoSpace();
    } else {
      assert line[|line| - 1] == value[|value| - 1];
    }
  }

  lemma EqualsNoSpace()
    ensures !IsSpace('=')
  {
  }

  lemma ReadKV(key: string, value: string)
    requires PlainKey(key) && Trimmed(value)
    ensures ParseKV((key + " ") + ['='] + AfterEquals(value)) == Some((ToLower(key), value))
  {
    hide TrimSpace, ToLower;
    var rest := AfterEquals(value);
    var line := (key + " ") + ['='] + rest;
    IndexOfPrefix(key + " ", '=', rest);
    assert line[..|key| + 1] == "" + key + " ";
    assert line[|key| + 2..] == rest;
    TrimPadded("", key, " ");
    TrimAfterEquals(value);
  }

  lemma TrimAfterEquals(value: string)
    requires Trimmed(value)
    ensures TrimSpace(AfterEquals(value)) == value
  {
    hide TrimSpace;
    TrimFixed("");
    TrimPadded(" ", value, "");
    assert " " + value + "" == " " + value;
  }

  lemma StepKV(st: State, key: string, value: string)
    requires PlainKey(key) && Trimmed(value)
    ensures Step(st, KV(key, value)) == Assign(st, ToLower(key), value)
  {
    hide TrimSpace, Open, ParseUserComment, Assign, ParseKV, KV, AfterEquals, ToLower;
    TrimKV(key, value);
    ReadKV(key, value);
    var line := (key + " ") + ['='] + AfterEquals(value);
    assert line[0] == key[0];
  }

  function LowerTitle(f: Field): string {
    match f
    case PrivateKey => "privatekey" case ListenPort => "listenport" case Address => "address"
    case Dns => "dns" case Mtu => "mtu" case PreUp => "preup" case PostUp => "postup"
    case PreDown => "predown" case PostDown => "postdown"
  }

  lemma TitleLower(f: Field)
    ensures ToLower(Title(f)) == LowerTitle(f)
  {
    assert |Title(f)| == |LowerTitle(f)|;
  }

  lemma TitlePlain(f: Field)
    ensures PlainKey(Title(f))
  {
  }

  lemma LowerTitleRead(f: Field)
    ensures FieldOf(LowerTitle(f)) == Some(f)
  {
    match f
    case ListenPort => assert "listenport"[0] != "privatekey"[0];
    case Mtu => assert "mtu"[0] != "dns"[0];
    case PreDown => assert "predown"[0] != "address"[0];
    case _ =>
  }

  lemma TitleRead(f: Field)
    ensures PlainKey(Title(f)) && FieldOf(ToLower(Title(f))) == Some(f)
  {
    hide Title, LowerTitle, FieldOf, PlainKey, ToLower;
    TitleLower(f);
    TitlePlain(f);
    LowerTitleRead(f);
  }

  function LowerPeerTitle(f: PeerField): string {
    match f
    case PublicKey => "publickey" case PresharedKey => "presharedkey"
    case AllowedIPs => "allowedips" case Endpoint => "endpoint"
  }

  lemma PeerTitleLower(f: PeerField)
    ensures ToLower(PeerTitle(f)) == LowerPeerTitle(f)
  {
    assert |PeerTitle(f)| == |LowerPeerTitle(f)|;
  }

  lemma PeerTitlePlain(f: PeerField)
    ensures PlainKey(PeerTitle(f)) && PeerFieldOf(LowerPeerTitle(f)) == Some(f)
  {
  }

  lemma PeerTitleRead(f: PeerField)
    ensures PlainKey(PeerTitle(f)) && PeerFieldOf(ToLower(PeerTitle(f))) == Some(f)
  {
    hide PeerTitle, LowerPeerTitle, PeerFieldOf, PlainKey, ToLower;
    PeerTitleLower(f);
    PeerTitlePlain(f);
  }

  const KEEPALIVE_KEY := "persistentkeepalive"

  lemma KeepaliveRead()
    ensures PlainKey(KEEPALIVE) && ToLower(KEEPALIVE) == KEEPALIVE_KEY && PeerFieldOf(ToLower(KEEPALIVE_KEY)) == None
  {
    hide ToLower;
    KeepaliveLower();
  }

  lemma KeepaliveLower()
    ensures ToLower(KEEPALIVE) == KEEPALIVE_KEY && ToLower(KEEPALIVE_KEY) == KEEPALIVE_KEY
  {
    assert ToLower(KEEPALIVE) == KEEPALIVE_KEY;
    LowerIdempotent(KEEPALIVE);
  }

  /** A written setting reaches its field. */
  lemma StepSetting(st: State, f: Field, value: string)
    requires st.section == "interface" && Trimmed(value)
    ensures Step(st, KV(Title(f), value)) == st.(intf := SetField(st.intf, f, value))
  {
    hide Step, ToLower, SetField, FieldOf, Title, KV;
    TitleRead(f);
    StepKV(st, Title(f), value);
    LowerIdempotent(Title(f));
  }

  lemma StepPeerField(st: State, key: string, value: string)
    requires st.section == "peer" && st.cur.Some? && PlainKey(key) && Trimmed(value)
    ensures Step(st, KV(key, value)) == st.(cur := Some(ApplyPeer(st.cur.value, ToLower(key), value)))
  {
    hide Step, ToLower, ApplyPeer, KV;
    StepKV(st, key, value);
    assert "peer" != "interface";
  }

  /* ---------- scanning the written sections ---------- */

  /** A value that stays on its line and loses nothing to trimming. */
  predicate LineSafe(v: string) { OneLine(v) && Trimmed(v) }

  predicate SafeRow(r: PeerRow) {
    && LineSafe(r.username)
    && (r.publicKey.Some? ==> LineSafe(r.publicKey.value))
    && (HasPsk(r) ==> LineSafe(r.presharedKey.value))
    && (HasAddresses(r) ==> LineSafe(r.allowedIPs.value))
  }

  predicate SafeSettings(s: Settings, isIP: string -> bool) {
    && LineSafe(s.privateKey) && s.privateKey != ""
    && 1 <= ListenPortOf(s) <= 65535
    && LineSafe(s.serverAddress)
    && (TrimSpace(s.dns) != "" ==> LineSafe(s.dns))
    && s.mtu <= MAX_INT64
  }

  lemma ScanHead(at: string)
    ensures Scan(START, HeadLines(at)) == START.(section := "interface")
  {
    hide Step, Scan;
    assert HEAD[0] == '#' && GENERATED[0] == '#' && DO_NOT_EDIT[0] == '#';
    assert HEAD[2] == 'W' && GENERATED[2] == 'G' && DO_NOT_EDIT[2] == 'D';
    OtherComment(START, HEAD);
    OtherComment(START, GENERATED + at);
    OtherComment(START, DO_NOT_EDIT);
    StepBlank(START);
    StepHeaders(START);
    ScanThree(START, HEAD, GENERATED + at, DO_NOT_EDIT);
    ScanThree(START, "", INTERFACE_HEADER, "");
    ScanConcat(START, [HEAD, GENERATED + at, DO_NOT_EDIT], ["", INTERFACE_HEADER]);
    assert HeadLines(at) == [HEAD, GENERATED + at, DO_NOT_EDIT] + ["", INTERFACE_HEADER];
  }

  lemma DecimalItoa(n: int)
    requires 0 <= n <= MAX_INT64
    ensures Trimmed(Itoa(n)) && TrimSpace(Itoa(n)) == Itoa(n) && Atoi(TrimSpace(Itoa(n))) == Some(n) && OneLine(Itoa(n))
  {
    hide TrimSpace, Atoi;
    DecimalChars(n);
    TrimFixed(Itoa(n));
    AtoiDecimal(n);
  }

  /** The settings as the parser reports them. */
  function WithSettings(i: Interface, s: Settings, isIP: string -> bool): Interface {
    i.(privateKey := s.privateKey, listenPort := ListenPortOf(s), address := AddressOf(s.serverAddress, isIP),
       dns := if TrimSpace(s.dns) != "" then s.dns else i.dns,
       mtu := if s.mtu > 0 then s.mtu else i.mtu)
  }

  lemma AddressSafe(address: string, isIP: string -> bool)
    requires LineSafe(address)
    ensures LineSafe(AddressOf(address, isIP)) && AddressOf(AddressOf(address, isIP), isIP) == AddressOf(address, isIP)
  {
    var a := AddressOf(address, isIP);
    if a != address {
      assert a[|address|] == '/';
      assert Count("", '.') == 0;
    }
  }

  lemma ScanBasics(st: State, s: Settings, isIP: string -> bool)
    requires st.section == "interface" && SafeSettings(s, isIP)
    ensures Scan(st, [KV(Title(PrivateKey), s.privateKey), KV(Title(ListenPort), Itoa(ListenPortOf(s))),
                      KV(Title(Address), AddressOf(s.serverAddress, isIP))]) ==
            st.(intf := st.intf.(privateKey := s.privateKey, listenPort := ListenPortOf(s),
                                 address := AddressOf(s.serverAddress, isIP)))
  {
    hide Step, Scan, KV, Itoa, Title, AddressOf, TrimSpace, Atoi;
    var a, port := AddressOf(s.serverAddress, isIP), ListenPortOf(s);
    AddressSafe(s.serverAddress, isIP);
    DecimalItoa(port);
    TrimFixed(s.privateKey);
    TrimFixed(a);
    var l1, l2, l3 := KV(Title(PrivateKey), s.privateKey), KV(Title(ListenPort), Itoa(port)), KV(Title(Address), a);
    var s1 := st.(intf := st.intf.(privateKey := s.privateKey));
    var s2 := s1.(intf := s1.intf.(listenPort := port));
    StepSetting(st, PrivateKey, s.privateKey);
    StepSetting(s1, ListenPort, Itoa(port));
    StepSetting(s2, Address, a);
    ScanThree(st, l1, l2, l3);
  }

  function MtuLines(s: Settings): seq<string> {
    if s.mtu > 0 then ["", MTU_HEAD, KV(Title(Mtu), Itoa(s.mtu))] else []
  }

  lemma ScanMtu(st: State, s: Settings)
    requires st.section == "interface" && s.mtu <= MAX_INT64
    ensures Scan(st, MtuLines(s)) == st.(intf := st.intf.(mtu := if s.mtu > 0 then s.mtu else st.intf.mtu))
  {
    if s.mtu > 0 {
      hide Step, Scan, KV, Itoa, Title, TrimSpace, Atoi;
      DecimalItoa(s.mtu);
      var l := KV(Title(Mtu), Itoa(s.mtu));
      StepBlank(st);
      OtherComment(st, MTU_HEAD);
      StepSetting(st, Mtu, Itoa(s.mtu));
      ScanThree(st, "", MTU_HEAD, l);
    }
  }

  lemma ScanDns(st: State, s: Settings)
    requires st.section == "interface" && (TrimSpace(s.dns) != "" ==> LineSafe(s.dns))
    ensures Scan(st, if TrimSpace(s.dns) != "" then [KV(Title(Dns), s.dns)] else []) ==
            st.(intf := st.intf.(dns := if TrimSpace(s.dns) != "" then s.dns else st.intf.dns))
  {
    if TrimSpace(s.dns) != "" {
      hide Step, KV, Title, TrimSpace;
      TrimFixed(s.dns);
      StepSetting(st, Dns, s.dns);
      ScanOne(st, KV(Title(Dns), s.dns));
    }
  }

  lemma ScanSettings(st: State, s: Settings, isIP: string -> bool)
    requires st.section == "interface" && SafeSettings(s, isIP)
    ensures Scan(st, SettingLines(s, isIP)) == st.(intf := WithSettings(st.intf, s, isIP))
  {
    hide Scan, KV, Itoa, Title, AddressOf, TrimSpace;
    var basics := [KV(Title(PrivateKey), s.privateKey), KV(Title(ListenPort), Itoa(ListenPortOf(s))),
                   KV(Title(Address), AddressOf(s.serverAddress, isIP))];
    var dns := if TrimSpace(s.dns) != "" then [KV(Title(Dns), s.dns)] else [];
    assert SettingLines(s, isIP) == basics + dns + MtuLines(s);
    ScanConcat(st, basics, dns);
    ScanConcat(st, basics + dns, MtuLines(s));
    ScanBasics(st, s, isIP);
    var s1 := Scan(st, basics);
    ScanDns(s1, s);
    ScanMtu(Scan(s1, dns), s);
  }

  /* hooks */

  /** A hook as the parser reports it: its trimmed lines that are not blank. */
  function Tidy(hook: string): string { Join(HookLines(hook), '\n') }

  predicate Solid(lines: seq<string>) {
    forall i :: 0 <= i < |lines| ==> LineSafe(lines[i]) && lines[i] != ""
  }

  lemma {:induction false} NonBlankSolid(lines: seq<string>)
    requires AllOneLine(lines)
    ensures Solid(NonBlank(lines))
  {
    hide TrimSpace;
    if lines != [] {
      var n := |lines| - 1;
      NonBlankSolid(lines[..n]);
      TrimIsTrimmed(lines[n]);
    }
  }

  lemma HookSolid(hook: string)
    ensures Solid(HookLines(hook))
  {
    SplitPieces(TrimSpace(hook), '\n');
    NonBlankSolid(Split(TrimSpace(hook), '\n'));
  }

  lemma {:induction false} JoinSolid(lines: seq<string>)
    requires Solid(lines) && lines != []
    ensures Join(lines, '\n') != "" && Trimmed(Join(lines, '\n'))
  {
    if |lines| > 1 {
      JoinSolid(lines[1..]);
    }
  }

  function SetHook(i: Interface, f: Field, hook: string): Interface
    requires f in {PreUp, PostUp, PreDown, PostDown}
  {
    match f
    case PreUp => i.(preUp := hook) case PostUp => i.(postUp := hook)
    case PreDown => i.(preDown := hook) case PostDown => i.(postDown := hook)
  }

  function GetHook(i: Interface, f: Field): string
    requires f in {PreUp, PostUp, PreDown, PostDown}
  {
    match f case PreUp => i.preUp case PostUp => i.postUp case PreDown => i.preDown case PostDown => i.postDown
  }

  lemma AppendSolid(lines: seq<string>, l: string)
    requires Solid(lines) && LineSafe(l) && l != ""
    ensures AppendHookLine(Join(lines, '\n'), l) == Join(lines + [l], '\n')
  {
    hide TrimSpace, Join;
    TrimFixed(l);
    if lines == [] {
      assert lines + [l] == [l];
      JoinFew(l);
      TrimFixed("");
    } else {
      JoinSolid(lines);
      TrimFixed(Join(lines, '\n'));
      JoinSnoc(lines, '\n', l);
    }
  }

  lemma JoinFew(l: string)
    ensures Join([], '\n') == "" && Join([l], '\n') == l
  {
  }

  lemma SetHookLine(i: Interface, f: Field, v: string)
    requires f in {PreUp, PostUp, PreDown, PostDown}
    ensures SetField(i, f, v) == SetHook(i, f, AppendHookLine(GetHook(i, f), v))
  {
    hide AppendHookLine;
  }

  lemma ScanNoHook(st: State, f: Field)
    requires f in {PreUp, PostUp, PreDown, PostDown} && GetHook(st.intf, f) == ""
    ensures Scan(st, KVs(Title(f), [])) == st.(intf := SetHook(st.intf, f, Join([], '\n')))
  {
    hide Step, Title;
  }

  lemma {:induction false} ScanHook(st: State, f: Field, lines: seq<string>)
    requires f in {PreUp, PostUp, PreDown, PostDown}
    requires st.section == "interface" && GetHook(st.intf, f) == "" && Solid(lines)
    ensures Scan(st, KVs(Title(f), lines)) == st.(intf := SetHook(st.intf, f, Join(lines, '\n')))
  {
    hide Scan, Step, Join, Title, KV, SetField, AppendHookLine, KVs, LineSafe, SetHook, GetHook;
    if lines == [] {
      ScanNoHook(st, f);
    } else {
      var n := |lines| - 1;
      var init, l := lines[..n], lines[n];
      ScanHook(st, f, init);
      var mid := st.(intf := SetHook(st.intf, f, Join(init, '\n')));
      assert init + [l] == lines;
      ScanHookSnoc(st, f, init, l);
      SetTwice(st.intf, f, Join(init, '\n'), Join(lines, '\n'));
      HookLineStep(mid, f, init, l);
    }
  }

  lemma ScanHookSnoc(st: State, f: Field, init: seq<string>, l: string)
    ensures Scan(st, KVs(Title(f), init + [l])) == Step(Scan(st, KVs(Title(f), init)), KV(Title(f), l))
  {
    hide Scan, Step, Title, KV, KVs;
    KVsSnoc(Title(f), init, l);
    ScanConcat(st, KVs(Title(f), init), [KV(Title(f), l)]);
    ScanOne(Scan(st, KVs(Title(f), init)), KV(Title(f), l));
  }

  lemma HookLineStep(mid: State, f: Field, init: seq<string>, l: string)
    requires f in {PreUp, PostUp, PreDown, PostDown}
    requires mid.section == "interface" && GetHook(mid.intf, f) == Join(init, '\n')
    requires Solid(init) && LineSafe(l) && l != ""
    ensures Step(mid, KV(Title(f), l)) == mid.(intf := SetHook(mid.intf, f, Join(init + [l], '\n')))
  {
    hide Step, Join, Title, KV, SetField, AppendHookLine;
    StepSetting(mid, f, l);
    SetHookLine(mid.intf, f, l);
    AppendSolid(init, l);
  }

  lemma SetTwice(i: Interface, f: Field, a: string, b: string)
    requires f in {PreUp, PostUp, PreDown, PostDown}
    ensures SetHook(SetHook(i, f, a), f, b) == SetHook(i, f, b) && GetHook(SetHook(i, f, a), f) == a
  {
  }

  /** The hooks as the parser reports them. */
  function WithHooks(i: Interface, s: Settings): Interface {
    i.(preUp := Tidy(s.preUp), postUp := Tidy(s.postUp), preDown := Tidy(s.preDown), postDown := Tidy(s.postDown))
  }

  lemma ScanHooks(st: State, s: Settings)
    requires st.section == "interface"
    requires st.intf.preUp == st.intf.postUp == st.intf.preDown == st.intf.postDown == ""
    ensures Scan(st, HookPart(s)) == st.(intf := WithHooks(st.intf, s))
  {
    hide Scan, Join, Title, KVs, HookLines, Solid;
    HookSolid(s.preUp);
    HookSolid(s.postUp);
    HookSolid(s.preDown);
    HookSolid(s.postDown);
    var k1, k2 := KVs(Title(PreUp), HookLines(s.preUp)), KVs(Title(PostUp), HookLines(s.postUp));
    var k3, k4 := KVs(Title(PreDown), HookLines(s.preDown)), KVs(Title(PostDown), HookLines(s.postDown));
    ScanConcat(st, k1, k2);
    ScanConcat(st, k1 + k2, k3);
    ScanConcat(st, k1 + k2 + k3, k4);
    ScanHook(st, PreUp, HookLines(s.preUp));
    var s1 := Scan(st, k1);
    ScanHook(s1, PostUp, HookLines(s.postUp));
    var s2 := Scan(s1, k2);
    ScanHook(s2, PreDown, HookLines(s.preDown));
    ScanHook(Scan(s2, k3), PostDown, HookLines(s.postDown));
  }

  /* peers */

  /** A row as the parser reports it. */
  function PeerOf(r: PeerRow, keepalive: int): Peer
    requires Selected(r) && HasAddresses(r)
  {
    Peer(r.username, r.publicKey.value, if HasPsk(r) then r.presharedKey.value else "", r.allowedIPs.value, "",
         if keepalive > 0 then map[KEEPALIVE_KEY := Itoa(keepalive)] else map[])
  }

  lemma OpenPeer(st: State, name: string)
    requires st.pending == "" && Trimmed(name)
    ensures Scan(st, ["# User: " + name, PEER_HEADER]) ==
            st.(peers := Flushed(st), cur := Some(NewPeer(name)), section := "peer")
  {
    hide Scan, Step, TrimSpace;
    var named := st.(pending := name);
    StepUser(st, name);
    StepHeaders(named);
    TrimFixed(name);
    ScanThree(st, "# User: " + name, PEER_HEADER, "");
  }

  lemma ScanPeer(st: State, r: PeerRow, keepalive: int)
    requires Selected(r) && HasAddresses(r) && SafeRow(r) && st.pending == "" && keepalive <= MAX_INT64
    ensures Scan(st, PeerLines(r, keepalive)) ==
            st.(peers := Flushed(st), cur := Some(PeerOf(r, keepalive)), section := "peer")
  {
    hide Scan, Step, TrimSpace, KV, Itoa, PeerTitle;
    var open := ["# User: " + r.username, PEER_HEADER];
    var keys := [KV(PeerTitle(PublicKey), r.publicKey.value)]
      + (if HasPsk(r) then [KV(PeerTitle(PresharedKey), r.presharedKey.value)] else []);
    var rest := [KV(PeerTitle(AllowedIPs), r.allowedIPs.value)]
      + (if keepalive > 0 then [KV(KEEPALIVE, Itoa(keepalive))] else []);
    assert PeerLines(r, keepalive) == open + keys + rest + [""];
    var s1 := st.(peers := Flushed(st), cur := Some(NewPeer(r.username)), section := "peer");
    OpenPeer(st, r.username);
    ScanConcat(st, open, keys);
    ScanKeys(s1, r);
    var s2 := Scan(s1, keys);
    ScanConcat(st, open + keys, rest);
    ScanAddresses(s2, r, keepalive);
    ScanConcat(st, open + keys + rest, [""]);
    ScanOne(Scan(s2, rest), "");
    StepBlank(Scan(s2, rest));
  }

  lemma PeerFieldSet(p: Peer, f: PeerField, v: string)
    requires Trimmed(v)
    ensures ApplyPeer(p, ToLower(PeerTitle(f)), v) ==
            match f
            case PublicKey => p.(publicKey := v)
            case PresharedKey => p.(presharedKey := v)
            case AllowedIPs => p.(allowedIPs := v)
            case Endpoint => p.(endpoint := v)
  {
    hide ToLower, TrimSpace, PeerTitle, PeerFieldOf;
    LowerIdempotent(PeerTitle(f));
    PeerTitleRead(f);
    TrimFixed(v);
  }

  lemma ScanKeys(st: State, r: PeerRow)
    requires Selected(r) && SafeRow(r) && st.section == "peer" && st.cur.Some?
    ensures Scan(st, [KV(PeerTitle(PublicKey), r.publicKey.value)]
                     + (if HasPsk(r) then [KV(PeerTitle(PresharedKey), r.presharedKey.value)] else [])) ==
            st.(cur := Some(st.cur.value.(publicKey := r.publicKey.value,
                  presharedKey := if HasPsk(r) then r.presharedKey.value else st.cur.value.presharedKey)))
  {
    hide Scan, Step, TrimSpace, KV, PeerTitle, ToLower, ApplyPeer;
    var l1 := KV(PeerTitle(PublicKey), r.publicKey.value);
    PeerTitleRead(PublicKey);
    PeerTitleRead(PresharedKey);
    StepPeerField(st, PeerTitle(PublicKey), r.publicKey.value);
    PeerFieldSet(st.cur.value, PublicKey, r.publicKey.value);
    var s1 := Step(st, l1);
    ScanOne(st, l1);
    if HasPsk(r) {
      var l2 := KV(PeerTitle(PresharedKey), r.presharedKey.value);
      StepPeerField(s1, PeerTitle(PresharedKey), r.presharedKey.value);
      PeerFieldSet(s1.cur.value, PresharedKey, r.presharedKey.value);
      ScanConcat(st, [l1], [l2]);
      ScanOne(s1, l2);
    } else {
      assert [l1] + [] == [l1];
    }
  }

  lemma KeepaliveSet(p: Peer, v: string)
    ensures ApplyPeer(p, ToLower(KEEPALIVE), v) == p.(other := p.other[KEEPALIVE_KEY := v])
  {
    hide ToLower, PeerFieldOf;
    KeepaliveRead();
  }

  lemma ScanAddresses(st: State, r: PeerRow, keepalive: int)
    requires HasAddresses(r) && SafeRow(r) && st.section == "peer" && st.cur.Some? && keepalive <= MAX_INT64
    ensures Scan(st, [KV(PeerTitle(AllowedIPs), r.allowedIPs.value)]
                     + (if keepalive > 0 then [KV(KEEPALIVE, Itoa(keepalive))] else [])) ==
            st.(cur := Some(st.cur.value.(allowedIPs := r.allowedIPs.value,
                  other := if keepalive > 0 then st.cur.value.other[KEEPALIVE_KEY := Itoa(keepalive)]
                           else st.cur.value.other)))
  {
    hide Scan, Step, TrimSpace, KV, PeerTitle, ToLower, ApplyPeer, Itoa;
    var l1 := KV(PeerTitle(AllowedIPs), r.allowedIPs.value);
    PeerTitleRead(AllowedIPs);
    StepPeerField(st, PeerTitle(AllowedIPs), r.allowedIPs.value);
    PeerFieldSet(st.cur.value, AllowedIPs, r.allowedIPs.value);
    var s1 := Step(st, l1);
    ScanOne(st, l1);
    if keepalive > 0 {
      var l2 := KV(KEEPALIVE, Itoa(keepalive));
      KeepaliveRead();
      DecimalItoa(keepalive);
      StepPeerField(s1, KEEPALIVE, Itoa(keepalive));
      KeepaliveSet(s1.cur.value, Itoa(keepalive));
      ScanConcat(st, [l1], [l2]);
      ScanOne(s1, l2);
    } else {
      assert [l1] + [] == [l1];
    }
  }

  /** The rows written, in order, as the parser reports them. */
  function PeersOf(rows: seq<PeerRow>, keepalive: int): seq<Peer>
    requires forall r :: r in rows ==> Selected(r)
  {
    if rows == [] then []
    else
      var last := rows[|rows| - 1];
      PeersOf(rows[..|rows| - 1], keepalive) + if HasAddresses(last) then [PeerOf(last, keepalive)] else []
  }

  lemma {:induction false} ScanPeers(st: State, rows: seq<PeerRow>, keepalive: int)
    requires forall r :: r in rows ==> Selected(r) && SafeRow(r)
    requires st.pending == "" && st.cur.None? && keepalive <= MAX_INT64
    ensures var t := Scan(st, PeerPart(rows, keepalive));
            && Flushed(t) == st.peers + PeersOf(rows, keepalive)
            && t.intf == st.intf && t.pending == ""
  {
    hide Scan, PeerLines, PeerOf, HasAddresses, SafeRow, Selected;
    if rows == [] {
      ScanNothing(st);
      assert st.peers + [] == st.peers;
    } else {
      var n := |rows| - 1;
      ScanPeers(st, rows[..n], keepalive);
      var mid := Scan(st, PeerPart(rows[..n], keepalive));
      if HasAddresses(rows[n]) {
        ScanConcat(st, PeerPart(rows[..n], keepalive), PeerLines(rows[n], keepalive));
        ScanPeer(mid, rows[n], keepalive);
      } else {
        assert PeerPart(rows[..n], keepalive) + [] == PeerPart(rows[..n], keepalive);
        assert PeersOf(rows[..n], keepalive) + [] == PeersOf(rows[..n], keepalive);
      }
    }
  }

  lemma ScanNothing(st: State)
    ensures Scan(st, []) == st
  {
  }

  /* ---------- the round trip ---------- */

  lemma {:induction false} KVsOneLine(key: string, values: seq<string>)
    requires OneLine(key) && Solid(values)
    ensures AllOneLine(KVs(key, values))
  {
    if values != [] {
      KVsOneLine(key, values[..|values| - 1]);
    }
  }

  lemma TitlesOneLine(f: Field, g: PeerField)
    ensures OneLine(Title(f)) && OneLine(PeerTitle(g)) && OneLine(KEEPALIVE)
  {
  }

  lemma HooksOneLine(s: Settings)
    ensures AllOneLine(HookPart(s))
  {
    hide Title, HookLines, KVs, Solid;
    forall f: Field ensures OneLine(Title(f)) { TitlesOneLine(f, PublicKey); }
    HookSolid(s.preUp);
    HookSolid(s.postUp);
    HookSolid(s.preDown);
    HookSolid(s.postDown);
    KVsOneLine(Title(PreUp), HookLines(s.preUp));
    KVsOneLine(Title(PostUp), HookLines(s.postUp));
    KVsOneLine(Title(PreDown), HookLines(s.preDown));
    KVsOneLine(Title(PostDown), HookLines(s.postDown));
  }

  lemma ItoaOneLine(n: int)
    requires n >= 0
    ensures OneLine(Itoa(n))
  {
    DecimalChars(n);
  }

  lemma KVOneLine(key: string, value: string)
    requires OneLine(key) && OneLine(value)
    ensures OneLine(KV(key, value))
  {
  }

  lemma SettingsOneLine(s: Settings, isIP: string -> bool)
    requires SafeSettings(s, isIP)
    ensures AllOneLine(SettingLines(s, isIP))
  {
    hide Title, Itoa, AddressOf, TrimSpace, KV;
    forall f: Field ensures OneLine(Title(f)) { TitlesOneLine(f, PublicKey); }
    AddressSafe(s.serverAddress, isIP);
    ItoaOneLine(ListenPortOf(s));
    KVOneLine(Title(PrivateKey), s.privateKey);
    KVOneLine(Title(ListenPort), Itoa(ListenPortOf(s)));
    KVOneLine(Title(Address), AddressOf(s.serverAddress, isIP));
    if TrimSpace(s.dns) != "" { KVOneLine(Title(Dns), s.dns); }
    if s.mtu > 0 {
      ItoaOneLine(s.mtu);
      KVOneLine(Title(Mtu), Itoa(s.mtu));
    }
    assert OneLine(MTU_HEAD);
  }

  lemma PeerOneLine(r: PeerRow, keepalive: int)
    requires Selected(r) && HasAddresses(r) && SafeRow(r)
    ensures AllOneLine(PeerLines(r, keepalive))
  {
    hide PeerTitle, Itoa, TrimSpace, KV;
    forall g: PeerField ensures OneLine(PeerTitle(g)) && OneLine(KEEPALIVE) { TitlesOneLine(PreUp, g); }
    KVOneLine(PeerTitle(PublicKey), r.publicKey.value);
    if HasPsk(r) { KVOneLine(PeerTitle(PresharedKey), r.presharedKey.value); }
    KVOneLine(PeerTitle(AllowedIPs), r.allowedIPs.value);
    if keepalive > 0 {
      ItoaOneLine(keepalive);
      KVOneLine(KEEPALIVE, Itoa(keepalive));
    }
    assert OneLine("# User: " + r.username) && OneLine(PEER_HEADER);
  }

  lemma {:induction false} PeersOneLine(rows: seq<PeerRow>, keepalive: int)
    requires forall r :: r in rows ==> Selected(r) && SafeRow(r)
    ensures AllOneLine(PeerPart(rows, keepalive))
  {
    hide PeerLines, HasAddresses, SafeRow, Selected, OneLine;
    if rows != [] {
      var n := |rows| - 1;
      PeersOneLine(rows[..n], keepalive);
      if HasAddresses(rows[n]) { PeerOneLine(rows[n], keepalive); }
    }
  }

  lemma HeadOneLine(at: string)
    requires OneLine(at)
    ensures AllOneLine(HeadLines(at)) && AllOneLine(PeersHead())
  {
    ConstantsOneLine();
    hide OneLine;
    assert OneLine(GENERATED + at) by { JoinedOneLine(GENERATED, at); }
  }

  lemma JoinedOneLine(a: string, b: string)
    requires OneLine(a) && OneLine(b)
    ensures OneLine(a + b)
  {
  }

  lemma ConstantsOneLine()
    ensures OneLine(HEAD) && OneLine(DO_NOT_EDIT) && OneLine(PEERS_HEAD)
    ensures OneLine(GENERATED) && OneLine(INTERFACE_HEADER) && OneLine("")
  {
    HeadConstants();
    CommentConstants();
    PeersHeadOneLine();
  }

  lemma HeadConstants()
    ensures OneLine(HEAD) && OneLine(GENERATED) && OneLine(INTERFACE_HEADER)
  {
  }

  lemma PeersHeadOneLine()
    ensures OneLine(PEERS_HEAD)
  {
  }

  lemma CommentConstants()
    ensures OneLine(DO_NOT_EDIT)
  {
    assert OneLine("# DO NOT EDIT") && OneLine(" MANUALLY - This file is auto-generated");
  }

  lemma ConcatOneLine(a: seq<string>, b: seq<string>)
    requires AllOneLine(a) && AllOneLine(b)
    ensures AllOneLine(a + b)
  {
  }

  predicate SafeRows(rows: seq<PeerRow>) {
    forall r :: r in rows && Selected(r) ==> SafeRow(r)
  }

  lemma ChosenSafe(rows: seq<PeerRow>)
    requires SafeRows(rows)
    ensures forall r :: r in Chosen(rows) <==> r in rows && Selected(r)
    ensures forall r :: r in Chosen(rows) ==> Selected(r) && SafeRow(r)
  {
    hide SafeRow;
    FilterMembers(rows, Selected);
    SortMembers(Filter(rows, Selected));
  }

  lemma ConfigOneLine(s: Settings, rows: seq<PeerRow>, at: string, isIP: string -> bool)
    requires SafeSettings(s, isIP) && SafeRows(rows) && OneLine(at)
    ensures AllOneLine(ConfigLines(s, rows, at, isIP))
  {
    hide HeadLines, SettingLines, HookPart, PeersHead, PeerPart, Chosen, SafeRow, SafeSettings, Selected, AllOneLine;
    ChosenSafe(rows);
    HeadOneLine(at);
    SettingsOneLine(s, isIP);
    HooksOneLine(s);
    PeersOneLine(Chosen(rows), s.keepalive);
    ConcatOneLine(HeadLines(at), SettingLines(s, isIP));
    ConcatOneLine(HeadLines(at) + SettingLines(s, isIP), HookPart(s));
    ConcatOneLine(HeadLines(at) + SettingLines(s, isIP) + HookPart(s), PeersHead());
    ConcatOneLine(HeadLines(at) + SettingLines(s, isIP) + HookPart(s) + PeersHead(),
                  PeerPart(Chosen(rows), s.keepalive));
  }

  lemma ScanPeersHead(st: State)
    ensures Scan(st, PeersHead()) == st
  {
    hide Scan, Step;
    assert PEERS_HEAD[0] == '#' && PEERS_HEAD[1] == ' ' && PEERS_HEAD[2] == '=';
    StepBlank(st);
    OtherComment(st, PEERS_HEAD);
    ScanThree(st, "", PEERS_HEAD, "");
  }

  /** The configuration the parser should report. */
  function Expected(s: Settings, rows: seq<PeerRow>, isIP: string -> bool): Config {
    Config(WithHooks(WithSettings(EMPTY_INTERFACE, s, isIP), s), PeersOf(Chosen(rows), s.keepalive))
  }

  lemma ScanConfig(s: Settings, rows: seq<PeerRow>, at: string, isIP: string -> bool)
    requires SafeSettings(s, isIP) && SafeRows(rows) && s.keepalive <= MAX_INT64
    ensures var t := Scan(START, ConfigLines(s, rows, at, isIP));
            t.intf == Expected(s, rows, isIP).intf && Flushed(t) == Expected(s, rows, isIP).peers
  {
    hide Scan, HeadLines, SettingLines, HookPart, PeersHead, PeerPart, Chosen, SafeRow, Selected, TrimSpace, AddressOf,
         Tidy, PeersOf;
    ChosenSafe(rows);
    ScanHead(at);
    var s1 := START.(section := "interface");
    ScanSettings(s1, s, isIP);
    var s2 := s1.(intf := WithSettings(EMPTY_INTERFACE, s, isIP));
    ScanHooks(s2, s);
    var s3 := s2.(intf := WithHooks(s2.intf, s));
    ScanPeersHead(s3);
    ScanPeers(s3, Chosen(rows), s.keepalive);
    ScanConcat(START, HeadLines(at), SettingLines(s, isIP));
    ScanConcat(START, HeadLines(at) + SettingLines(s, isIP), HookPart(s));
    ScanConcat(START, HeadLines(at) + SettingLines(s, isIP) + HookPart(s), PeersHead());
    ScanConcat(START, HeadLines(at) + SettingLines(s, isIP) + HookPart(s) + PeersHead(),
               PeerPart(Chosen(rows), s.keepalive));
    assert s3.peers + PeersOf(Chosen(rows), s.keepalive) == PeersOf(Chosen(rows), s.keepalive);
  }

  /** Print then parse: for values that stay on their line, a private key and a valid port, the
      parser gives back the settings (hooks as their tidy lines) and exactly the written rows,
      unless a line is too long for its scanner. */
  lemma PrintThenParse(s: Settings, rows: seq<PeerRow>, at: string, isIP: string -> bool)
    requires SafeSettings(s, isIP) && SafeRows(rows) && OneLine(at) && s.keepalive <= MAX_INT64
    ensures Parse(ConfigText(s, rows, at, isIP)) ==
            if Scannable(ConfigLines(s, rows, at, isIP)) then Ok(Expected(s, rows, isIP)) else Err(LineTooLong)
  {
    hide ByteLength, Scan, Split, ConfigLines, ConfigText, Unlines, TrimSpace, PeersOf, WithHooks, AddressOf, Chosen;
    var lines := ConfigLines(s, rows, at, isIP);
    TextIsLines(s, rows, at, isIP);
    ConfigOneLine(s, rows, at, isIP);
    SplitUnlines(lines);
    BlankScannable(lines);
    ScanConcat(START, lines, [""]);
    ScanConfig(s, rows, at, isIP);
    ScanOne(Scan(START, lines), "");
    StepBlank(Scan(START, lines));
    ExpectedKey(s, rows, isIP);
    TrimFixed(s.privateKey);
  }

  lemma BlankScannable(lines: seq<string>)
    ensures Scannable(lines + [""]) <==> Scannable(lines)
  {
    hide ByteLength;
    NoBytes();
    var more := lines + [""];
    assert forall i :: 0 <= i < |lines| ==> more[i] == lines[i];
  }

  lemma NoBytes()
    ensures ByteLength("") == 0
  {
  }

  lemma ExpectedKey(s: Settings, rows: seq<PeerRow>, isIP: string -> bool)
    ensures Expected(s, rows, isIP).intf.privateKey == s.privateKey
  {
    hide TrimSpace, PeersOf, Tidy, AddressOf, Chosen;
  }

  /* ---------- which peers, in which order ---------- */

  predicate DistinctNames(rows: seq<PeerRow>) {
    forall i, j :: 0 <= i < j < |rows| ==> rows[i].username != rows[j].username
  }

  predicate AscendingRows(rows: seq<PeerRow>) {
    forall i, j :: 0 <= i < j < |rows| ==> Less(rows[i].username, rows[j].username)
  }

  lemma {:induction false} InsertAscending(r: PeerRow, sorted: seq<PeerRow>)
    requires AscendingRows(sorted) && forall x :: x in sorted ==> x.username != r.username
    ensures AscendingRows(InsertRow(r, sorted))
  {
    if sorted != [] {
      if Less(r.username, sorted[0].username) {
        forall j | 0 < j < |sorted| ensures Less(r.username, sorted[j].username) {
          LessTransitive(r.username, sorted[0].username, sorted[j].username);
        }
      } else {
        LessTotal(r.username, sorted[0].username);
        InsertAscending(r, sorted[1..]);
        InsertMembers(r, sorted[1..]);
        var t := InsertRow(r, sorted[1..]);
        forall j | 0 <= j < |t| ensures Less(sorted[0].username, t[j].username) {
          assert t[j] in t;
          if t[j] != r {
            var k :| 0 <= k < |sorted[1..]| && sorted[1..][k] == t[j];
          }
        }
      }
    }
  }

  lemma {:induction false} SortAscending(rows: seq<PeerRow>)
    requires DistinctNames(rows)
    ensures AscendingRows(SortRows(rows))
  {
    if rows != [] {
      var n := |rows| - 1;
      SortAscending(rows[..n]);
      SortMembers(rows[..n]);
      InsertAscending(rows[n], SortRows(rows[..n]));
    }
  }

  lemma {:induction false} FilterDistinct(rows: seq<PeerRow>, keep: PeerRow -> bool)
    requires DistinctNames(rows)
    ensures DistinctNames(Filter(rows, keep))
  {
    if rows != [] {
      var n := |rows| - 1;
      FilterDistinct(rows[..n], keep);
      FilterMembers(rows[..n], keep);
      var init := Filter(rows[..n], keep);
      forall i | 0 <= i < |init| ensures init[i].username != rows[n].username {
        assert init[i] in rows[..n];
      }
    }
  }

  lemma ChosenAscending(rows: seq<PeerRow>)
    requires DistinctNames(rows)
    ensures AscendingRows(Chosen(rows))
  {
    FilterDistinct(rows, Selected);
    SortAscending(Filter(rows, Selected));
  }

  lemma {:induction false} PeersAscending(rows: seq<PeerRow>, keepalive: int)
    requires AscendingRows(rows) && forall r :: r in rows ==> Selected(r)
    ensures Ascending(Usernames(PeersOf(rows, keepalive)))
    ensures forall p :: p in PeersOf(rows, keepalive) <==>
              exists r :: r in rows && HasAddresses(r) && p == PeerOf(r, keepalive)
  {
    hide HasAddresses, Selected, Less;
    if rows != [] {
      var n := |rows| - 1;
      var init := rows[..n];
      PeersAscending(init, keepalive);
      var before := PeersOf(init, keepalive);
      assert rows == init + [rows[n]];
      if HasAddresses(rows[n]) {
        forall i | 0 <= i < |before| ensures Less(before[i].username, rows[n].username) {
          assert before[i] in before;
          var r :| r in init && HasAddresses(r) && before[i] == PeerOf(r, keepalive);
          var k :| 0 <= k < |init| && init[k] == r;
        }
        var p := PeerOf(rows[n], keepalive);
        assert Usernames(before + [p]) == Usernames(before) + [p.username];
      } else {
        assert before + [] == before;
      }
    }
  }

  /** The peer is reported for this row: a user of this server that is enabled, with a key and addresses. */
  predicate Reports(p: Peer, r: PeerRow, keepalive: int) {
    && r.wireguard && r.isEnabled == 1
    && r.publicKey == Some(p.publicKey) && p.publicKey != ""
    && r.allowedIPs == Some(p.allowedIPs) && TrimSpace(p.allowedIPs) != ""
    && p.username == r.username
    && p.presharedKey == (match r.presharedKey case Some(k) => if TrimSpace(k) == "" then "" else k case None => "")
    && p.endpoint == ""
    && p.other == if keepalive > 0 then map["persistentkeepalive" := Itoa(keepalive)] else map[]
  }

  lemma ReportedOf(p: Peer, r: PeerRow, keepalive: int)
    ensures Reports(p, r, keepalive) <==> Selected(r) && HasAddresses(r) && p == PeerOf(r, keepalive)
  {
    hide TrimSpace, Itoa;
  }

  /** The peers reported are exactly the enabled users of this server with a key and addresses, each with
      its own columns, in username order. */
  lemma ExactlyTheEnabledUsers(s: Settings, rows: seq<PeerRow>, isIP: string -> bool)
    requires DistinctNames(rows)
    ensures Ascending(Usernames(Expected(s, rows, isIP).peers))
    ensures forall p :: p in Expected(s, rows, isIP).peers <==> exists r :: r in rows && Reports(p, r, s.keepalive)
  {
    hide HasAddresses, WithHooks, WithSettings, Less, Selected, Reports, PeerOf;
    ReportedPeers(s, rows, isIP);
    forall p ensures p in Expected(s, rows, isIP).peers <==> exists r :: r in rows && Reports(p, r, s.keepalive) {
      forall r ensures Reports(p, r, s.keepalive) <==> Selected(r) && HasAddresses(r) && p == PeerOf(r, s.keepalive) {
        ReportedOf(p, r, s.keepalive);
      }
    }
  }

  lemma ReportedPeers(s: Settings, rows: seq<PeerRow>, isIP: string -> bool)
    requires DistinctNames(rows)
    ensures Ascending(Usernames(Expected(s, rows, isIP).peers))
    ensures forall p :: p in Expected(s, rows, isIP).peers <==>
              exists r :: r in rows && Selected(r) && HasAddresses(r) && p == PeerOf(r, s.keepalive)
  {
    hide HasAddresses, WithHooks, WithSettings, Less;
    ChosenAscending(rows);
    ChosenMembers(rows);
    PeersAscending(Chosen(rows), s.keepalive);
  }

  /** The interface reported: key and DNS as stored, the server's port or else the configured one, the
      address with "/24" when it is a bare one with three dots, and no MTU unless it is positive. */
  lemma ReportedInterface(s: Settings, rows: seq<PeerRow>, isIP: string -> bool)
    ensures var i := Expected(s, rows, isIP).intf;
            && i.privateKey == s.privateKey
            && i.listenPort == (if s.serverPort != 0 then s.serverPort else s.configPort)
            && i.address == (if '/' !in s.serverAddress && isIP(s.serverAddress) && |Split(s.serverAddress, '.')| == 4
                             then s.serverAddress + "/24" else s.serverAddress)
            && i.dns == (if TrimSpace(s.dns) == "" then "" else s.dns)
            && i.mtu == (if s.mtu > 0 then s.mtu else 0)
            && i.other == map[]
  {
    hide TrimSpace, Tidy, Split, PeersOf, Chosen, Count;
    DotsAndPieces(s.serverAddress, '.');
  }

  lemma {:induction false} DotsAndPieces(s: string, c: char)
    ensures |Split(s, c)| == Count(s, c) + 1
    decreases |s|
  {
    var k := IndexOf(s, c);
    if k < 0 {
      CountNone(s, c);
    } else {
      DotsAndPieces(s[k + 1..], c);
      CountFirst(s, k, c);
    }
  }

  lemma {:induction false} CountNone(s: string, c: char)
    requires c !in s
    ensures Count(s, c) == 0
  {
    if s != "" { CountNone(s[1..], c); }
  }

  lemma {:induction false} CountFirst(s: string, k: nat, c: char)
    requires k < |s| && s[k] == c && c !in s[..k]
    ensures Count(s, c) == 1 + Count(s[k + 1..], c)
  {
    if k > 0 {
      assert s[..k][0] == s[0] && s[1..][..k - 1] == s[..k][1..];
      CountFirst(s[1..], k - 1, c);
      assert s[1..][k..] == s[k + 1..];
    }
  }

  /** Which lines these are: the trimmed lines at ascending places, blank ones and no others left out. */
  ghost predicate Picked(out: seq<string>, lines: seq<string>, at: seq<nat>) {
    && |at| == |out|
    && (forall i, j :: 0 <= i < j < |at| ==> at[i] < at[j])
    && (forall i :: 0 <= i < |at| ==> at[i] < |lines| && out[i] == TrimSpace(lines[at[i]]) && out[i] != "")
    && (forall j :: 0 <= j < |lines| && TrimSpace(lines[j]) != "" ==> j in at)
  }

  lemma {:induction false} NonBlankPicks(lines: seq<string>) returns (at: seq<nat>)
    ensures Picked(NonBlank(lines), lines, at)
  {
    hide TrimSpace;
    at := [];
    if lines != [] {
      var n := |lines| - 1;
      at := NonBlankPicks(lines[..n]);
      assert forall i :: 0 <= i < |at| ==> at[i] < n;
      if TrimSpace(lines[n]) != "" { at := at + [n]; }
    }
  }

  /** A hook is reported as its lines that are not blank, trimmed and in order; none when all are blank. */
  lemma ReportedHook(hook: string) returns (at: seq<nat>)
    ensures Picked(HookLines(hook), Split(TrimSpace(hook), '\n'), at)
    ensures Tidy(hook) == Join(HookLines(hook), '\n')
    ensures TrimSpace(hook) == "" ==> Tidy(hook) == ""
    ensures HookLines(hook) != [] ==> Split(Tidy(hook), '\n') == HookLines(hook)
  {
    hide TrimSpace, Split, NonBlank, Join;
    at := NonBlankPicks(Split(TrimSpace(hook), '\n'));
    NothingNonBlank();
    JoinFew("");
    if HookLines(hook) != [] {
      HookSolid(hook);
      SplitJoin(HookLines(hook), '\n');
    }
  }

  /** The file itself: what parsing the written text gives is the stored settings, and the users of this
      server who are enabled and have a key and addresses. */
  lemma WrittenFile(s: Settings, rows: seq<PeerRow>, at: string, isIP: string -> bool)
    requires SafeSettings(s, isIP) && SafeRows(rows) && OneLine(at) && s.keepalive <= MAX_INT64 && DistinctNames(rows)
    requires Scannable(ConfigLines(s, rows, at, isIP))
    ensures var r := Parse(ConfigText(s, rows, at, isIP));
            && r.Ok? && Ascending(Usernames(r.config.peers))
            && r.config.intf.privateKey == s.privateKey
            && r.config.intf.preUp == Tidy(s.preUp) && r.config.intf.postUp == Tidy(s.postUp)
            && r.config.intf.preDown == Tidy(s.preDown) && r.config.intf.postDown == Tidy(s.postDown)
            && forall p :: p in r.config.peers <==> exists x :: x in rows && Reports(p, x, s.keepalive)
  {
    hide Parse, ConfigText, ConfigLines, Reports, Less, Scannable, Tidy, PeersOf, Chosen, AddressOf, TrimSpace,
         SafeRows, SafeSettings, DistinctNames;
    PrintThenParse(s, rows, at, isIP);
    ExactlyTheEnabledUsers(s, rows, isIP);
    ReportedInterface(s, rows, isIP);
  }

  lemma ChosenMembers(rows: seq<PeerRow>)
    ensures forall r :: r in Chosen(rows) <==> r in rows && Selected(r)
  {
    FilterMembers(rows, Selected);
    SortMembers(Filter(rows, Selected));
  }

  /* ---------- writing the parsed result again ---------- */

  function RowOf(p: Peer): PeerRow {
    PeerRow(p.username, true, Some(p.publicKey), if p.presharedKey == "" then None else Some(p.presharedKey),
            Some(p.allowedIPs), 1)
  }

  function RowsOf(peers: seq<Peer>): seq<PeerRow> {
    seq(|peers|, i requires 0 <= i < |peers| => RowOf(peers[i]))
  }

  /** Settings made of a parsed interface; what it does not carry is taken from `s`. */
  function SettingsOf(i: Interface, s: Settings): Settings {
    Settings(true, i.privateKey, i.listenPort, s.configPort, i.address, i.dns, i.mtu,
             i.preUp, i.postUp, i.preDown, i.postDown, s.keepalive)
  }

  lemma {:induction false} NonBlankFixed(lines: seq<string>)
    requires Solid(lines)
    ensures NonBlank(lines) == lines
  {
    hide TrimSpace;
    if lines != [] {
      var n := |lines| - 1;
      NonBlankFixed(lines[..n]);
      TrimFixed(lines[n]);
      assert lines[..n] + [lines[n]] == lines;
    }
  }

  lemma TidyFixed(hook: string)
    ensures HookLines(Tidy(hook)) == HookLines(hook)
  {
    hide TrimSpace, Split, Join, NonBlank;
    var lines := HookLines(hook);
    HookSolid(hook);
    if lines == [] {
      JoinFew("");
      TrimFixed("");
      EmptyHook("", "");
      NothingNonBlank();
    } else {
      JoinSolid(lines);
      TrimFixed(Join(lines, '\n'));
      SplitJoin(lines, '\n');
      NonBlankFixed(lines);
    }
  }

  lemma NothingNonBlank()
    ensures NonBlank(Split("", '\n')) == []
  {
    assert Split("", '\n') == [""];
    assert [""][..0] == [];
  }

  lemma SameSettingLines(s: Settings, isIP: string -> bool, i: Interface)
    requires SafeSettings(s, isIP)
    ensures SettingLines(SettingsOf(WithHooks(WithSettings(EMPTY_INTERFACE, s, isIP), s), s), isIP) ==
            SettingLines(s, isIP)
  {
    hide AddressOf, Tidy, TrimSpace, KV, Itoa, Title;
    AddressSafe(s.serverAddress, isIP);
    TrimFixed("");
  }

  lemma SameHookText(s: Settings, i: Interface)
    ensures HookText(SettingsOf(WithHooks(i, s), s)) == HookText(s)
  {
    hide HookLines, Tidy, KVs, Unlines, Title;
    TidyFixed(s.preUp);
    TidyFixed(s.postUp);
    TidyFixed(s.preDown);
    TidyFixed(s.postDown);
  }

  lemma SamePeerLines(r: PeerRow, keepalive: int)
    requires Selected(r) && HasAddresses(r) && SafeRow(r)
    ensures var again := RowOf(PeerOf(r, keepalive));
            Selected(again) && HasAddresses(again) && PeerLines(again, keepalive) == PeerLines(r, keepalive)
  {
    hide TrimSpace, KV, Itoa, PeerTitle;
    TrimFixed("");
  }

  lemma {:induction false} SamePeerPart(rows: seq<PeerRow>, keepalive: int)
    requires forall r :: r in rows ==> Selected(r) && SafeRow(r)
    ensures forall r :: r in RowsOf(PeersOf(rows, keepalive)) ==> Selected(r)
    ensures PeerPart(RowsOf(PeersOf(rows, keepalive)), keepalive) == PeerPart(rows, keepalive)
  {
    hide PeerLines, HasAddresses, SafeRow, Selected, PeerOf, RowOf;
    if rows != [] {
      var n := |rows| - 1;
      SamePeerPart(rows[..n], keepalive);
      var before := PeersOf(rows[..n], keepalive);
      if HasAddresses(rows[n]) {
        var p := PeerOf(rows[n], keepalive);
        SamePeerLines(rows[n], keepalive);
        assert RowsOf(before + [p]) == RowsOf(before) + [RowOf(p)];
        var again := RowsOf(before) + [RowOf(p)];
        assert again[..|again| - 1] == RowsOf(before);
      } else {
        assert before + [] == before;
        assert PeerPart(rows[..n], keepalive) + [] == PeerPart(rows[..n], keepalive);
      }
    }
  }

  lemma {:induction false} FilterAll(rows: seq<PeerRow>, keep: PeerRow -> bool)
    requires forall r :: r in rows ==> keep(r)
    ensures Filter(rows, keep) == rows
  {
    if rows != [] {
      var n := |rows| - 1;
      FilterAll(rows[..n], keep);
      assert rows[n] in rows && rows[..n] + [rows[n]] == rows;
    }
  }

  lemma {:induction false} InsertLast(r: PeerRow, sorted: seq<PeerRow>)
    requires forall i :: 0 <= i < |sorted| ==> Less(sorted[i].username, r.username)
    ensures InsertRow(r, sorted) == sorted + [r]
  {
    if sorted != [] {
      if Less(r.username, sorted[0].username) {
        LessTransitive(r.username, sorted[0].username, r.username);
        LessIrreflexive(r.username);
      }
      InsertLast(r, sorted[1..]);
      assert sorted == [sorted[0]] + sorted[1..];
    }
  }

  lemma {:induction false} SortSorted(rows: seq<PeerRow>)
    requires AscendingRows(rows)
    ensures SortRows(rows) == rows
  {
    if rows != [] {
      var n := |rows| - 1;
      SortSorted(rows[..n]);
      InsertLast(rows[n], rows[..n]);
    }
  }

  /** Writing the parsed settings and peers again gives the same file. */
  lemma RewriteIsStable(s: Settings, rows: seq<PeerRow>, at: string, isIP: string -> bool)
    requires SafeSettings(s, isIP) && SafeRows(rows) && DistinctNames(rows)
    ensures var c := Expected(s, rows, isIP);
            ConfigText(SettingsOf(c.intf, s), RowsOf(c.peers), at, isIP) == ConfigText(s, rows, at, isIP)
  {
    hide SettingLines, HookText, PeerPart, PeersOf, WithHooks, WithSettings, HeadLines, PeersHead, Unlines, SafeRow,
         Selected, Less, RowOf, HasAddresses;
    var c := Expected(s, rows, isIP);
    var again := RowsOf(c.peers);
    SameSettingLines(s, isIP, c.intf);
    SameHookText(s, WithSettings(EMPTY_INTERFACE, s, isIP));
    ChosenSafe(rows);
    SamePeerPart(Chosen(rows), s.keepalive);
    AgainChosen(s, rows, isIP);
  }

  lemma AgainChosen(s: Settings, rows: seq<PeerRow>, isIP: string -> bool)
    requires DistinctNames(rows)
    requires forall r :: r in RowsOf(Expected(s, rows, isIP).peers) ==> Selected(r)
    ensures Chosen(RowsOf(Expected(s, rows, isIP).peers)) == RowsOf(Expected(s, rows, isIP).peers)
  {
    hide WithHooks, WithSettings, Selected, Less, HasAddresses, PeersOf;
    var peers := Expected(s, rows, isIP).peers;
    var again := RowsOf(peers);
    ReportedPeers(s, rows, isIP);
    FilterAll(again, Selected);
    forall i, j | 0 <= i < j < |again| ensures Less(again[i].username, again[j].username) {
      assert Less(Usernames(peers)[i], Usernames(peers)[j]);
    }
    SortSorted(again);
  }
}
