/** Writing the server's wg-quick configuration from the stored settings and users. */
module WgQuickWrite {
  import opened Text
  import opened Lines
  import opened WgQuickParse

  /** The stored settings the file is made from; `serverPort` is the server row's port (0 when
      NULL) and `configPort` the one in the configuration. */
  datatype Settings = Settings(
    enabled: bool, privateKey: string, serverPort: int, configPort: int, serverAddress: string,
    dns: string, mtu: int, preUp: string, postUp: string, preDown: string, postDown: string, keepalive: int)

  /** A row of `vpn_users`; `wireguard` tells whether `server_id` is 'wireguard'. */
  datatype PeerRow = PeerRow(username: string, wireguard: bool, publicKey: Option<string>, presharedKey: Option<string>,
                             allowedIPs: Option<string>, isEnabled: int)

  function KV(key: string, value: string): string { key + " = " + value }

  function Title(f: Field): string {
    match f
    case PrivateKey => "PrivateKey" case ListenPort => "ListenPort" case Address => "Address"
    case Dns => "DNS" case Mtu => "MTU" case PreUp => "PreUp" case PostUp => "PostUp"
    case PreDown => "PreDown" case PostDown => "PostDown"
  }

  function PeerTitle(f: PeerField): string {
    match f
    case PublicKey => "PublicKey" case PresharedKey => "PresharedKey"
    case AllowedIPs => "AllowedIPs" case Endpoint => "Endpoint"
  }

  const KEEPALIVE := "PersistentKeepalive"

  function ListenPortOf(s: Settings): int { if s.serverPort == 0 then s.configPort else s.serverPort }

  /** wg-quick wants a CIDR: "/24" is added to a bare address with three dots. */
  function AddressOf(address: string, isIP: string -> bool): string {
    if '/' !in address && isIP(address) && Count(address, '.') == 3 then address + "/24" else address
  }

  function Count(s: string, c: char): nat {
    if s == "" then 0 else Count(s[1..], c) + if s[0] == c then 1 else 0
  }

  /** The trimmed lines of a hook that are not blank. */
  function NonBlank(lines: seq<string>): seq<string> {
    if lines == [] then []
    else
      var n := |lines| - 1;
      NonBlank(lines[..n]) + if TrimSpace(lines[n]) == "" then [] else [TrimSpace(lines[n])]
  }

  function HookLines(hook: string): seq<string> {
    NonBlank(Split(TrimSpace(hook), '\n'))
  }

  function KVs(key: string, values: seq<string>): seq<string> {
    if values == [] then [] else KVs(key, values[..|values| - 1]) + [KV(key, values[|values| - 1])]
  }

  const HEAD := "# WireGuard Server Configuration"
  const GENERATED := "# Generated at: "
  // In two parts: the verifier does not reach the first characters of so long a literal.
  const DO_NOT_EDIT := "# DO NOT EDIT" + " MANUALLY - This file is auto-generated"
  const MTU_HEAD := "# MTU Configuration"
  const PEERS_HEAD := "# ========== Client Peers =========="
  const INTERFACE_HEADER := "[Interface]"
  const PEER_HEADER := "[Peer]"

  function HeadLines(at: string): seq<string> {
    [HEAD, GENERATED + at, DO_NOT_EDIT, "", INTERFACE_HEADER]
  }

  function SettingLines(s: Settings, isIP: string -> bool): seq<string> {
    [KV(Title(PrivateKey), s.privateKey), KV(Title(ListenPort), Itoa(ListenPortOf(s))),
     KV(Title(Address), AddressOf(s.serverAddress, isIP))]
    + (if TrimSpace(s.dns) != "" then [KV(Title(Dns), s.dns)] else [])
    + (if s.mtu > 0 then ["", MTU_HEAD, KV(Title(Mtu), Itoa(s.mtu))] else [])
  }

  function HookPart(s: Settings): seq<string> {
    KVs(Title(PreUp), HookLines(s.preUp)) + KVs(Title(PostUp), HookLines(s.postUp))
    + KVs(Title(PreDown), HookLines(s.preDown)) + KVs(Title(PostDown), HookLines(s.postDown))
  }

  function PeersHead(): seq<string> { ["", PEERS_HEAD, ""] }

  /** The rows the query selects. */
  predicate Selected(r: PeerRow) {
    r.wireguard && r.isEnabled == 1 && r.publicKey.Some? && r.publicKey.value != ""
  }

  predicate HasAddresses(r: PeerRow) {
    r.allowedIPs.Some? && TrimSpace(r.allowedIPs.value) != ""
  }

  function Filter(rows: seq<PeerRow>, keep: PeerRow -> bool): seq<PeerRow> {
    if rows == [] then []
    else Filter(rows[..|rows| - 1], keep) + if keep(rows[|rows| - 1]) then [rows[|rows| - 1]] else []
  }

  function InsertRow(r: PeerRow, sorted: seq<PeerRow>): seq<PeerRow> {
    if sorted == [] || Less(r.username, sorted[0].username) then [r] + sorted
    else [sorted[0]] + InsertRow(r, sorted[1..])
  }

  /** `sort.Slice` by username. */
  function SortRows(rows: seq<PeerRow>): seq<PeerRow> {
    if rows == [] then [] else InsertRow(rows[|rows| - 1], SortRows(rows[..|rows| - 1]))
  }

  function HasPsk(r: PeerRow): bool { r.presharedKey.Some? && TrimSpace(r.presharedKey.value) != "" }

  function PeerLines(r: PeerRow, keepalive: int): seq<string>
    requires Selected(r) && HasAddresses(r)
  {
    ["# User: " + r.username, PEER_HEADER, KV(PeerTitle(PublicKey), r.publicKey.value)]
    + (if HasPsk(r) then [KV(PeerTitle(PresharedKey), r.presharedKey.value)] else [])
    + [KV(PeerTitle(AllowedIPs), r.allowedIPs.value)]
    + (if keepalive > 0 then [KV(KEEPALIVE, Itoa(keepalive))] else [])
    + [""]
  }

  /** The sections of the rows that have addresses; the others are skipped. */
  function PeerPart(rows: seq<PeerRow>, keepalive: int): seq<string>
    requires forall r :: r in rows ==> Selected(r)
  {
    if rows == [] then []
    else
      var last := rows[|rows| - 1];
      PeerPart(rows[..|rows| - 1], keepalive) + if HasAddresses(last) then PeerLines(last, keepalive) else []
  }

  function Chosen(rows: seq<PeerRow>): (r: seq<PeerRow>)
    ensures forall x :: x in r ==> Selected(x)
  {
    FilterMembers(rows, Selected);
    SortMembers(Filter(rows, Selected));
    SortRows(Filter(rows, Selected))
  }

  function ConfigLines(s: Settings, rows: seq<PeerRow>, at: string, isIP: string -> bool): seq<string> {
    HeadLines(at) + SettingLines(s, isIP) + HookPart(s) + PeersHead() + PeerPart(Chosen(rows), s.keepalive)
  }

  function ConfigText(s: Settings, rows: seq<PeerRow>, at: string, isIP: string -> bool): string {
    Unlines(HeadLines(at)) + Unlines(SettingLines(s, isIP)) + HookText(s)
    + Unlines(PeersHead()) + Unlines(PeerPart(Chosen(rows), s.keepalive))
  }

  function HookText(s: Settings): string {
    Unlines(KVs(Title(PreUp), HookLines(s.preUp))) + Unlines(KVs(Title(PostUp), HookLines(s.postUp)))
    + Unlines(KVs(Title(PreDown), HookLines(s.preDown))) + Unlines(KVs(Title(PostDown), HookLines(s.postDown)))
  }

  lemma TextIsLines(s: Settings, rows: seq<PeerRow>, at: string, isIP: string -> bool)
    ensures ConfigText(s, rows, at, isIP) == Unlines(ConfigLines(s, rows, at, isIP))
  {
    hide Unlines, HeadLines, SettingLines, KVs, Title, HookLines, PeerPart, Chosen, PeersHead;
    var h1, h2 := KVs(Title(PreUp), HookLines(s.preUp)), KVs(Title(PostUp), HookLines(s.postUp));
    var h3, h4 := KVs(Title(PreDown), HookLines(s.preDown)), KVs(Title(PostDown), HookLines(s.postDown));
    UnlinesConcat(h1, h2);
    UnlinesConcat(h1 + h2, h3);
    UnlinesConcat(h1 + h2 + h3, h4);
    UnlinesConcat(HeadLines(at), SettingLines(s, isIP));
    UnlinesConcat(HeadLines(at) + SettingLines(s, isIP), HookPart(s));
    UnlinesConcat(HeadLines(at) + SettingLines(s, isIP) + HookPart(s), PeersHead());
    UnlinesConcat(HeadLines(at) + SettingLines(s, isIP) + HookPart(s) + PeersHead(),
                  PeerPart(Chosen(rows), s.keepalive));
  }

  lemma {:induction false} FilterMembers(rows: seq<PeerRow>, keep: PeerRow -> bool)
    ensures forall r :: r in Filter(rows, keep) <==> r in rows && keep(r)
  {
    if rows != [] {
      var n := |rows| - 1;
      FilterMembers(rows[..n], keep);
      assert rows == rows[..n] + [rows[n]];
    }
  }

  lemma {:induction false} InsertMembers(r: PeerRow, sorted: seq<PeerRow>)
    ensures forall x :: x in InsertRow(r, sorted) <==> x == r || x in sorted
  {
    if sorted != [] && !Less(r.username, sorted[0].username) {
      InsertMembers(r, sorted[1..]);
      assert sorted == [sorted[0]] + sorted[1..];
    }
  }

  lemma {:induction false} SortMembers(rows: seq<PeerRow>)
    ensures forall x :: x in SortRows(rows) <==> x in rows
  {
    if rows != [] {
      var n := |rows| - 1;
      SortMembers(rows[..n]);
      InsertMembers(rows[n], SortRows(rows[..n]));
      assert rows == rows[..n] + [rows[n]];
    }
  }

  /* ---------- writing ---------- */

  lemma Associates(a: string, b: string, c: string)
    ensures (a + b) + c == a + (b + c)
  {
  }

  lemma HookStep(start: string, key: string, sofar: seq<string>, ln: string)
    ensures start + Unlines(KVs(key, sofar)) + KV(key, ln) + "\n" == start + Unlines(KVs(key, sofar + [ln]))
  {
    hide Unlines, KVs, KV;
    KVsSnoc(key, sofar, ln);
    UnlinesSnoc(KVs(key, sofar), KV(key, ln));
    Associates(start, Unlines(KVs(key, sofar)), KV(key, ln));
    Associates(start, Unlines(KVs(key, sofar)) + KV(key, ln), "\n");
  }

  method WriteHookLines(buf: Buffer, key: string, lines: seq<string>)
    modifies buf
    ensures buf.text == old(buf.text) + Unlines(KVs(key, NonBlank(lines)))
  {
    ghost var start := buf.text;
    assert Unlines(KVs(key, [])) == "";
    hide Unlines, KVs, TrimSpace, KV;
    for i := 0 to |lines|
      invariant buf.text == start + Unlines(KVs(key, NonBlank(lines[..i])))
    {
      assert lines[..i + 1][..i] == lines[..i];
      var ln := TrimSpace(lines[i]);
      if ln == "" {
        assert NonBlank(lines[..i]) + [] == NonBlank(lines[..i]);
        continue;
      }
      HookStep(start, key, NonBlank(lines[..i]), ln);
      buf.Line(KV(key, ln));
    }
    assert lines[..|lines|] == lines;
  }

  method WriteHook(buf: Buffer, key: string, value: string)
    modifies buf
    ensures buf.text == old(buf.text) + Unlines(KVs(key, HookLines(value)))
  {
    var v := TrimSpace(value);
    if v == "" {
      EmptyHook(key, buf.text);
      return;
    }
    hide Unlines, KVs, NonBlank, TrimSpace, Split;
    WriteHookLines(buf, key, Split(v, '\n'));
  }

  lemma EmptyHook(key: string, start: string)
    ensures start + Unlines(KVs(key, NonBlank(Split("", '\n')))) == start
    ensures start + Unlines(KVs(key, [])) == start
    ensures NonBlank([]) == []
  {
    assert Split("", '\n') == [""];
    assert [""][..0] == [];
  }

  lemma KVsSnoc(key: string, values: seq<string>, v: string)
    ensures KVs(key, values + [v]) == KVs(key, values) + [KV(key, v)]
  {
    assert (values + [v])[..|values|] == values;
  }

  method WriteLines(buf: Buffer, lines: seq<string>)
    modifies buf
    ensures buf.text == old(buf.text) + Unlines(lines)
  {
    ghost var start := buf.text;
    for i := 0 to |lines|
      invariant buf.text == start + Unlines(lines[..i])
    {
      assert lines[..i + 1][..i] == lines[..i];
      buf.Line(lines[i]);
    }
    assert lines[..|lines|] == lines;
  }

  method WritePeer(buf: Buffer, r: PeerRow, keepalive: int)
    requires Selected(r) && HasAddresses(r)
    modifies buf
    ensures buf.text == old(buf.text) + Unlines(PeerLines(r, keepalive))
  {
    hide Unlines, KV, Itoa, PeerTitle;
    var lines := ["# User: " + r.username, PEER_HEADER, KV(PeerTitle(PublicKey), r.publicKey.value)];
    if HasPsk(r) { lines := lines + [KV(PeerTitle(PresharedKey), r.presharedKey.value)]; }
    lines := lines + [KV(PeerTitle(AllowedIPs), r.allowedIPs.value)];
    if keepalive > 0 { lines := lines + [KV(KEEPALIVE, Itoa(keepalive))]; }
    lines := lines + [""];
    assert lines == PeerLines(r, keepalive);
    WriteLines(buf, lines);
  }

  method WriteSettings(buf: Buffer, s: Settings, isIP: string -> bool)
    modifies buf
    ensures buf.text == old(buf.text) + Unlines(SettingLines(s, isIP))
  {
    hide Unlines, KV, Itoa, AddressOf, TrimSpace, Title;
    var lines := [KV(Title(PrivateKey), s.privateKey), KV(Title(ListenPort), Itoa(ListenPortOf(s))),
                  KV(Title(Address), AddressOf(s.serverAddress, isIP))];
    if TrimSpace(s.dns) != "" { lines := lines + [KV(Title(Dns), s.dns)]; }
    if s.mtu > 0 { lines := lines + ["", MTU_HEAD, KV(Title(Mtu), Itoa(s.mtu))]; }
    assert lines == SettingLines(s, isIP);
    WriteLines(buf, lines);
  }

  method SelectAndSort(rows: seq<PeerRow>) returns (peers: seq<PeerRow>)
    ensures peers == Chosen(rows)
  {
    var selected: seq<PeerRow> := [];
    for i := 0 to |rows|
      invariant selected == Filter(rows[..i], Selected)
    {
      assert rows[..i + 1][..i] == rows[..i];
      if Selected(rows[i]) { selected := selected + [rows[i]]; }
    }
    assert rows[..|rows|] == rows;
    peers := SortRows(selected);
  }

  method WritePeers(buf: Buffer, peers: seq<PeerRow>, keepalive: int)
    requires forall r :: r in peers ==> Selected(r)
    modifies buf
    ensures buf.text == old(buf.text) + Unlines(PeerPart(peers, keepalive))
  {
    hide PeerLines, HasAddresses;
    ghost var start := buf.text;
    for i := 0 to |peers|
      invariant buf.text == start + Unlines(PeerPart(peers[..i], keepalive))
    {
      assert peers[..i + 1][..i] == peers[..i];
      ghost var sofar := PeerPart(peers[..i], keepalive);
      if !HasAddresses(peers[i]) {
        assert sofar + [] == sofar;
        continue;
      }
      WritePeer(buf, peers[i], keepalive);
      UnlinesConcat(sofar, PeerLines(peers[i], keepalive));
      Associates(start, Unlines(sofar), Unlines(PeerLines(peers[i], keepalive)));
    }
    assert peers[..|peers|] == peers;
  }

  method WriteHooks(buf: Buffer, s: Settings)
    modifies buf
    ensures buf.text == old(buf.text) + HookText(s)
  {
    hide Unlines, KVs, HookLines, Title;
    WriteHook(buf, Title(PreUp), s.preUp);
    WriteHook(buf, Title(PostUp), s.postUp);
    WriteHook(buf, Title(PreDown), s.preDown);
    WriteHook(buf, Title(PostDown), s.postDown);
  }

  /** Fails when WireGuard is not enabled; otherwise gives the text of the file. */
  method WriteWireGuardConfig(s: Settings, rows: seq<PeerRow>, at: string, isIP: string -> bool)
    returns (out: Option<string>)
    ensures out == if s.enabled then Some(ConfigText(s, rows, at, isIP)) else None
  {
    if !s.enabled { return None; }
    hide Unlines, HeadLines, SettingLines, HookText, PeerPart, PeersHead;
    var buf := new Buffer();
    WriteLines(buf, HeadLines(at));
    assert buf.text == Unlines(HeadLines(at));
    WriteSettings(buf, s, isIP);
    WriteHooks(buf, s);
    WriteLines(buf, PeersHead());
    var peers := SelectAndSort(rows);
    WritePeers(buf, peers, s.keepalive);
    out := Some(buf.text);
  }

  /* ---------- the text itself ---------- */

  lemma {:induction false} UnlinesFront(l: string, rest: seq<string>)
    ensures Unlines([l] + rest) == l + "\n" + Unlines(rest)
  {
    hide Unlines;
    UnlinesConcat([l], rest);
    UnlinesSnoc([], l);
    NoLines();
    assert [] + [l] == [l];
    assert "" + l + "\n" == l + "\n";
  }

  /** The lines of a peer's section below its key. */
  function SectionEnd(psk: string, ips: string, keepalive: int): string {
    (if psk == "" then "" else "PresharedKey" + " = " + psk + "\n")
    + ("AllowedIPs" + " = " + ips + "\n"
       + ((if keepalive > 0 then "PersistentKeepalive" + " = " + Itoa(keepalive) + "\n" else "") + "\n"))
  }

  /** A peer's section as it is printed. */
  lemma PeerSection(r: PeerRow, keepalive: int)
    requires Selected(r) && HasAddresses(r)
    ensures var psk := match r.presharedKey case Some(k) => if TrimSpace(k) == "" then "" else k case None => "";
            Unlines(PeerLines(r, keepalive)) ==
            "# User: " + r.username + "\n" + ("[Peer]" + "\n" + ("PublicKey" + " = " + r.publicKey.value + "\n"
            + SectionEnd(psk, r.allowedIPs.value, keepalive)))
  {
    hide Unlines, Itoa, TrimSpace, KV, SectionEnd;
    var psk := if HasPsk(r) then [KV("PresharedKey", r.presharedKey.value)] else [];
    var alive := if keepalive > 0 then [KV("PersistentKeepalive", Itoa(keepalive))] else [];
    var key, ips := KV("PublicKey", r.publicKey.value), KV("AllowedIPs", r.allowedIPs.value);
    var rest := psk + ([ips] + (alive + [""]));
    assert PeerLines(r, keepalive) == ["# User: " + r.username] + (["[Peer]"] + ([key] + rest));
    UnlinesFront("# User: " + r.username, ["[Peer]"] + ([key] + rest));
    UnlinesFront("[Peer]", [key] + rest);
    UnlinesFront(key, rest);
    KVText("PublicKey", r.publicKey.value);
    SectionRest(r, keepalive, psk, alive);
  }

  lemma KVText(key: string, value: string)
    ensures KV(key, value) == key + " = " + value
  {
  }

  lemma SectionRest(r: PeerRow, keepalive: int, psk: seq<string>, alive: seq<string>)
    requires Selected(r) && HasAddresses(r)
    requires psk == if HasPsk(r) then [KV("PresharedKey", r.presharedKey.value)] else []
    requires alive == if keepalive > 0 then [KV("PersistentKeepalive", Itoa(keepalive))] else []
    ensures Unlines(psk + ([KV("AllowedIPs", r.allowedIPs.value)] + (alive + [""]))) ==
            SectionEnd(match r.presharedKey case Some(k) => if TrimSpace(k) == "" then "" else k case None => "",
                       r.allowedIPs.value, keepalive)
  {
    hide Unlines, Itoa, TrimSpace, KV;
    var ips := KV("AllowedIPs", r.allowedIPs.value);
    UnlinesConcat(psk, [ips] + (alive + [""]));
    UnlinesFront(ips, alive + [""]);
    UnlinesConcat(alive, [""]);
    OptionalLine(psk);
    OptionalLine(alive);
    EmptyLine();
    KVText("AllowedIPs", r.allowedIPs.value);
    if HasPsk(r) {
      KVText("PresharedKey", r.presharedKey.value);
      TrimFixed("");
    }
    KVText("PersistentKeepalive", Itoa(keepalive));
  }

  lemma EmptyLine()
    ensures Unlines([""]) == "\n"
  {
    hide Unlines;
    UnlinesFront("", []);
    NoLines();
    assert [""] + [] == [""];
    assert "" + "\n" + "" == "\n";
  }

  lemma OptionalLine(lines: seq<string>)
    requires |lines| <= 1
    ensures Unlines(lines) == if lines == [] then "" else lines[0] + "\n"
  {
    hide Unlines;
    NoLines();
    if lines != [] {
      UnlinesFront(lines[0], []);
      assert [lines[0]] + [] == lines;
      assert lines[0] + "\n" + "" == lines[0] + "\n";
    }
  }

  /** The file begins with its comment and the header of the interface section. */
  lemma FileHead(at: string)
    ensures Unlines(HeadLines(at)) ==
            "# WireGuard Server Configuration" + "\n" + ("# Generated at: " + at + "\n"
            + (DO_NOT_EDIT + "\n" + ("" + "\n" + ("[Interface]" + "\n" + ""))))
  {
    hide Unlines;
    var gen := "# Generated at: " + at;
    assert HeadLines(at) == [HEAD] + ([gen] + ([DO_NOT_EDIT] + ([""] + (["[Interface]"] + []))));
    UnlinesFront(HEAD, [gen] + ([DO_NOT_EDIT] + ([""] + (["[Interface]"] + []))));
    UnlinesFront(gen, [DO_NOT_EDIT] + ([""] + (["[Interface]"] + [])));
    UnlinesFront(DO_NOT_EDIT, [""] + (["[Interface]"] + []));
    UnlinesFront("", ["[Interface]"] + []);
    UnlinesFront("[Interface]", []);
    NoLines();
  }

  /** The settings as they are printed. */
  lemma SettingsText(s: Settings, isIP: string -> bool)
    ensures Unlines(SettingLines(s, isIP)) ==
            "PrivateKey" + " = " + s.privateKey + "\n" + ("ListenPort" + " = " + Itoa(ListenPortOf(s)) + "\n"
            + ("Address" + " = " + AddressOf(s.serverAddress, isIP) + "\n"
            + ((if TrimSpace(s.dns) == "" then "" else "DNS" + " = " + s.dns + "\n")
            + (if s.mtu <= 0 then ""
               else "\n" + ("# MTU Configuration" + "\n" + ("MTU" + " = " + Itoa(s.mtu) + "\n"))))))
  {
    hide Unlines, Itoa, TrimSpace, KV, AddressOf, ListenPortOf;
    var key, port := KV("PrivateKey", s.privateKey), KV("ListenPort", Itoa(ListenPortOf(s)));
    var address := KV("Address", AddressOf(s.serverAddress, isIP));
    var dns := if TrimSpace(s.dns) != "" then [KV("DNS", s.dns)] else [];
    var mtu := if s.mtu > 0 then ["", MTU_HEAD, KV("MTU", Itoa(s.mtu))] else [];
    assert SettingLines(s, isIP) == [key] + ([port] + ([address] + (dns + mtu)));
    UnlinesFront(key, [port] + ([address] + (dns + mtu)));
    UnlinesFront(port, [address] + (dns + mtu));
    UnlinesFront(address, dns + mtu);
    UnlinesConcat(dns, mtu);
    OptionalLine(dns);
    MtuText(s, mtu);
    KVText("PrivateKey", s.privateKey);
    KVText("ListenPort", Itoa(ListenPortOf(s)));
    KVText("Address", AddressOf(s.serverAddress, isIP));
    KVText("DNS", s.dns);
  }

  lemma MtuText(s: Settings, mtu: seq<string>)
    requires mtu == if s.mtu > 0 then ["", MTU_HEAD, KV("MTU", Itoa(s.mtu))] else []
    ensures Unlines(mtu) ==
            if s.mtu <= 0 then "" else "\n" + ("# MTU Configuration" + "\n" + ("MTU" + " = " + Itoa(s.mtu) + "\n"))
  {
    hide Unlines, Itoa, KV;
    NoLines();
    if s.mtu > 0 {
      var line := KV("MTU", Itoa(s.mtu));
      assert mtu == [""] + ([MTU_HEAD] + [line]);
      UnlinesFront("", [MTU_HEAD] + [line]);
      UnlinesFront(MTU_HEAD, [line]);
      OptionalLine([line]);
      KVText("MTU", Itoa(s.mtu));
      assert "" + "\n" == "\n";
    }
  }

  /** Above the peers stands their comment between empty lines. */
  lemma PeersHeadText()
    ensures Unlines(PeersHead()) == "\n" + ("# ========== Client Peers ==========" + "\n" + "\n")
  {
    hide Unlines;
    assert PeersHead() == [""] + ([PEERS_HEAD] + [""]);
    UnlinesFront("", [PEERS_HEAD] + [""]);
    UnlinesFront(PEERS_HEAD, [""]);
    EmptyLine();
    assert "" + "\n" == "\n";
  }
}
