/** The planner: caps per tunnel address become a list of `tc` argument vectors. */
module PcqPlan {
  import opened Text
  import opened PcqLoad
  import opened TcWords

  const ROOT_CEIL := "100000mbit"
  const FIRST_MINOR: nat := 100
  const LAST_MINOR: nat := 0xff00
  const FIRST_FLOW_PRIO: nat := 50
  const FIRST_POLICER_PRIO: nat := 10

  /** kb/s (1024 to the UI's Mbps) as bits per second, rounded half up, at least 8000. */
  function RateBits(kbps: int): nat
    requires kbps > 0
  {
    var rounded := (kbps * 2_000_000 + 1024) / 2048;
    if rounded < 8000 then 8000 else rounded
  }

  function RateSpec(kbps: int): string {
    if kbps <= 0 then "" else Decimal(RateBits(kbps)) + "bit"
  }

  /** Five percent of a second at the given rate, in bytes, rounded half up, at least 1600:
      kbps / 1024 * 1e6 / 8 * 0.05 is kbps * 6250 / 1024. */
  function BurstOf(kbps: int): nat
    requires kbps > 0
  {
    var rounded := (kbps * 12500 + 1024) / 2048;
    if rounded < 1600 then 1600 else rounded
  }

  function BurstBytes(burstKbps: int, rateKbps: int): nat {
    if burstKbps > 0 then
      (if rateKbps > 0 && BurstOf(burstKbps) > BurstOf(rateKbps) then BurstOf(rateKbps) else BurstOf(burstKbps))
    else if rateKbps > 0 then BurstOf(rateKbps)
    else 12500
  }

  /** The commands the planner appends, with their arguments. */
  datatype Step =
    | Teardown(what: Word)
    | RootQdisc
    | TopClass
    | DefaultClass
    | PeerClass(minor: nat, limit: PeerLimit)
    | FlowTo(prio: nat, ip: string, minor: nat)
    | Ingress
    | Police(prio: nat, ip: string, limit: PeerLimit)

  function ClassName(minor: nat): string { "1:" + Hex(minor) }

  /** The words of `tc qdisc del dev IFACE WHAT 2>/dev/null || true`, joined by blanks. */
  function TeardownLine(iface: string, what: Word): seq<string> {
    [Spell(TC), Spell(QDISC), Spell(DEL), Spell(DEV), iface, Spell(what), Spell(DISCARD), Spell(OR), Spell(TRUE)]
  }

  /** The argument vector of a command. */
  function Argv(iface: string, s: Step): seq<string> {
    match s
    case Teardown(what) => [Spell(SH), Spell(DASH_C), Join(TeardownLine(iface, what), ' ')]
    case RootQdisc => [Spell(TC), Spell(QDISC), Spell(ADD), Spell(DEV), iface, Spell(ROOT), Spell(HANDLE), "1:",
                       Spell(HTB), Spell(DEFAULT), "30"]
    case TopClass =>
      [Spell(TC), Spell(CLASS), Spell(ADD), Spell(DEV), iface, Spell(PARENT), "1:", Spell(CLASSID), "1:1", Spell(HTB),
       Spell(RATE), ROOT_CEIL, Spell(CEIL), ROOT_CEIL]
    case DefaultClass =>
      [Spell(TC), Spell(CLASS), Spell(ADD), Spell(DEV), iface, Spell(PARENT), "1:1", Spell(CLASSID), "1:30", Spell(HTB),
       Spell(RATE), ROOT_CEIL, Spell(CEIL), ROOT_CEIL, Spell(PRIO), "7"]
    case PeerClass(minor, l) =>
      [Spell(TC), Spell(CLASS), Spell(ADD), Spell(DEV), iface, Spell(PARENT), "1:1", Spell(CLASSID),
       ClassName(minor), Spell(HTB),
       Spell(RATE), RateSpec(l.down), Spell(CEIL), RateSpec(l.down), Spell(PRIO), "5"] +
      (if l.burstDown > 0 then
         var b := Decimal(BurstBytes(l.burstDown, l.down));
         [Spell(BURST), b, Spell(CBURST), b]
       else [])
    case FlowTo(prio, ip, minor) =>
      [Spell(TC), Spell(FILTER), Spell(ADD), Spell(DEV), iface, Spell(PROTOCOL), Spell(IP), Spell(PARENT), "1:",
       Spell(PRIO), Decimal(prio),
       Spell(U32), Spell(MATCH), Spell(IP), Spell(DST), ip + "/32", Spell(FLOWID), ClassName(minor)]
    case Ingress => [Spell(TC), Spell(QDISC), Spell(ADD), Spell(DEV), iface, Spell(HANDLE), Spell(INGRESS_HANDLE),
                     Spell(INGRESS)]
    case Police(prio, ip, l) =>
      [Spell(TC), Spell(FILTER), Spell(ADD), Spell(DEV), iface, Spell(PARENT), Spell(INGRESS_HANDLE),
       Spell(PROTOCOL), Spell(IP), Spell(PRIO), Decimal(prio),
       Spell(U32), Spell(MATCH), Spell(IP), Spell(SRC), ip + "/32",
       Spell(POLICE), Spell(RATE), RateSpec(l.up), Spell(BURST), Decimal(BurstBytes(l.burstUp, l.up)),
       Spell(MTU), Spell(MTU_BYTES), Spell(CONFORM_EXCEED), Spell(DROP)]
  }

  function Render(iface: string, steps: seq<Step>): (r: seq<seq<string>>)
    ensures |r| == |steps|
  {
    seq(|steps|, i requires 0 <= i < |steps| => Argv(iface, steps[i]))
  }

  type Peers = map<string, PeerLimit>

  /** The keys with a positive cap, in the order of `keys`. */
  function Capped(keys: seq<string>, peers: Peers, k: Knob): seq<string> {
    if keys == [] then []
    else
      var init := Capped(keys[..|keys| - 1], peers, k);
      var ip := keys[|keys| - 1];
      if Get(Limit(peers, ip), k) > 0 then init + [ip] else init
  }

  /** Class and filter of the first `n` download-capped peers. */
  function DownloadPart(capped: seq<string>, peers: Peers): seq<Step> {
    if capped == [] then []
    else
      var n := |capped| - 1;
      DownloadPart(capped[..n], peers) +
      [PeerClass(FIRST_MINOR + n, Limit(peers, capped[n])), FlowTo(FIRST_FLOW_PRIO + n, capped[n], FIRST_MINOR + n)]
  }

  function UploadPart(capped: seq<string>, peers: Peers): seq<Step> {
    if capped == [] then []
    else
      var n := |capped| - 1;
      UploadPart(capped[..n], peers) + [Police(FIRST_POLICER_PRIO + n, capped[n], Limit(peers, capped[n]))]
  }

  /** Minors run from 100 to 0xff00, so this many peers get a class. */
  const MAX_SHAPED: nat := LAST_MINOR - FIRST_MINOR + 1

  function Shaped(capped: seq<string>): seq<string> {
    if |capped| <= MAX_SHAPED then capped else capped[..MAX_SHAPED]
  }

  function DownloadShape(keys: seq<string>, peers: Peers): seq<Step> {
    var down := Capped(keys, peers, Down);
    if down == [] then [] else [RootQdisc, TopClass, DefaultClass] + DownloadPart(Shaped(down), peers)
  }

  function UploadShape(keys: seq<string>, peers: Peers): seq<Step> {
    var up := Capped(keys, peers, Up);
    if up == [] then [] else [Ingress] + UploadPart(up, peers)
  }

  ghost function ShapeSpec(iface: string, peers: Peers): seq<Step> {
    if iface == "" then [] else DownloadShape(Sorted(peers.Keys), peers) + UploadShape(Sorted(peers.Keys), peers)
  }

  ghost function PlanSpec(iface: string, peers: Peers): seq<Step> {
    [Teardown(INGRESS), Teardown(ROOT)] + ShapeSpec(iface, peers)
  }

  lemma {:induction false} CappedEmpty(keys: seq<string>, peers: Peers, k: Knob)
    ensures Capped(keys, peers, k) == [] <==> forall i :: 0 <= i < |keys| ==> Get(Limit(peers, keys[i]), k) <= 0
  {
    if keys != [] {
      CappedEmpty(keys[..|keys| - 1], peers, k);
    }
  }

  method Needs(keys: seq<string>, peers: Peers, k: Knob) returns (needed: bool)
    ensures needed <==> Capped(keys, peers, k) != []
  {
    needed := false;
    for i := 0 to |keys|
      invariant needed <==> exists j :: 0 <= j < i && Get(Limit(peers, keys[j]), k) > 0
    {
      if Get(Limit(peers, keys[i]), k) > 0 { needed := true; }
    }
    CappedEmpty(keys, peers, k);
  }

  lemma CappedSnoc(keys: seq<string>, i: nat, peers: Peers, k: Knob)
    requires i < |keys|
    ensures Capped(keys[..i + 1], peers, k) ==
            Capped(keys[..i], peers, k) + if Get(Limit(peers, keys[i]), k) > 0 then [keys[i]] else []
  {
    assert keys[..i + 1][..i] == keys[..i];
  }

  lemma DownloadSnoc(capped: seq<string>, ip: string, peers: Peers)
    ensures DownloadPart(capped + [ip], peers) ==
            DownloadPart(capped, peers) +
            [PeerClass(FIRST_MINOR + |capped|, Limit(peers, ip)),
             FlowTo(FIRST_FLOW_PRIO + |capped|, ip, FIRST_MINOR + |capped|)]
  {
    assert (capped + [ip])[..|capped|] == capped;
  }

  lemma AppendTwo(a: seq<Step>, b: seq<Step>, x: Step, y: Step)
    ensures a + (b + [x, y]) == a + b + [x] + [y]
  {
  }

  method AppendDownloads(keys: seq<string>, peers: Peers, start: seq<Step>) returns (cmds: seq<Step>)
    ensures cmds == start + DownloadPart(Shaped(Capped(keys, peers, Down)), peers)
  {
    hide Capped, DownloadPart;
    cmds := start;
    var fi, minor := FIRST_FLOW_PRIO, FIRST_MINOR;
    var i := 0;
    ghost var done: seq<string> := [];
    StartEmpty(keys, peers, start);
    while i < |keys|
      invariant 0 <= i <= |keys|
      invariant done == Capped(keys[..i], peers, Down)
      invariant |done| < MAX_SHAPED
      invariant fi == FIRST_FLOW_PRIO + |done| && minor == FIRST_MINOR + |done|
      invariant cmds == start + DownloadPart(done, peers)
    {
      CappedSnoc(keys, i, peers, Down);
      var ip := keys[i];
      var l := Limit(peers, ip);
      i := i + 1;
      if l.down <= 0 { continue; }
      // A positive cap always has a rate text, so the test for an empty `kbpsToRateSpec` never succeeds.
      DownloadSnoc(done, ip, peers);
      AppendTwo(start, DownloadPart(done, peers), PeerClass(minor, l), FlowTo(fi, ip, minor));
      cmds := cmds + [PeerClass(minor, l)];
      cmds := cmds + [FlowTo(fi, ip, minor)];
      done := done + [ip];
      fi, minor := fi + 1, minor + 1;
      if minor > LAST_MINOR {
        ShapedReached(keys, i, peers);
        return;
      }
    }
    assert keys[..|keys|] == keys;
  }

  lemma StartEmpty(keys: seq<string>, peers: Peers, start: seq<Step>)
    ensures Capped(keys[..0], peers, Down) == [] && start + DownloadPart([], peers) == start
  {
  }

  lemma ShapedReached(keys: seq<string>, i: nat, peers: Peers)
    requires i <= |keys| && |Capped(keys[..i], peers, Down)| == MAX_SHAPED
    ensures Shaped(Capped(keys, peers, Down)) == Capped(keys[..i], peers, Down)
  {
    hide Capped;
    CappedPrefix(keys, i, peers, Down);
  }

  lemma {:induction false} CappedPrefix(keys: seq<string>, i: nat, peers: Peers, k: Knob)
    requires i <= |keys|
    ensures Capped(keys[..i], peers, k) <= Capped(keys, peers, k)
    decreases |keys| - i
  {
    if i < |keys| {
      assert keys[..i + 1][..i] == keys[..i];
      CappedPrefix(keys, i + 1, peers, k);
    } else {
      assert keys[..i] == keys;
    }
  }

  lemma UploadSnoc(capped: seq<string>, ip: string, peers: Peers, start: seq<Step>)
    ensures start + UploadPart(capped + [ip], peers) ==
            start + UploadPart(capped, peers) + [Police(FIRST_POLICER_PRIO + |capped|, ip, Limit(peers, ip))]
  {
    assert (capped + [ip])[..|capped|] == capped;
  }

  method AppendUploads(keys: seq<string>, peers: Peers, start: seq<Step>) returns (cmds: seq<Step>)
    ensures cmds == start + UploadPart(Capped(keys, peers, Up), peers)
  {
    cmds := start;
    var pi := FIRST_POLICER_PRIO;
    ghost var done: seq<string> := [];
    for i := 0 to |keys|
      invariant done == Capped(keys[..i], peers, Up)
      invariant pi == FIRST_POLICER_PRIO + |done|
      invariant cmds == start + UploadPart(done, peers)
    {
      CappedSnoc(keys, i, peers, Up);
      var l := Limit(peers, keys[i]);
      if l.up <= 0 { continue; }
      UploadSnoc(done, keys[i], peers, start);
      cmds := cmds + [Police(pi, keys[i], l)];
      done := done + [keys[i]];
      pi := pi + 1;
    }
    assert keys[..|keys|] == keys;
  }

  method UploadCommands(keys: seq<string>, peers: Peers, start: seq<Step>) returns (cmds: seq<Step>)
    requires Capped(keys, peers, Up) != []
    ensures cmds == start + UploadShape(keys, peers)
  {
    cmds := AppendUploads(keys, peers, start + [Ingress]);
    AppendAssociates(start, [Ingress], UploadPart(Capped(keys, peers, Up), peers));
  }

  lemma AppendAssociates(a: seq<Step>, b: seq<Step>, c: seq<Step>)
    ensures (a + b) + c == a + (b + c)
  {
  }

  /** `peerShapeAppend`. */
  method PeerShape(iface: string, peers: Peers) returns (cmds: seq<Step>)
    ensures cmds == ShapeSpec(iface, peers)
  {
    cmds := [];
    if iface == "" || |peers| == 0 {
      assert iface != "" ==> Sorted(peers.Keys) == [];
      return;
    }
    var keys := SortKeys(peers.Keys);
    var needsDown := Needs(keys, peers, Down);
    var needsUp := Needs(keys, peers, Up);
    if needsDown {
      cmds := AppendDownloads(keys, peers, [RootQdisc, TopClass, DefaultClass]);
    }
    assert cmds == DownloadShape(keys, peers);
    if needsUp {
      cmds := UploadCommands(keys, peers, cmds);
    }
  }

  lemma NoShape(iface: string, peers: Peers)
    requires iface == "" || |peers| == 0
    ensures ShapeSpec(iface, peers) == []
  {
    assert iface != "" ==> Sorted(peers.Keys) == [];
  }

  /** The full apply: teardown of both qdiscs, then the shaping commands. */
  method Plan(wgIface: string, peers: Peers) returns (cmds: seq<seq<string>>)
    ensures cmds == Render(TrimSpace(wgIface), PlanSpec(TrimSpace(wgIface), peers))
  {
    hide TrimSpace, Sorted, ShapeSpec, Render;
    var iface := TrimSpace(wgIface);
    var steps := [Teardown(INGRESS)];
    steps := steps + [Teardown(ROOT)];
    if iface != "" && |peers| != 0 {
      var shape := PeerShape(iface, peers);
      steps := steps + shape;
    } else {
      NoShape(iface, peers);
    }
    assert steps == PlanSpec(iface, peers);
    cmds := Render(iface, steps);
  }

  /** The preview: the shaping commands without teardown. */
  method PlanForPeers(wgIface: string, peers: Peers) returns (cmds: seq<seq<string>>)
    ensures cmds == Render(TrimSpace(wgIface), ShapeSpec(TrimSpace(wgIface), peers))
  {
    var shape := PeerShape(TrimSpace(wgIface), peers);
    cmds := Render(TrimSpace(wgIface), shape);
  }

  /* ---------- rates ---------- */

  /** A smaller cap never gets the larger rate. */
  lemma RateMonotone(a: int, b: int)
    requires 0 < a <= b
    ensures RateBits(a) <= RateBits(b)
  {
  }

  /** The bytes of a twentieth of a second at `kbps`, to half a byte, or 1600 when that is more. */
  predicate BurstFor(bytes: int, kbps: int) {
    if 6250 * kbps < 1024 * 1600 + 512 then bytes == 1600 else -1024 <= 2 * (1024 * bytes - 6250 * kbps) <= 1024
  }

  /** The bits per second of `kbps`, at 1024 to the Mbps, to half a bit, or 8000 when that is more. */
  predicate RateFor(bits: int, kbps: int) {
    if kbps <= 8 then bits == 8000 else -1024 <= 2 * (1024 * bits - 1_000_000 * kbps) <= 1024
  }

  /** A burst is that of the smaller of the configured value and the rate, of the one that is given when the
      other is not, and 12500 bytes when neither is. */
  lemma BurstAccuracy(configured: int, rate: int)
    ensures configured > 0 && rate > 0 ==>
              BurstFor(BurstBytes(configured, rate), if configured < rate then configured else rate)
    ensures configured > 0 && rate <= 0 ==> BurstFor(BurstBytes(configured, rate), configured)
    ensures configured <= 0 && rate > 0 ==> BurstFor(BurstBytes(configured, rate), rate)
    ensures configured <= 0 && rate <= 0 ==> BurstBytes(configured, rate) == 12500
  {
    hide BurstFor, BurstOf;
    if configured > 0 { BurstRounded(configured); }
    if rate > 0 { BurstRounded(rate); }
    if 0 < configured <= rate { BurstMonotone(configured, rate); }
    if 0 < rate <= configured { BurstMonotone(rate, configured); }
  }

  lemma BurstRounded(kbps: int)
    requires kbps > 0
    ensures BurstFor(BurstOf(kbps), kbps)
  {
    var q := (kbps * 12500 + 1024) / 2048;
    assert 2048 * q <= kbps * 12500 + 1024 < 2048 * q + 2048;
  }

  lemma BurstMonotone(a: int, b: int)
    requires 0 < a <= b
    ensures BurstOf(a) <= BurstOf(b)
  {
  }

  /** The rate is within half a bit of kbps * 10^6 / 1024, exact for whole Mbps, or the least of
      8000 bits exactly for caps of at most 8 kb/s. */
  lemma RateAccuracy(kbps: int)
    requires kbps > 0
    ensures RateFor(RateBits(kbps), kbps)
    ensures RateBits(kbps) == 8000 <==> kbps <= 8
    ensures kbps % 1024 == 0 ==> RateBits(kbps) == kbps / 1024 * 1_000_000
  {
    var q := (kbps * 2_000_000 + 1024) / 2048;
    assert 2048 * q <= kbps * 2_000_000 + 1024 < 2048 * q + 2048;
    if kbps % 1024 == 0 {
      var m := kbps / 1024;
      assert kbps == 1024 * m;
    }
  }
}
