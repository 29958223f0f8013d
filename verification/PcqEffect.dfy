/** The effect of a whole plan on a device, and the caps packets meet afterwards. */
module PcqEffect {
  import opened Text
  import opened IPv4
  import opened PcqLoad
  import PcqJoin
  import opened PcqPlan
  import opened Tc
  import opened TcWords
  import opened PcqMeaning

  ghost predicate AllReadable(steps: seq<Step>) {
    forall i :: 0 <= i < |steps| ==> Readable(steps[i])
  }

  /** Executing steps in order, stopping at the first that fails. */
  function Steps(steps: seq<Step>, d: Device): Option<Device>
    requires AllReadable(steps)
  {
    if steps == [] then Some(d) else
    var n := |steps| - 1;
    match Steps(steps[..n], d)
    case None => None
    case Some(d') => Execute(CommandOf(steps[n]), d')
  }

  /** The interpreter, run on the argument vectors, does what the steps stand for. */
  lemma {:induction false} RunIsSteps(iface: string, steps: seq<Step>, d: Device)
    requires PlainName(iface) && AllReadable(steps)
    ensures Run(Render(iface, steps), iface, d) == Steps(steps, d)
  {
    hide Argv, ReadCommand, Execute;
    if steps != [] {
      var n := |steps| - 1;
      var last := [Argv(iface, steps[n])];
      assert Render(iface, steps) == Render(iface, steps[..n]) + last;
      RunIsSteps(iface, steps[..n], d);
      RunConcat(Render(iface, steps[..n]), last, iface, d);
      ReadStep(iface, steps[n]);
      assert last[1..] == [];
    }
  }

  lemma {:induction false} StepsConcat(a: seq<Step>, b: seq<Step>, d: Device)
    requires AllReadable(a) && AllReadable(b)
    ensures AllReadable(a + b)
    ensures Steps(a + b, d) == match Steps(a, d) case None => None case Some(d') => Steps(b, d')
  {
    hide Execute, CommandOf;
    if b == [] {
      assert a + b == a;
    } else {
      var n := |b| - 1;
      assert (a + b)[..|a + b| - 1] == a + b[..n];
      StepsConcat(a, b[..n], d);
    }
  }

  ghost predicate AllCanonical(keys: seq<string>) {
    forall i :: 0 <= i < |keys| ==> Canonical(keys[i])
  }

  predicate AllPositive(keys: seq<string>, peers: Peers, k: Knob) {
    forall i :: 0 <= i < |keys| ==> Get(Limit(peers, keys[i]), k) > 0
  }

  /* ---------- download ---------- */

  const HTB_ROOT := Root(1, DEFAULT_MINOR)

  /** The class table after the first peers: the top class, the default class and one per peer. */
  function Classes(capped: seq<string>, peers: Peers): map<ClassId, Class>
    requires AllPositive(capped, peers, Down)
  {
    if capped == [] then
      map[TOP_ID := Class(ClassId(1, 0), ROOT_RATE, ROOT_RATE, 0, None),
          DEFAULT_ID := Class(TOP_ID, ROOT_RATE, ROOT_RATE, 7, None)]
    else
      var n := |capped| - 1;
      Classes(capped[..n], peers)[ClassId(1, FIRST_MINOR + n) := PeerClassOf(Limit(peers, capped[n]))]
  }

  predicate PeerClassAt(t: map<ClassId, Class>, i: nat, l: PeerLimit) {
    ClassId(1, FIRST_MINOR + i) in t && l.down > 0 && t[ClassId(1, FIRST_MINOR + i)] == PeerClassOf(l)
  }

  lemma {:induction false} ClassTable(capped: seq<string>, peers: Peers)
    requires AllPositive(capped, peers, Down)
    ensures var t := Classes(capped, peers);
            && TOP_ID in t && DEFAULT_ID in t
            && forall id :: id in t ==>
                 id == TOP_ID || id == DEFAULT_ID || FIRST_MINOR <= id.minor < FIRST_MINOR + |capped|
    ensures forall i :: 0 <= i < |capped| ==> PeerClassAt(Classes(capped, peers), i, Limit(peers, capped[i]))
  {
    hide PeerClassOf;
    if capped != [] {
      var n := |capped| - 1;
      ClassTable(capped[..n], peers);
      forall i | 0 <= i < |capped| ensures PeerClassAt(Classes(capped, peers), i, Limit(peers, capped[i])) {
        if i < n { assert PeerClassAt(Classes(capped[..n], peers), i, Limit(peers, capped[..n][i])); }
      }
    }
  }

  function FlowOf(ip: string, n: nat): Flow {
    Flow(FIRST_FLOW_PRIO + n, AddressOf(ip), ClassId(1, FIRST_MINOR + n))
  }

  function Flows(capped: seq<string>): seq<Flow> {
    seq(|capped|, i requires 0 <= i < |capped| => FlowOf(capped[i], i))
  }

  lemma {:induction false} DownloadReadable(capped: seq<string>, peers: Peers)
    requires AllCanonical(capped) && AllPositive(capped, peers, Down) && |capped| <= MAX_SHAPED
    ensures AllReadable(DownloadPart(capped, peers))
  {
    hide Canonical;
    if capped != [] {
      DownloadReadable(capped[..|capped| - 1], peers);
    }
  }

  predicate Headed(d: Device) {
    d.root == None && d.classes == map[] && d.flows == []
  }

  lemma HeaderRuns(peers: Peers, d: Device)
    requires Headed(d)
    ensures Steps([RootQdisc, TopClass, DefaultClass], d) ==
            Some(d.(root := Some(HTB_ROOT), classes := Classes([], peers)))
  {
    var steps := [RootQdisc, TopClass, DefaultClass];
    assert steps[..2] == [RootQdisc, TopClass] && steps[..2][..1] == [RootQdisc] && steps[..2][..1][..0] == [];
    assert Steps([], d) == Some(d);
    assert Steps([RootQdisc], d) == Some(d.(root := Some(HTB_ROOT)));
  }

  lemma PairRuns(n: nat, ip: string, l: PeerLimit, d: Device)
    requires Canonical(ip) && l.down > 0 && n < MAX_SHAPED
    requires d.root == Some(HTB_ROOT) && TOP_ID in d.classes && ClassId(1, FIRST_MINOR + n) !in d.classes
    ensures AllReadable([PeerClass(FIRST_MINOR + n, l), FlowTo(FIRST_FLOW_PRIO + n, ip, FIRST_MINOR + n)])
    ensures Steps([PeerClass(FIRST_MINOR + n, l), FlowTo(FIRST_FLOW_PRIO + n, ip, FIRST_MINOR + n)], d) ==
            Some(d.(classes := d.classes[ClassId(1, FIRST_MINOR + n) := PeerClassOf(l)],
                    flows := d.flows + [FlowOf(ip, n)]))
  {
    hide Canonical, AddressOf, BurstBytes;
    var steps := [PeerClass(FIRST_MINOR + n, l), FlowTo(FIRST_FLOW_PRIO + n, ip, FIRST_MINOR + n)];
    assert steps[..1] == [PeerClass(FIRST_MINOR + n, l)] && steps[..1][..0] == [];
    assert Steps([], d) == Some(d);
    assert Steps(steps[..1], d) == Some(d.(classes := d.classes[ClassId(1, FIRST_MINOR + n) := PeerClassOf(l)]));
  }

  lemma {:induction false} DownloadRuns(capped: seq<string>, peers: Peers, d: Device)
    requires AllCanonical(capped) && AllPositive(capped, peers, Down) && |capped| <= MAX_SHAPED
    requires d.root == Some(HTB_ROOT) && d.classes == Classes([], peers) && d.flows == []
    ensures AllReadable(DownloadPart(capped, peers))
    ensures Steps(DownloadPart(capped, peers), d) == Some(d.(classes := Classes(capped, peers), flows := Flows(capped)))
  {
    hide PeerClassOf, Canonical, AddressOf, Execute, Steps, Readable, FlowOf;
    DownloadReadable(capped, peers);
    if capped != [] {
      var n := |capped| - 1;
      var init, ip := capped[..n], capped[n];
      DownloadRuns(init, peers, d);
      ClassTable(init, peers);
      var mid := d.(classes := Classes(init, peers), flows := Flows(init));
      PairRuns(n, ip, Limit(peers, ip), mid);
      assert Flows(capped) == Flows(init) + [FlowOf(ip, n)];
      StepsConcat(DownloadPart(init, peers),
        [PeerClass(FIRST_MINOR + n, Limit(peers, ip)), FlowTo(FIRST_FLOW_PRIO + n, ip, FIRST_MINOR + n)], d);
    } else {
      StepsEmpty(d);
      assert Flows(capped) == [];
    }
  }

  /* ---------- upload ---------- */

  /** Policer prios run from 10 to 0xffff. */
  const MAX_POLICED: nat := MAX_PRIO - FIRST_POLICER_PRIO + 1

  function PolicerOf(ip: string, n: nat, l: PeerLimit): Policer
    requires l.up > 0
  {
    Policer(FIRST_POLICER_PRIO + n, AddressOf(ip), RateBits(l.up), BurstBytes(l.burstUp, l.up))
  }

  function Policers(capped: seq<string>, peers: Peers): seq<Policer>
    requires AllPositive(capped, peers, Up)
  {
    seq(|capped|, i requires 0 <= i < |capped| => PolicerOf(capped[i], i, Limit(peers, capped[i])))
  }

  lemma {:induction false} UploadReadable(capped: seq<string>, peers: Peers)
    requires AllCanonical(capped) && AllPositive(capped, peers, Up)
    ensures AllReadable(UploadPart(capped, peers))
  {
    hide Canonical;
    if capped != [] {
      UploadReadable(capped[..|capped| - 1], peers);
    }
  }

  /** Policing runs through exactly when there are prios for all; it stops at the first without. */
  lemma {:induction false} UploadRuns(capped: seq<string>, peers: Peers, d: Device)
    requires AllCanonical(capped) && AllPositive(capped, peers, Up)
    requires d.ingress && d.policers == []
    ensures AllReadable(UploadPart(capped, peers))
    ensures Steps(UploadPart(capped, peers), d) ==
            if |capped| <= MAX_POLICED then Some(d.(policers := Policers(capped, peers))) else None
  {
    hide Canonical, PolicerOf, CommandOf, Execute, Steps;
    UploadReadable(capped, peers);
    if capped == [] {
      StepsEmpty(d);
      assert Policers(capped, peers) == [] && d.(policers := []) == d;
    } else {
      var n := |capped| - 1;
      var init, l := capped[..n], Limit(peers, capped[n]);
      UploadRuns(init, peers, d);
      StepsSnoc(UploadPart(init, peers), Police(FIRST_POLICER_PRIO + n, capped[n], l), d);
      if n <= MAX_POLICED {
        PoliceRuns(n, capped[n], l, d.(policers := Policers(init, peers)));
        assert Policers(capped, peers) == Policers(init, peers) + [PolicerOf(capped[n], n, l)];
      }
    }
  }

  lemma StepsSnoc(steps: seq<Step>, last: Step, d: Device)
    requires AllReadable(steps) && Readable(last)
    ensures AllReadable(steps + [last])
    ensures Steps(steps + [last], d) ==
            match Steps(steps, d) case None => None case Some(d') => Execute(CommandOf(last), d')
  {
    hide Execute, CommandOf, Readable;
    assert (steps + [last])[..|steps|] == steps;
  }

  lemma StepsEmpty(d: Device)
    ensures Steps([], d) == Some(d)
  {
  }

  lemma PoliceRuns(n: nat, ip: string, l: PeerLimit, d: Device)
    requires Canonical(ip) && l.up > 0 && d.ingress
    ensures Execute(CommandOf(Police(FIRST_POLICER_PRIO + n, ip, l)), d) ==
            if n < MAX_POLICED then Some(d.(policers := d.policers + [PolicerOf(ip, n, l)])) else None
  {
    hide Canonical, AddressOf;
  }

  /* ---------- the whole plan ---------- */

  ghost function DownKeys(peers: Peers): seq<string> { Capped(Sorted(peers.Keys), peers, Down) }
  ghost function UpKeys(peers: Peers): seq<string> { Capped(Sorted(peers.Keys), peers, Up) }

  ghost predicate CanonicalPeers(peers: Peers) {
    forall ip :: ip in peers ==> Canonical(ip)
  }

  lemma {:induction false} CappedMembers(keys: seq<string>, peers: Peers, k: Knob)
    ensures forall ip :: ip in Capped(keys, peers, k) <==> ip in keys && Get(Limit(peers, ip), k) > 0
    ensures AllPositive(Capped(keys, peers, k), peers, k)
  {
    hide Get, Limit;
    if keys != [] {
      var n := |keys| - 1;
      CappedMembers(keys[..n], peers, k);
      assert keys == keys[..n] + [keys[n]];
    }
  }

  lemma {:induction false} CappedAscending(keys: seq<string>, peers: Peers, k: Knob)
    requires Ascending(keys)
    ensures Ascending(Capped(keys, peers, k))
  {
    hide Get, Limit, Less;
    if keys != [] {
      var n := |keys| - 1;
      CappedAscending(keys[..n], peers, k);
      CappedMembers(keys[..n], peers, k);
      var init := Capped(keys[..n], peers, k);
      forall i | 0 <= i < |init| ensures Less(init[i], keys[n]) {
        assert init[i] in keys[..n];
        var j :| 0 <= j < n && keys[..n][j] == init[i];
      }
    }
  }

  lemma KeysOf(peers: Peers, k: Knob)
    requires CanonicalPeers(peers)
    ensures var keys := Capped(Sorted(peers.Keys), peers, k);
            && AllPositive(keys, peers, k) && AllCanonical(keys) && Ascending(keys)
            && forall ip :: ip in keys <==> ip in peers && Get(Limit(peers, ip), k) > 0
  {
    SortedAscending(peers.Keys);
    CappedMembers(Sorted(peers.Keys), peers, k);
    CappedAscending(Sorted(peers.Keys), peers, k);
    var keys := Capped(Sorted(peers.Keys), peers, k);
    forall i | 0 <= i < |keys| ensures Canonical(keys[i]) {
      assert keys[i] in keys;
    }
  }

  ghost predicate HasDown(peers: Peers) { DownKeys(peers) != [] }
  ghost predicate HasUp(peers: Peers) { UpKeys(peers) != [] }

  lemma PositiveKeys(peers: Peers)
    ensures AllPositive(Shaped(DownKeys(peers)), peers, Down) && AllPositive(UpKeys(peers), peers, Up)
  {
    CappedMembers(Sorted(peers.Keys), peers, Down);
    CappedMembers(Sorted(peers.Keys), peers, Up);
  }

  /** The tables a successful apply leaves, whatever was there before. */
  ghost function Outcome(peers: Peers): Device {
    PositiveKeys(peers);
    var down, up := Shaped(DownKeys(peers)), UpKeys(peers);
    Device(if HasDown(peers) then Some(HTB_ROOT) else None,
           if HasDown(peers) then Classes(down, peers) else map[],
           if HasDown(peers) then Flows(down) else [],
           HasUp(peers),
           if HasUp(peers) then Policers(up, peers) else [])
  }

  lemma IngressRuns(d: Device)
    requires !d.ingress
    ensures Steps([Ingress], d) == Some(d.(ingress := true))
  {
    var steps := [Ingress];
    assert steps[..0] == [];
    StepsEmpty(d);
  }

  lemma ShapeDownRuns(peers: Peers, d: Device)
    requires CanonicalPeers(peers) && Headed(d)
    ensures var keys := Sorted(peers.Keys);
            && AllReadable(DownloadShape(keys, peers))
            && Steps(DownloadShape(keys, peers), d) ==
               Some(d.(root := Outcome(peers).root, classes := Outcome(peers).classes, flows := Outcome(peers).flows))
  {
    hide Canonical, Execute, CommandOf, Steps, DownloadPart, Capped, Classes, Flows;
    KeysOf(peers, Down);
    var down := Shaped(DownKeys(peers));
    if HasDown(peers) {
      HeaderRuns(peers, d);
      var mid := d.(root := Some(HTB_ROOT), classes := Classes([], peers));
      DownloadRuns(down, peers, mid);
      StepsConcat([RootQdisc, TopClass, DefaultClass], DownloadPart(down, peers), d);
    } else {
      StepsEmpty(d);
    }
  }

  lemma ShapeUpRuns(peers: Peers, d: Device)
    requires CanonicalPeers(peers) && !d.ingress && d.policers == []
    ensures var keys := Sorted(peers.Keys);
            && AllReadable(UploadShape(keys, peers))
            && Steps(UploadShape(keys, peers), d) ==
               if |UpKeys(peers)| <= MAX_POLICED
               then Some(d.(ingress := Outcome(peers).ingress, policers := Outcome(peers).policers)) else None
  {
    hide Canonical, Execute, CommandOf, Steps, UploadPart, Capped, Policers;
    KeysOf(peers, Up);
    if HasUp(peers) {
      IngressRuns(d);
      UploadRuns(UpKeys(peers), peers, d.(ingress := true));
      StepsConcat([Ingress], UploadPart(UpKeys(peers), peers), d);
    } else {
      StepsEmpty(d);
    }
  }

  lemma TeardownRuns(prior: Device)
    ensures AllReadable([Teardown(INGRESS), Teardown(ROOT)])
    ensures Steps([Teardown(INGRESS), Teardown(ROOT)], prior) == Some(CLEAN)
  {
    var steps := [Teardown(INGRESS), Teardown(ROOT)];
    assert steps[..1] == [Teardown(INGRESS)] && steps[..1][..0] == [];
    assert Steps([], prior) == Some(prior);
    assert Steps([Teardown(INGRESS)], prior) == Some(prior.(ingress := false, policers := []));
  }

  const CLEAN := Device(None, map[], [], false, [])

  lemma ShapeRuns(peers: Peers)
    requires CanonicalPeers(peers)
    ensures var keys := Sorted(peers.Keys);
            && AllReadable(DownloadShape(keys, peers) + UploadShape(keys, peers))
            && Steps(DownloadShape(keys, peers) + UploadShape(keys, peers), CLEAN) ==
               if |UpKeys(peers)| <= MAX_POLICED then Some(Outcome(peers)) else None
  {
    hide Steps, DownloadShape, UploadShape, Outcome, UpKeys, Sorted;
    var keys, o := Sorted(peers.Keys), Outcome(peers);
    ShapeDownRuns(peers, CLEAN);
    var mid := CLEAN.(root := o.root, classes := o.classes, flows := o.flows);
    ShapeUpRuns(peers, mid);
    StepsConcat(DownloadShape(keys, peers), UploadShape(keys, peers), CLEAN);
    assert mid.(ingress := o.ingress, policers := o.policers) == o;
  }

  /** Running a plan from any prior tables ends in the same tables, so running it twice changes
      nothing; it fails exactly when more sources need a policer than there are prios. */
  lemma PlanRuns(iface: string, peers: Peers, prior: Device)
    requires PlainName(iface) && CanonicalPeers(peers)
    ensures Run(Render(iface, PlanSpec(iface, peers)), iface, prior) ==
            if |UpKeys(peers)| <= 65526 then Some(Outcome(peers)) else None
  {
    hide Steps, DownloadShape, UploadShape, Run, Render, Outcome, UpKeys, Sorted, Readable;
    var keys := Sorted(peers.Keys);
    TeardownRuns(prior);
    ShapeRuns(peers);
    StepsConcat([Teardown(INGRESS), Teardown(ROOT)], DownloadShape(keys, peers) + UploadShape(keys, peers), prior);
    RunIsSteps(iface, PlanSpec(iface, peers), prior);
  }

  /* ---------- what packets meet ---------- */

  lemma {:induction false} FlowsBefore(flows: seq<Flow>, i: nat, dst: Address)
    requires i < |flows| && flows[i].dst == dst
    requires forall j :: 0 <= j < |flows| && j != i ==> flows[j].dst != dst
    ensures BestFlow(flows, dst) == Some(flows[i])
  {
    if i == 0 {
      NoFlow(flows[1..], dst);
    } else {
      FlowsBefore(flows[1..], i - 1, dst);
    }
  }

  lemma {:induction false} NoFlow(flows: seq<Flow>, dst: Address)
    requires forall j :: 0 <= j < |flows| ==> flows[j].dst != dst
    ensures BestFlow(flows, dst) == None
  {
    if flows != [] {
      NoFlow(flows[1..], dst);
    }
  }

  lemma {:induction false} OnePolicer(policers: seq<Policer>, i: nat, src: Address)
    requires i < |policers| && policers[i].src == src
    requires forall j :: 0 <= j < |policers| && j != i ==> policers[j].src != src
    ensures PolicedBy(policers, src) == Some(policers[i])
  {
    if i == 0 {
      NoPolicer(policers[1..], src);
    } else {
      OnePolicer(policers[1..], i - 1, src);
    }
  }

  lemma {:induction false} NoPolicer(policers: seq<Policer>, src: Address)
    requires forall j :: 0 <= j < |policers| ==> policers[j].src != src
    ensures PolicedBy(policers, src) == None
  {
    if policers != [] {
      NoPolicer(policers[1..], src);
    }
  }

  /** Different strings in an ascending list of canonical addresses are different addresses. */
  lemma DistinctAddresses(keys: seq<string>, i: nat, j: nat)
    requires AllCanonical(keys) && Ascending(keys) && i < |keys| && j < |keys| && i != j
    ensures AddressOf(keys[i]) != AddressOf(keys[j])
  {
    hide Canonical, AddressOf, Dotted;
    var lo, hi := if i < j then i else j, if i < j then j else i;
    AddressText(keys[i]);
    AddressText(keys[j]);
    assert Less(keys[lo], keys[hi]);
    LessIrreflexive(keys[lo]);
  }

  /** The class holds its traffic to the cap: rate and ceiling are that of the cap, and the burst, when one
      is configured, that of the smaller of it and the cap. */
  predicate ClassHolds(c: Class, l: PeerLimit) {
    && c.parent == ClassId(1, 1) && c.rate == c.ceil && RateFor(c.rate, l.down) && c.prio == 5
    && (if l.burstDown <= 0 then c.burst == None
        else c.burst.Some? && BurstFor(c.burst.value, if l.burstDown < l.down then l.burstDown else l.down))
  }

  lemma PeerClassHolds(l: PeerLimit)
    requires l.down > 0
    ensures ClassHolds(PeerClassOf(l), l)
  {
    hide RateFor, BurstFor, RateBits, BurstBytes;
    RateAccuracy(l.down);
    BurstAccuracy(l.burstDown, l.down);
  }

  /** Download: the i-th capped peer (in address-text order) has a class of its own whose rate
      and ceiling are its cap, for the first 65181 of them. */
  lemma CappedDownload(peers: Peers, i: nat)
    requires CanonicalPeers(peers) && i < |DownKeys(peers)| && i < 65181
    ensures var id := ClassId(1, 100 + i);
            && Classify(Outcome(peers), AddressOf(DownKeys(peers)[i])) == InClass(id)
            && id in Outcome(peers).classes && ClassHolds(Outcome(peers).classes[id], Limit(peers, DownKeys(peers)[i]))
  {
    hide ClassHolds, Classify, Outcome, AddressOf, Capped, Canonical;
    CappedClass(peers, i);
    CappedFlow(peers, i);
  }

  lemma CappedClass(peers: Peers, i: nat)
    requires CanonicalPeers(peers) && i < |DownKeys(peers)| && i < 65181
    ensures ClassId(1, 100 + i) in Outcome(peers).classes
    ensures ClassHolds(Outcome(peers).classes[ClassId(1, 100 + i)], Limit(peers, DownKeys(peers)[i]))
  {
    hide Canonical, Capped, Classes, PeerClassOf, ClassHolds, Flows;
    PositiveKeys(peers);
    var shaped := Shaped(DownKeys(peers));
    ClassTable(shaped, peers);
    assert PeerClassAt(Classes(shaped, peers), i, Limit(peers, shaped[i]));
    PeerClassHolds(Limit(peers, shaped[i]));
  }

  lemma CappedFlow(peers: Peers, i: nat)
    requires CanonicalPeers(peers) && i < |DownKeys(peers)| && i < 65181
    ensures Classify(Outcome(peers), AddressOf(DownKeys(peers)[i])) == InClass(ClassId(1, 100 + i))
  {
    hide Canonical, AddressOf, Dotted, Capped, Classes, ClassHolds, Less, Policers;
    KeysOf(peers, Down);
    CappedClass(peers, i);
    var shaped := Shaped(DownKeys(peers));
    assert shaped[i] == DownKeys(peers)[i] && DownKeys(peers) != [];
    forall j | 0 <= j < |shaped| && j != i ensures Flows(shaped)[j].dst != AddressOf(shaped[i]) {
      DistinctAddresses(shaped, i, j);
    }
    FlowsBefore(Flows(shaped), i, AddressOf(shaped[i]));
  }

  /** Every other packet is in default class 1:30, with 100 Gbit/s, or unshaped when nobody has a download
      cap. */
  lemma UncappedDownload(peers: Peers, dst: Address)
    requires CanonicalPeers(peers)
    requires forall i :: 0 <= i < |DownKeys(peers)| && i < 65181 ==> DownKeys(peers)[i] != Dotted(dst)
    ensures if DownKeys(peers) == [] then Classify(Outcome(peers), dst) == Unshaped
            else Classify(Outcome(peers), dst) == InClass(ClassId(1, 0x30)) && OpenDefault(Outcome(peers).classes)
  {
    hide Canonical, AddressOf, Dotted, RateBits, Capped, Classes, PeerClassOf;
    KeysOf(peers, Down);
    var shaped := Shaped(DownKeys(peers));
    if HasDown(peers) {
      ClassTable(shaped, peers);
      DefaultStays(shaped, peers);
      forall j | 0 <= j < |shaped| ensures Flows(shaped)[j].dst != dst { AddressText(shaped[j]); }
      NoFlow(Flows(shaped), dst);
    }
  }

  predicate OpenDefault(classes: map<ClassId, Class>) {
    && ClassId(1, 0x30) in classes
    && classes[ClassId(1, 0x30)].rate == classes[ClassId(1, 0x30)].ceil == 100_000_000_000
  }

  lemma {:induction false} DefaultStays(capped: seq<string>, peers: Peers)
    requires AllPositive(capped, peers, Down)
    ensures OpenDefault(Classes(capped, peers))
  {
    hide PeerClassOf;
    if capped != [] { DefaultStays(capped[..|capped| - 1], peers); }
  }

  /** Upload: a packet meets a policer exactly when its source is capped, at that cap's rate, and with the
      burst of the smaller of the configured one, if any, and the cap. */
  lemma UploadVerdict(peers: Peers, src: Address)
    requires CanonicalPeers(peers)
    ensures var met, ip := PolicedBy(Outcome(peers).policers, src), Dotted(src);
            && (met.Some? <==> ip in peers && peers[ip].up > 0)
            && (met.Some? ==> PolicerHolds(met.value, peers[ip]))
  {
    UploadPolicer(peers, src);
    if Dotted(src) in peers && peers[Dotted(src)].up > 0 {
      hide RateFor, BurstFor, RateBits, BurstBytes, PolicedBy, Outcome, Dotted;
      RateAccuracy(peers[Dotted(src)].up);
      BurstAccuracy(peers[Dotted(src)].burstUp, peers[Dotted(src)].up);
    }
  }

  predicate PolicerHolds(p: Policer, l: PeerLimit) {
    && RateFor(p.rate, l.up)
    && BurstFor(p.burst, if 0 < l.burstUp < l.up then l.burstUp else l.up)
  }

  lemma UploadPolicer(peers: Peers, src: Address)
    requires CanonicalPeers(peers)
    ensures var met, ip := PolicedBy(Outcome(peers).policers, src), Dotted(src);
            && (met.Some? <==> ip in peers && peers[ip].up > 0)
            && (met.Some? ==> met.value.rate == RateBits(peers[ip].up)
                              && met.value.burst == BurstBytes(peers[ip].burstUp, peers[ip].up))
  {
    hide Canonical, AddressOf, Dotted, RateBits, BurstBytes, Capped;
    KeysOf(peers, Up);
    var up, ip := UpKeys(peers), Dotted(src);
    if ip in up {
      AddressOfDotted(src);
      var i :| 0 <= i < |up| && up[i] == ip;
      forall j | 0 <= j < |up| && j != i ensures Policers(up, peers)[j].src != src {
        DistinctAddresses(up, i, j);
      }
      OnePolicer(Policers(up, peers), i, src);
    } else if up != [] {
      forall j | 0 <= j < |up| ensures Policers(up, peers)[j].src != src {
        assert up[j] in up;
        AddressText(up[j]);
      }
      NoPolicer(Policers(up, peers), src);
    }
  }

  /** A packet to `a` is held to the download cap, or is not held at all when there is none. */
  predicate DownloadHeld(d: Device, a: Address, l: PeerLimit) {
    var v := Classify(d, a);
    if l.down > 0 then v.InClass? && v.id in d.classes && v.id.minor >= 100 && ClassHolds(d.classes[v.id], l)
    else v == Unshaped || (v == InClass(ClassId(1, 0x30)) && OpenDefault(d.classes))
  }

  /** A packet from `a` meets a policer at the upload cap, or none. */
  predicate UploadHeld(d: Device, a: Address, l: PeerLimit) {
    var met := PolicedBy(d.policers, a);
    if l.up > 0 then met.Some? && PolicerHolds(met.value, l) else met.None?
  }

  lemma RowsReachPackets(rows: seq<Row>, iface: string, prior: Device, a: Address)
    requires PlainName(iface)
    requires forall r :: r in rows && r.ip != "" ==> Canonical(r.ip)
    requires |Fold(rows)| <= 65181
    ensures var result := Run(Render(iface, PlanSpec(iface, Fold(rows))), iface, prior);
            var caps := Limit(Fold(rows), Dotted(a));
            result.Some? && DownloadHeld(result.value, a, caps) && UploadHeld(result.value, a, caps)
  {
    hide Run, Render, Outcome, Fold, Canonical, Dotted, DownloadHeld, UploadHeld, PlanSpec, Capped;
    var peers := Fold(rows);
    FoldCanonical(rows);
    FewKeys(peers, Down);
    FewKeys(peers, Up);
    PlanRuns(iface, peers, prior);
    Outcomes(peers, a);
  }

  /** From the stored users, memberships and presets to the packet: after an apply with at most 65181
      capped peers, a packet to a tunnel address is held to the least download cap that a group of an
      enabled user with the address sets (and to nothing when none does), and a packet from it to the
      least upload cap, each with the least burst set for its direction. */
  lemma CapsReachPackets(t: PcqJoin.Tables, rows: seq<Row>, iface: string, prior: Device, a: Address)
    requires PcqJoin.Selects(rows, t) && PlainName(iface)
    requires forall u :: u in t.users && t.users[u].ip != "" ==> Canonical(t.users[u].ip)
    requires |Fold(rows)| <= 65181
    ensures var result := Run(Render(iface, PlanSpec(iface, Fold(rows))), iface, prior);
            result.Some? && exists caps: PeerLimit ::
              && (forall k: Knob :: PcqJoin.LeastCap(Get(caps, k), t, Dotted(a), k))
              && DownloadHeld(result.value, a, caps) && UploadHeld(result.value, a, caps)
  {
    hide Run, Render, Fold, Canonical, Dotted, DownloadHeld, UploadHeld, IsLeast, PlanSpec, PcqJoin.LeastCap;
    forall r | r in rows && r.ip != "" ensures Canonical(r.ip) {
      assert r in PcqJoin.Joined(t);
    }
    RowsReachPackets(rows, iface, prior, a);
    DottedSome(a);
    var caps := Limit(Fold(rows), Dotted(a));
    forall k: Knob ensures PcqJoin.LeastCap(Get(caps, k), t, Dotted(a), k) {
      FoldIsLeast(rows, Dotted(a), k);
      PcqJoin.LeastOfJoin(rows, t, Dotted(a), k, Get(caps, k));
    }
  }

  lemma DottedSome(a: Address)
    ensures Dotted(a) != ""
  {
  }

  lemma Outcomes(peers: Peers, a: Address)
    requires CanonicalPeers(peers) && |DownKeys(peers)| <= 65181
    ensures DownloadHeld(Outcome(peers), a, Limit(peers, Dotted(a)))
    ensures UploadHeld(Outcome(peers), a, Limit(peers, Dotted(a)))
  {
    hide Outcome, Classify, PolicedBy, Canonical, Capped, Dotted, AddressOf, ClassHolds, PolicerHolds, OpenDefault;
    KeysOf(peers, Down);
    var down, ip := DownKeys(peers), Dotted(a);
    if ip in down {
      var i :| 0 <= i < |down| && down[i] == ip;
      AddressOfDotted(a);
      CappedDownload(peers, i);
    } else {
      UncappedDownload(peers, a);
    }
    UploadVerdict(peers, a);
  }

  lemma {:induction false} FoldCanonical(rows: seq<Row>)
    requires forall r :: r in rows && r.ip != "" ==> Canonical(r.ip)
    ensures CanonicalPeers(Fold(rows))
  {
    hide Canonical;
    if rows != [] {
      LastOf(rows);
      FoldCanonical(rows[..|rows| - 1]);
    }
  }

  lemma {:induction false} CappedLength(keys: seq<string>, peers: Peers, k: Knob)
    ensures |Capped(keys, peers, k)| <= |keys|
  {
    if keys != [] {
      CappedLength(keys[..|keys| - 1], peers, k);
    }
  }

  lemma FewKeys(peers: Peers, k: Knob)
    ensures |Capped(Sorted(peers.Keys), peers, k)| <= |peers|
  {
    CappedLength(Sorted(peers.Keys), peers, k);
  }

  /** Filters are numbered in the order of the addresses: downloads from 50, uploads from 10. */
  lemma FilterNumbers(peers: Peers, i: nat)
    requires CanonicalPeers(peers)
    ensures i < |Outcome(peers).flows| ==>
              && i < |DownKeys(peers)|
              && Outcome(peers).flows[i] == Flow(50 + i, AddressOf(DownKeys(peers)[i]), ClassId(1, 100 + i))
    ensures i < |Outcome(peers).policers| ==>
              && i < |UpKeys(peers)|
              && Outcome(peers).policers[i].prio == 10 + i
              && Outcome(peers).policers[i].src == AddressOf(UpKeys(peers)[i])
    ensures |Outcome(peers).flows| == (if |DownKeys(peers)| < 65181 then |DownKeys(peers)| else 65181)
    ensures |Outcome(peers).policers| == |UpKeys(peers)|
  {
    hide Canonical, AddressOf, Capped, Classes, RateBits, BurstBytes;
    PositiveKeys(peers);
  }
}
