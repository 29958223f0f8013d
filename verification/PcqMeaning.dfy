/** What a plan means: running its commands in the `tc` interpreter, and what the resulting
    tables do to packets, down to the caps stored per group. */
module PcqMeaning {
  import opened Text
  import opened IPv4
  import opened PcqLoad
  import opened PcqPlan
  import opened Tc
  import opened TcWords

  const TOP_ID := ClassId(1, 1)
  const DEFAULT_MINOR: nat := 0x30
  const DEFAULT_ID := ClassId(1, DEFAULT_MINOR)
  const ROOT_RATE: nat := 100_000_000_000

  function AddressOf(ip: string): Address {
    match ParseDotted(ip) case Some(a) => a case None => 0
  }

  lemma AddressText(ip: string)
    requires Canonical(ip)
    ensures Dotted(AddressOf(ip)) == ip && ParseDotted(ip) == Some(AddressOf(ip))
  {
    hide Dotted, ParseDotted;
    CanonicalReads(ip);
  }

  lemma AddressOfDotted(a: Address)
    ensures AddressOf(Dotted(a)) == a && Canonical(Dotted(a))
  {
    DottedRoundTrip(a);
  }

  function PeerClassOf(l: PeerLimit): Class
    requires l.down > 0
  {
    Class(TOP_ID, RateBits(l.down), RateBits(l.down), 5,
          if l.burstDown > 0 then Some(BurstBytes(l.burstDown, l.down)) else None)
  }

  /** Steps whose arguments `tc` accepts as written. */
  ghost predicate Readable(s: Step) {
    match s
    case Teardown(what) => what == INGRESS || what == ROOT
    case PeerClass(minor, l) => minor <= MAX_HANDLE && l.down > 0
    case FlowTo(_, ip, minor) => Canonical(ip) && minor <= MAX_HANDLE
    case Police(_, ip, l) => Canonical(ip) && l.up > 0
    case _ => true
  }

  /** The command a step stands for. */
  function CommandOf(s: Step): Command
    requires Readable(s)
  {
    match s
    case Teardown(what) => if what == INGRESS then DelIngress else DelRoot
    case RootQdisc => AddHtb(Root(1, DEFAULT_MINOR))
    case TopClass => AddClass(TOP_ID, Class(ClassId(1, 0), ROOT_RATE, ROOT_RATE, 0, None))
    case DefaultClass => AddClass(DEFAULT_ID, Class(TOP_ID, ROOT_RATE, ROOT_RATE, 7, None))
    case PeerClass(minor, l) => AddClass(ClassId(1, minor), PeerClassOf(l))
    case FlowTo(prio, ip, minor) => AddFlow(1, Flow(prio, AddressOf(ip), ClassId(1, minor)))
    case Ingress => AddIngress
    case Police(prio, ip, l) => AddPolicer(Policer(prio, AddressOf(ip), RateBits(l.up), BurstBytes(l.burstUp, l.up)))
  }

  /* ---------- the text of each argument reads back ---------- */

  lemma ReadOne(t: string)
    requires ':' !in t
    ensures ReadClassId("1:" + t) ==
            match (if t == "" then Some(0) else ReadHex(t)) case Some(m) => Some(ClassId(1, m)) case None => None
  {
    assert "1:" + t == "1" + [':'] + t;
    SplitCons("1", ':', t);
    assert Split(t, ':') == [t];
    assert FromBase("1", 16) == Some(1);
  }

  lemma ReadConstants()
    ensures ReadClassId("1:") == Some(ClassId(1, 0))
    ensures ReadClassId("1:1") == Some(TOP_ID)
    ensures ReadClassId("1:30") == Some(DEFAULT_ID)
    ensures ReadHex("30") == Some(DEFAULT_MINOR)
  {
    hide ReadClassId, ReadHex;
    ReadThirty();
    ReadOne("");
    ReadOne("1");
    ReadOne("30");
    assert "1:" + "" == "1:" && "1:" + "1" == "1:1" && "1:" + "30" == "1:30";
    assert ReadHex("1") == Some(1) by { ReadDigit(); }
  }

  lemma ReadDigit()
    ensures ReadHex("1") == Some(1)
  {
    assert FromBase("1", 16) == Some(1);
  }

  lemma ReadThirty()
    ensures ReadHex("30") == Some(DEFAULT_MINOR)
  {
    assert "30"[..1] == "3";
    assert FromBase("3", 16) == Some(3);
  }

  lemma {:induction false} HexChars(n: nat)
    ensures ':' !in Hex(n) && Hex(n) != ""
    decreases n
  {
    DivMod(n, 16);
    if n >= 16 {
      HexChars(n / 16);
    }
  }

  /** Class names are read back as the number printed, so different minors never collide. */
  lemma ReadClassName(minor: nat)
    requires minor <= MAX_HANDLE
    ensures ReadClassId(ClassName(minor)) == Some(ClassId(1, minor))
  {
    HexChars(minor);
    BaseRoundTrip(minor, 16);
    ReadOne(Hex(minor));
  }

  lemma ReadBits(n: nat)
    ensures ReadRate(Decimal(n) + "bit") == Some(n)
  {
    hide ToBase, FromBase;
    var s := Decimal(n) + "bit";
    DropSuffixOf(Decimal(n), "bit");
    BaseRoundTrip(n, 10);
    DecimalChars(n);
    assert s[|s| - 4] == Decimal(n)[|Decimal(n)| - 1];
    assert s[|s| - 4..][0] != 'm';
    assert "mbit"[0] == 'm';
  }

  lemma RootCeilText()
    ensures ROOT_CEIL == Decimal(100_000) + "mbit"
  {
    assert Decimal(1) == "1";
    assert Decimal(10) == "10";
    assert Decimal(100) == "100";
    assert Decimal(1000) == "1000";
    assert Decimal(10_000) == "10000";
    assert Decimal(100_000) == "100000";
  }

  lemma ReadRootCeil()
    ensures ReadRate(ROOT_CEIL) == Some(ROOT_RATE)
  {
    hide ToBase;
    RootCeilText();
    BaseRoundTrip(100_000, 10);
    DropSuffixOf(Decimal(100_000), "mbit");
  }

  lemma ReadTunnel(ip: string)
    requires Canonical(ip)
    ensures ReadHost(ip + "/32") == Some(AddressOf(ip))
  {
    hide ParseDotted, Dotted, AddressOf;
    AddressText(ip);
    DropSuffixOf(ip, "/32");
  }

  lemma WordsDiffer()
    ensures Spell(ROOT) != Spell(INGRESS) && Spell(PARENT) != Spell(PROTOCOL)
    ensures Spell(QDISC) != Spell(CLASS) && Spell(QDISC) != Spell(FILTER) && Spell(CLASS) != Spell(FILTER)
  {
    assert Spell(QDISC)[0] != Spell(CLASS)[0];
  }

  lemma ReadTeardown(iface: string, what: Word)
    requires PlainName(iface) && Readable(Teardown(what))
    ensures ReadShell(Join(TeardownLine(iface, what), ' '), iface) == Some(CommandOf(Teardown(what)))
  {
    hide Spell, Join;
    SplitWords(iface, what);
    WordsDiffer();
  }

  lemma WordsUnspaced()
    ensures forall w :: ' ' !in Spell(w)
  {
    hide Spell;
    forall w ensures ' ' !in Spell(w) {
      if |Spell(w)| <= 4 { ShortUnspaced(w); }
      else if |Spell(w)| <= 6 { MiddleUnspaced(w); }
      else if |Spell(w)| <= 8 { LongerUnspaced(w); }
      else { LongUnspaced(w); }
    }
  }

  lemma ShortUnspaced(w: Word)
    requires |Spell(w)| <= 4
    ensures ' ' !in Spell(w)
  {
  }

  lemma MiddleUnspaced(w: Word)
    requires 5 <= |Spell(w)| <= 6
    ensures ' ' !in Spell(w)
  {
  }

  lemma LongerUnspaced(w: Word)
    requires 7 <= |Spell(w)| <= 8
    ensures ' ' !in Spell(w)
  {
  }

  lemma LongUnspaced(w: Word)
    requires |Spell(w)| > 8
    ensures ' ' !in Spell(w)
  {
  }

  lemma NameUnspaced(iface: string)
    requires PlainName(iface)
    ensures ' ' !in iface
  {
  }

  lemma SplitWords(iface: string, what: Word)
    requires PlainName(iface) && Readable(Teardown(what))
    ensures Split(Join(TeardownLine(iface, what), ' '), ' ') == TeardownLine(iface, what)
  {
    hide Spell, Join, PlainName;
    WordsUnspaced();
    assert ' ' !in iface by { NameUnspaced(iface); }
    SplitJoin(TeardownLine(iface, what), ' ');
  }

  lemma ReadQdiscs(iface: string)
    ensures ReadCommand(Argv(iface, RootQdisc), iface) == Some(CommandOf(RootQdisc))
    ensures ReadCommand(Argv(iface, Ingress), iface) == Some(CommandOf(Ingress))
  {
    hide Spell, ReadClassId, ReadHex;
    ReadConstants();
    assert Argv(iface, RootQdisc)[5..] == [Spell(ROOT), Spell(HANDLE), "1:", Spell(HTB), Spell(DEFAULT), "30"];
    assert Argv(iface, Ingress)[5..] == [Spell(HANDLE), Spell(INGRESS_HANDLE), Spell(INGRESS)];
  }

  lemma ReadFixedClasses(iface: string)
    ensures ReadCommand(Argv(iface, TopClass), iface) == Some(CommandOf(TopClass))
    ensures ReadCommand(Argv(iface, DefaultClass), iface) == Some(CommandOf(DefaultClass))
  {
    hide ReadCommand, Argv, CommandOf;
    ReadTopClass(iface);
    ReadDefaultClass(iface);
  }

  lemma ReadTopClass(iface: string)
    ensures ReadCommand(Argv(iface, TopClass), iface) == Some(CommandOf(TopClass))
  {
    hide Spell, ReadClassId, ReadRate;
    ReadConstants();
    ReadRootCeil();
    WordsDiffer();
    assert Argv(iface, TopClass)[5..][5..] == [Spell(RATE), ROOT_CEIL, Spell(CEIL), ROOT_CEIL];
  }

  lemma ReadDefaultClass(iface: string)
    ensures ReadCommand(Argv(iface, DefaultClass), iface) == Some(CommandOf(DefaultClass))
  {
    hide Spell, ReadClassId, ReadRate, FromBase;
    ReadConstants();
    ReadRootCeil();
    WordsDiffer();
    assert Argv(iface, DefaultClass)[5..][5..] == [Spell(RATE), ROOT_CEIL, Spell(CEIL), ROOT_CEIL, Spell(PRIO), "7"];
    PrioDigits();
  }

  lemma PrioDigits()
    ensures FromBase("5", 10) == Some(5) && FromBase("7", 10) == Some(7)
  {
  }

  function PeerShapeArgs(l: PeerLimit): seq<string> {
    [Spell(RATE), RateSpec(l.down), Spell(CEIL), RateSpec(l.down), Spell(PRIO), "5"] +
    if l.burstDown > 0 then
      var b := Decimal(BurstBytes(l.burstDown, l.down));
      [Spell(BURST), b, Spell(CBURST), b]
    else []
  }

  lemma ReadPeerShape(l: PeerLimit)
    requires l.down > 0
    ensures ReadShape(TOP_ID, PeerShapeArgs(l)) == Some(PeerClassOf(l))
  {
    hide Spell, ReadRate, FromBase, ToBase;
    ReadBits(RateBits(l.down));
    PrioDigits();
    BaseRoundTrip(BurstBytes(l.burstDown, l.down), 10);
  }

  function Prefix(iface: string, object_: Word): seq<string> {
    [Spell(TC), Spell(object_), Spell(ADD), Spell(DEV), iface]
  }

  /** A command is read by the object it names, from its sixth word on. */
  lemma Dispatch(iface: string, object_: Word, rest: seq<string>)
    requires rest != [] && object_ in {CLASS, FILTER}
    ensures ReadCommand(Prefix(iface, object_) + rest, iface) ==
            if object_ == CLASS then ReadClass(rest)
            else if rest[0] == Spell(PROTOCOL) then ReadFlow(rest) else ReadPolicer(rest)
  {
    hide Spell, ReadClass, ReadFlow, ReadPolicer;
    WordsDiffer();
    assert (Prefix(iface, object_) + rest)[5..] == rest;
  }

  lemma ReadClassArgs(parent: string, id: string, shape: seq<string>, p: ClassId, i: ClassId, c: Class)
    requires ReadClassId(parent) == Some(p) && ReadClassId(id) == Some(i) && ReadShape(p, shape) == Some(c)
    ensures ReadClass([Spell(PARENT), parent, Spell(CLASSID), id, Spell(HTB)] + shape) == Some(AddClass(i, c))
  {
    hide Spell, ReadClassId, ReadShape;
    assert ([Spell(PARENT), parent, Spell(CLASSID), id, Spell(HTB)] + shape)[5..] == shape;
  }

  lemma PeerClassArgv(iface: string, minor: nat, l: PeerLimit)
    ensures Argv(iface, PeerClass(minor, l)) ==
            Prefix(iface, CLASS) +
            ([Spell(PARENT), "1:1", Spell(CLASSID), ClassName(minor), Spell(HTB)] + PeerShapeArgs(l))
  {
    hide Spell, Decimal, ClassName, RateSpec, BurstBytes;
  }

  lemma ReadPeerClass(iface: string, minor: nat, l: PeerLimit)
    requires Readable(PeerClass(minor, l))
    ensures ReadCommand(Argv(iface, PeerClass(minor, l)), iface) == Some(CommandOf(PeerClass(minor, l)))
  {
    hide Spell, Argv, ReadClassId, ReadClass, ReadShape, ReadCommand, PeerShapeArgs;
    ReadConstants();
    ReadClassName(minor);
    ReadPeerShape(l);
    PeerClassArgv(iface, minor, l);
    ReadClassArgs("1:1", ClassName(minor), PeerShapeArgs(l), TOP_ID, ClassId(1, minor), PeerClassOf(l));
    Dispatch(iface, CLASS, [Spell(PARENT), "1:1", Spell(CLASSID), ClassName(minor), Spell(HTB)] + PeerShapeArgs(l));
  }

  function FlowArgs(root: string, prio: string, host: string, target: string): seq<string> {
    [Spell(PROTOCOL), Spell(IP), Spell(PARENT), root, Spell(PRIO), prio, Spell(U32),
     Spell(MATCH), Spell(IP), Spell(DST), host, Spell(FLOWID), target]
  }

  lemma ReadFlowArgs(root: string, prio: string, host: string, target: string, h: ClassId, n: nat, dst: Address,
                     t: ClassId)
    requires ReadClassId(root) == Some(h) && FromBase(prio, 10) == Some(n)
    requires ReadHost(host) == Some(dst) && ReadClassId(target) == Some(t)
    ensures ReadFlow(FlowArgs(root, prio, host, target)) == Some(AddFlow(h.major, Flow(n, dst, t)))
  {
    hide Spell, ReadClassId, ReadHost, FromBase;
  }

  lemma FlowArgv(iface: string, prio: nat, ip: string, minor: nat)
    ensures Argv(iface, FlowTo(prio, ip, minor)) ==
            Prefix(iface, FILTER) + FlowArgs("1:", Decimal(prio), ip + "/32", ClassName(minor))
  {
    hide Spell, Decimal, ClassName;
  }

  lemma ReadFlowTo(iface: string, prio: nat, ip: string, minor: nat)
    requires Readable(FlowTo(prio, ip, minor))
    ensures ReadCommand(Argv(iface, FlowTo(prio, ip, minor)), iface) == Some(CommandOf(FlowTo(prio, ip, minor)))
  {
    hide Spell, Argv, ReadCommand, ReadFlow, ReadPolicer, ReadClassId, ReadHost, FromBase;
    ReadConstants();
    ReadClassName(minor);
    ReadTunnel(ip);
    BaseRoundTrip(prio, 10);
    var rest := FlowArgs("1:", Decimal(prio), ip + "/32", ClassName(minor));
    ReadFlowArgs("1:", Decimal(prio), ip + "/32", ClassName(minor), ClassId(1, 0), prio, AddressOf(ip),
                 ClassId(1, minor));
    FlowArgv(iface, prio, ip, minor);
    Dispatch(iface, FILTER, rest);
  }

  function PolicerArgs(prio: string, host: string, rate: string, burst: string): seq<string> {
    [Spell(PARENT), Spell(INGRESS_HANDLE), Spell(PROTOCOL), Spell(IP), Spell(PRIO), prio, Spell(U32),
     Spell(MATCH), Spell(IP), Spell(SRC), host, Spell(POLICE), Spell(RATE), rate, Spell(BURST), burst,
     Spell(MTU), Spell(MTU_BYTES), Spell(CONFORM_EXCEED), Spell(DROP)]
  }

  lemma ReadPolicerArgs(prio: string, host: string, rate: string, burst: string, n: nat, src: Address, r: nat, b: nat)
    requires FromBase(prio, 10) == Some(n) && ReadHost(host) == Some(src)
    requires ReadRate(rate) == Some(r) && FromBase(burst, 10) == Some(b)
    ensures ReadPolicer(PolicerArgs(prio, host, rate, burst)) == Some(AddPolicer(Policer(n, src, r, b)))
  {
    hide Spell, ReadRate, ReadHost, FromBase;
  }

  lemma PoliceArgv(iface: string, prio: nat, ip: string, l: PeerLimit)
    ensures Argv(iface, Police(prio, ip, l)) ==
            Prefix(iface, FILTER) +
            PolicerArgs(Decimal(prio), ip + "/32", RateSpec(l.up), Decimal(BurstBytes(l.burstUp, l.up)))
  {
    hide Spell, Decimal, RateSpec, BurstBytes;
  }

  lemma ReadPolice(iface: string, prio: nat, ip: string, l: PeerLimit)
    requires Readable(Police(prio, ip, l))
    ensures ReadCommand(Argv(iface, Police(prio, ip, l)), iface) == Some(CommandOf(Police(prio, ip, l)))
  {
    hide Spell, Argv, ReadCommand, ReadFlow, ReadPolicer, ReadRate, ReadHost, FromBase;
    var burst := BurstBytes(l.burstUp, l.up);
    ReadBits(RateBits(l.up));
    ReadTunnel(ip);
    BaseRoundTrip(prio, 10);
    BaseRoundTrip(burst, 10);
    WordsDiffer();
    var rest := PolicerArgs(Decimal(prio), ip + "/32", RateSpec(l.up), Decimal(burst));
    ReadPolicerArgs(Decimal(prio), ip + "/32", RateSpec(l.up), Decimal(burst), prio, AddressOf(ip), RateBits(l.up),
                    burst);
    PoliceArgv(iface, prio, ip, l);
    Dispatch(iface, FILTER, rest);
  }

  lemma ReadTeardownStep(iface: string, what: Word)
    requires PlainName(iface) && Readable(Teardown(what))
    ensures ReadCommand(Argv(iface, Teardown(what)), iface) == Some(CommandOf(Teardown(what)))
  {
    hide ReadShell, Spell, Join;
    ReadTeardown(iface, what);
  }

  /** Every step the planner writes is read back as the command it stands for. */
  lemma ReadStep(iface: string, s: Step)
    requires PlainName(iface) && Readable(s)
    ensures ReadCommand(Argv(iface, s), iface) == Some(CommandOf(s))
  {
    hide Argv, ReadCommand;
    match s
    case Teardown(what) => ReadTeardownStep(iface, what);
    case RootQdisc => ReadQdiscs(iface);
    case TopClass => ReadFixedClasses(iface);
    case DefaultClass => ReadFixedClasses(iface);
    case PeerClass(minor, l) => ReadPeerClass(iface, minor, l);
    case FlowTo(prio, ip, minor) => ReadFlowTo(iface, prio, ip, minor);
    case Ingress => ReadQdiscs(iface);
    case Police(prio, ip, l) => ReadPolice(iface, prio, ip, l);
  }
}
