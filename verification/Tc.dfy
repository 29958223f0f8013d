/** The fixed words of the `tc` command language. */
module TcWords {
  datatype Word =
    | SH | DASH_C | TC | QDISC | CLASS | FILTER | ADD | DEV | ROOT | HANDLE | HTB | DEFAULT
    | INGRESS | INGRESS_HANDLE | PARENT | CLASSID | RATE | CEIL | PRIO | BURST | CBURST | PROTOCOL
    | IP | U32 | MATCH | SRC | DST | FLOWID | POLICE | MTU | MTU_BYTES | CONFORM_EXCEED | DROP
    | DEL | DISCARD | OR | TRUE

  function Spell(w: Word): string {
    match w
    case SH => "sh"
    case DASH_C => "-c"
    case TC => "tc"
    case QDISC => "qdisc"
    case CLASS => "class"
    case FILTER => "filter"
    case ADD => "add"
    case DEV => "dev"
    case ROOT => "root"
    case HANDLE => "handle"
    case HTB => "htb"
    case DEFAULT => "default"
    case INGRESS => "ingress"
    case INGRESS_HANDLE => "ffff:"
    case PARENT => "parent"
    case CLASSID => "classid"
    case RATE => "rate"
    case CEIL => "ceil"
    case PRIO => "prio"
    case BURST => "burst"
    case CBURST => "cburst"
    case PROTOCOL => "protocol"
    case IP => "ip"
    case U32 => "u32"
    case MATCH => "match"
    case SRC => "src"
    case DST => "dst"
    case FLOWID => "flowid"
    case POLICE => "police"
    case MTU => "mtu"
    case MTU_BYTES => "1500"
    case CONFORM_EXCEED => "conform-exceed"
    case DROP => "drop"
    case DEL => "del"
    case DISCARD => "2>/dev/null"
    case OR => "||"
    case TRUE => "true"
  }
}

/** A small interpreter for the `tc` commands of one network device: the command grammar the
    planner uses, the qdisc, class and filter tables, and where a packet ends up. */
module Tc {
  import opened Text
  import opened IPv4
  import opened TcWords

  datatype ClassId = ClassId(major: nat, minor: nat)

  /** Rates are in bits per second, bursts in bytes. */
  datatype Class = Class(parent: ClassId, rate: nat, ceil: nat, prio: nat, burst: Option<nat>)

  datatype Flow = Flow(prio: nat, dst: Address, target: ClassId)
  datatype Policer = Policer(prio: nat, src: Address, rate: nat, burst: nat)
  datatype Root = Root(major: nat, fallback: nat)

  datatype Device = Device(root: Option<Root>, classes: map<ClassId, Class>, flows: seq<Flow>,
                           ingress: bool, policers: seq<Policer>)

  datatype Command =
    | DelIngress
    | DelRoot
    | AddHtb(root: Root)
    | AddClass(id: ClassId, class_: Class)
    | AddFlow(major: nat, flow: Flow)
    | AddIngress
    | AddPolicer(policer: Policer)

  /* ---------- reading argument vectors ---------- */

  const MAX_HANDLE := 0xffff
  const MAX_PRIO := 0xffff

  function ReadHex(s: string): (r: Option<nat>) {
    match FromBase(s, 16)
    case Some(n) => if n <= MAX_HANDLE then Some(n) else None
    case None => None
  }

  /** `major:minor` in hexadecimal; an omitted minor is zero. */
  function ReadClassId(s: string): Option<ClassId> {
    var p := Split(s, ':');
    if |p| != 2 then None else
    match (ReadHex(p[0]), if p[1] == "" then Some(0) else ReadHex(p[1]))
    case (Some(major), Some(minor)) => Some(ClassId(major, minor))
    case _ => None
  }

  function DropSuffix(s: string, suffix: string): Option<string> {
    if |s| >= |suffix| && s[|s| - |suffix|..] == suffix then Some(s[..|s| - |suffix|]) else None
  }

  lemma DropSuffixOf(s: string, suffix: string)
    ensures DropSuffix(s + suffix, suffix) == Some(s)
  {
    assert (s + suffix)[|s|..] == suffix && (s + suffix)[..|s|] == s;
  }

  function ReadUnits(s: string, suffix: string, unit: nat): Option<nat> {
    match DropSuffix(s, suffix)
    case None => None
    case Some(digits) => match FromBase(digits, 10)
      case Some(n) => Some(n * unit)
      case None => None
  }

  function ReadRate(s: string): Option<nat> {
    match ReadUnits(s, "mbit", 1_000_000)
    case Some(n) => Some(n)
    case None => ReadUnits(s, "bit", 1)
  }

  function ReadHost(s: string): Option<Address> {
    match DropSuffix(s, "/32")
    case Some(host) => ParseDotted(host)
    case None => None
  }

  function ReadQdisc(a: seq<string>): Option<Command> {
    if |a| == 6 && a[0] == Spell(ROOT) && a[1] == Spell(HANDLE) && a[3] == Spell(HTB) && a[4] == Spell(DEFAULT) then
      match (ReadClassId(a[2]), ReadHex(a[5]))
      case (Some(h), Some(d)) => if h.minor == 0 && h.major > 0 then Some(AddHtb(Root(h.major, d))) else None
      case _ => None
    else if |a| == 3 && a[0] == Spell(HANDLE) && a[1] == Spell(INGRESS_HANDLE) && a[2] == Spell(INGRESS) then
      Some(AddIngress)
    else None
  }

  /** `rate R ceil C [prio N [burst B cburst B]]` */
  function ReadShape(parent: ClassId, a: seq<string>): Option<Class> {
    if |a| !in {4, 6, 10} || a[0] != Spell(RATE) || a[2] != Spell(CEIL) then None else
    match (ReadRate(a[1]), ReadRate(a[3]))
    case (Some(rate), Some(ceil)) =>
      if |a| == 4 then Some(Class(parent, rate, ceil, 0, None))
      else if a[4] != Spell(PRIO) then None
      else (match FromBase(a[5], 10)
        case None => None
        case Some(prio) =>
          if |a| == 6 then Some(Class(parent, rate, ceil, prio, None))
          else if a[6] != Spell(BURST) || a[8] != Spell(CBURST) || a[7] != a[9] then None
          else match FromBase(a[7], 10)
            case Some(burst) => Some(Class(parent, rate, ceil, prio, Some(burst)))
            case None => None)
    case _ => None
  }

  function ReadClass(a: seq<string>): Option<Command> {
    if |a| < 5 || a[0] != Spell(PARENT) || a[2] != Spell(CLASSID) || a[4] != Spell(HTB) then None else
    match (ReadClassId(a[1]), ReadClassId(a[3]))
    case (Some(parent), Some(id)) => (match ReadShape(parent, a[5..])
      case Some(c) => Some(AddClass(id, c))
      case None => None)
    case _ => None
  }

  function ReadFlow(a: seq<string>): Option<Command> {
    if |a| != 13 || a[0] != Spell(PROTOCOL) || a[1] != Spell(IP) || a[2] != Spell(PARENT) || a[4] != Spell(PRIO)
       || a[6] != Spell(U32) || a[7] != Spell(MATCH) || a[8] != Spell(IP) || a[9] != Spell(DST)
       || a[11] != Spell(FLOWID) then None else
    match (ReadClassId(a[3]), FromBase(a[5], 10), ReadHost(a[10]), ReadClassId(a[12]))
    case (Some(h), Some(prio), Some(dst), Some(target)) => Some(AddFlow(h.major, Flow(prio, dst, target)))
    case _ => None
  }

  function ReadPolicer(a: seq<string>): Option<Command> {
    if |a| != 20 || a[0] != Spell(PARENT) || a[1] != Spell(INGRESS_HANDLE) || a[2] != Spell(PROTOCOL)
       || a[3] != Spell(IP) || a[4] != Spell(PRIO)
       || a[6] != Spell(U32) || a[7] != Spell(MATCH) || a[8] != Spell(IP) || a[9] != Spell(SRC)
       || a[11] != Spell(POLICE) || a[12] != Spell(RATE)
       || a[14] != Spell(BURST) || a[16] != Spell(MTU) || a[17] != Spell(MTU_BYTES) || a[18] != Spell(CONFORM_EXCEED)
       || a[19] != Spell(DROP) then None else
    match (FromBase(a[5], 10), ReadHost(a[10]), ReadRate(a[13]), FromBase(a[15], 10))
    case (Some(prio), Some(src), Some(rate), Some(burst)) => Some(AddPolicer(Policer(prio, src, rate, burst)))
    case _ => None
  }

  /** An interface name the shell leaves alone. */
  predicate PlainName(s: string) {
    s != "" && forall i :: 0 <= i < |s| ==>
      'a' <= s[i] <= 'z' || 'A' <= s[i] <= 'Z' || '0' <= s[i] <= '9' || s[i] == '-' || s[i] == '_' || s[i] == '.'
  }

  /** A teardown line handed to `sh -c`: its failure is discarded by the line itself. */
  function ReadShell(line: string, dev: string): Option<Command> {
    var w := Split(line, ' ');
    if |w| != 9 || !PlainName(dev) || w[0] != Spell(TC) || w[1] != Spell(QDISC) || w[2] != Spell(DEL)
       || w[3] != Spell(DEV) || w[4] != dev
       || w[6] != Spell(DISCARD) || w[7] != Spell(OR) || w[8] != Spell(TRUE) then None
    else if w[5] == Spell(INGRESS) then Some(DelIngress)
    else if w[5] == Spell(ROOT) then Some(DelRoot)
    else None
  }

  function ReadCommand(argv: seq<string>, dev: string): Option<Command> {
    if |argv| == 3 && argv[0] == Spell(SH) && argv[1] == Spell(DASH_C) then ReadShell(argv[2], dev)
    else if |argv| < 5 || argv[0] != Spell(TC) || argv[2] != Spell(ADD) || argv[3] != Spell(DEV)
            || argv[4] != dev then None
    else if argv[1] == Spell(QDISC) then ReadQdisc(argv[5..])
    else if argv[1] == Spell(CLASS) then ReadClass(argv[5..])
    else if argv[1] == Spell(FILTER) then
      (if |argv| > 5 && argv[5] == Spell(PROTOCOL) then ReadFlow(argv[5..]) else ReadPolicer(argv[5..]))
    else None
  }

  /* ---------- executing commands ---------- */

  /** `None` is a failing command: adding what exists, under what does not, or out of range. */
  function Execute(c: Command, d: Device): Option<Device> {
    match c
    case DelIngress => Some(d.(ingress := false, policers := []))
    case DelRoot => Some(d.(root := None, classes := map[], flows := []))
    case AddHtb(root) => if d.root.Some? then None else Some(d.(root := Some(root)))
    case AddClass(id, cl) =>
      if d.root.None? || id.major != d.root.value.major || id.minor == 0 || id in d.classes || cl.rate == 0
         || (cl.parent != ClassId(d.root.value.major, 0) && cl.parent !in d.classes) then None
      else Some(d.(classes := d.classes[id := cl]))
    case AddFlow(major, flow) =>
      if d.root.None? || major != d.root.value.major || flow.prio == 0 || flow.prio > MAX_PRIO then None
      else Some(d.(flows := d.flows + [flow]))
    case AddIngress => if d.ingress then None else Some(d.(ingress := true))
    case AddPolicer(p) =>
      if !d.ingress || p.prio == 0 || p.prio > MAX_PRIO then None else Some(d.(policers := d.policers + [p]))
  }

  /** Running argument vectors one after the other, stopping at the first failure. */
  function Run(cmds: seq<seq<string>>, dev: string, d: Device): Option<Device>
    decreases |cmds|
  {
    if cmds == [] then Some(d) else
    match ReadCommand(cmds[0], dev)
    case None => None
    case Some(c) => match Execute(c, d)
      case None => None
      case Some(d') => Run(cmds[1..], dev, d')
  }

  lemma {:induction false} RunConcat(a: seq<seq<string>>, b: seq<seq<string>>, dev: string, d: Device)
    ensures Run(a + b, dev, d) == match Run(a, dev, d) case None => None case Some(d') => Run(b, dev, d')
    decreases |a|
  {
    if a == [] {
      assert a + b == b;
    } else {
      assert (a + b)[1..] == a[1..] + b;
      match ReadCommand(a[0], dev) {
        case None =>
        case Some(c) => match Execute(c, d) {
          case None =>
          case Some(d') => RunConcat(a[1..], b, dev, d');
        }
      }
    }
  }

  /* ---------- where packets go ---------- */

  datatype Verdict = Unshaped | InClass(id: ClassId)

  /** The matching flow of the lowest prio, the earlier one on a tie. */
  function BestFlow(flows: seq<Flow>, dst: Address): Option<Flow> {
    if flows == [] then None else
    var rest := BestFlow(flows[1..], dst);
    if flows[0].dst != dst then rest
    else if rest.Some? && rest.value.prio < flows[0].prio then rest
    else Some(flows[0])
  }

  function Classify(d: Device, dst: Address): Verdict {
    if d.root.None? then Unshaped else
    var fallback := ClassId(d.root.value.major, d.root.value.fallback);
    match BestFlow(d.flows, dst)
    case Some(f) =>
      if f.target in d.classes then InClass(f.target)
      else if fallback in d.classes then InClass(fallback) else Unshaped
    case None => if fallback in d.classes then InClass(fallback) else Unshaped
  }

  /** The policer a packet from `src` meets, if any. */
  function PolicedBy(policers: seq<Policer>, src: Address): Option<Policer> {
    if policers == [] then None else
    var rest := PolicedBy(policers[1..], src);
    if policers[0].src != src then rest
    else if rest.Some? && rest.value.prio < policers[0].prio then rest
    else Some(policers[0])
  }
}
