/** The plan as printed for the operator: each line, read by a shell, is the command itself. */
module PcqPreview {
  import opened Text
  import opened IPv4
  import opened PcqLoad
  import opened PcqPlan
  import opened PcqMeaning
  import opened PcqEffect
  import opened Tc
  import opened TcWords
  import Quoting

  /** Characters that mean nothing to the shell. */
  predicate TameChar(c: char) {
    'a' <= c <= 'z' || 'A' <= c <= 'Z' || '0' <= c <= '9' || c == '-' || c == '_' || c == '.' || c == ':' || c == '/'
  }

  predicate Tame(s: string) { s != "" && forall i :: 0 <= i < |s| ==> TameChar(s[i]) }

  lemma TameChars(c: char)
    requires TameChar(c)
    ensures !Quoting.Spoils(c) && c != '#' && c != '~'
  {
  }

  lemma TameSafe(s: string)
    requires Tame(s)
    ensures Quoting.Safe(s)
  {
    hide Quoting.Spoils, TameChar, Quoting.NeedsQuotes;
    TameChars(s[0]);
    forall i | 0 <= i < |s| ensures !Quoting.Spoils(s[i]) { TameChars(s[i]); }
  }

  lemma WordTame(w: Word)
    requires w != DISCARD && w != OR
    ensures Tame(Spell(w))
  {
    hide Spell, Tame;
    if w in {SH, DASH_C, TC, QDISC, CLASS, FILTER, ADD, DEV, ROOT, HANDLE, HTB, DEFAULT, INGRESS, INGRESS_HANDLE,
             PARENT} {
      FirstWords(w);
    } else if w in {CLASSID, RATE, CEIL, PRIO, BURST, CBURST, PROTOCOL, IP, U32, MATCH, SRC, DST} {
      MiddleWords(w);
    } else {
      LastWords(w);
    }
  }

  lemma FirstWords(w: Word)
    requires w in {SH, DASH_C, TC, QDISC, CLASS, FILTER, ADD, DEV, ROOT, HANDLE, HTB, DEFAULT, INGRESS,
                   INGRESS_HANDLE, PARENT}
    ensures Tame(Spell(w))
  {
  }

  lemma LastWords(w: Word)
    requires w in {FLOWID, POLICE, MTU, MTU_BYTES, CONFORM_EXCEED, DROP, DEL, TRUE}
    ensures Tame(Spell(w))
  {
  }

  lemma MiddleWords(w: Word)
    requires w in {CLASSID, RATE, CEIL, PRIO, BURST, CBURST, PROTOCOL, IP, U32, MATCH, SRC, DST}
    ensures Tame(Spell(w))
  {
  }

  lemma SpellsSafe()
    ensures forall w :: w != DISCARD && w != OR ==> Quoting.Safe(Spell(w))
  {
    hide Tame, Quoting.Safe, Spell;
    forall w | w != DISCARD && w != OR ensures Quoting.Safe(Spell(w)) {
      WordTame(w);
      TameSafe(Spell(w));
    }
  }

  lemma {:induction false} BaseTame(n: nat, b: Base)
    ensures Tame(ToBase(n, b))
    decreases n
  {
    DivMod(n, b);
    DigitTame(n % b);
    if n >= b { BaseTame(n / b, b); }
  }

  lemma DigitTame(d: nat)
    requires d < 16
    ensures TameChar(DigitChar(d))
  {
    assert DIGITS[10] == 'a' && DIGITS[11] == 'b' && DIGITS[12] == 'c';
    assert DIGITS[13] == 'd' && DIGITS[14] == 'e' && DIGITS[15] == 'f';
  }

  lemma NumberSafe(n: nat)
    ensures Quoting.Safe(Decimal(n)) && Quoting.Safe(Decimal(n) + "bit")
  {
    BaseTame(n, 10);
    TameSafe(Decimal(n));
    TameSafe(Decimal(n) + "bit");
  }

  lemma ClassNameSafe(minor: nat)
    ensures Quoting.Safe(ClassName(minor))
  {
    BaseTame(minor, 16);
    assert "1:"[0] == '1' && "1:"[1] == ':';
    TameSafe(ClassName(minor));
  }

  lemma RootCeilSafe()
    ensures Quoting.Safe(ROOT_CEIL)
  {
    TameSafe(ROOT_CEIL);
  }

  lemma HostSafe(ip: string)
    requires Canonical(ip)
    ensures Quoting.Safe(ip + "/32")
  {
    hide ParseDotted, Dotted;
    CanonicalReads(ip);
    DottedChars(ParseDotted(ip).value);
    TameSafe(ip + "/32");
  }

  lemma LiteralsSafe()
    ensures Quoting.Safe("1:") && Quoting.Safe("1:1") && Quoting.Safe("1:30") && Quoting.Safe("30")
    ensures Quoting.Safe("7") && Quoting.Safe("5")
  {
    hide Quoting.Safe;
    TameSafe("1:");
    TameSafe("1:1");
    TameSafe("1:30");
    TameSafe("30");
    TameSafe("7");
    TameSafe("5");
  }

  lemma TeardownSafe(iface: string, what: Word)
    requires PlainName(iface)
    ensures Quoting.Safe(Join(TeardownLine(iface, what), ' '))
  {
    hide Spell;
    var w := TeardownLine(iface, what);
    var line := Join(w, ' ');
    assert line == w[0] + [' '] + Join(w[1..], ' ');
    assert line[|w[0]|] == ' ' && Quoting.Special(' ');
  }

  lemma IfaceSafe(iface: string)
    requires PlainName(iface)
    ensures Quoting.Safe(iface)
  {
    TameSafe(iface);
  }

  lemma PrefixSafe(iface: string, object_: Word, rest: seq<string>)
    requires PlainName(iface) && object_ in {CLASS, FILTER} && Quoting.AllSafe(rest)
    ensures Quoting.AllSafe(Prefix(iface, object_) + rest)
  {
    hide Quoting.Safe, Spell, PlainName;
    SpellsSafe();
    IfaceSafe(iface);
  }

  lemma QdiscsSafe(iface: string)
    requires PlainName(iface)
    ensures Quoting.AllSafe(Argv(iface, RootQdisc)) && Quoting.AllSafe(Argv(iface, Ingress))
  {
    hide Quoting.Safe, Spell, PlainName;
    SpellsSafe();
    LiteralsSafe();
    IfaceSafe(iface);
  }

  lemma FixedClassSafe(iface: string, s: Step)
    requires PlainName(iface) && (s == TopClass || s == DefaultClass)
    ensures Quoting.AllSafe(Argv(iface, s))
  {
    hide Quoting.Safe, Spell, PlainName, ToBase;
    SpellsSafe();
    LiteralsSafe();
    IfaceSafe(iface);
    RootCeilSafe();
  }

  lemma PeerShapeSafe(l: PeerLimit)
    requires l.down > 0
    ensures Quoting.AllSafe(PeerShapeArgs(l))
  {
    hide Quoting.Safe, Spell, ToBase, RateBits, BurstBytes;
    SpellsSafe();
    LiteralsSafe();
    NumberSafe(RateBits(l.down));
    NumberSafe(BurstBytes(l.burstDown, l.down));
  }

  lemma ClassTargetSafe(target: string, shape: seq<string>)
    requires Quoting.Safe(target) && Quoting.AllSafe(shape)
    ensures Quoting.AllSafe([Spell(PARENT), "1:1", Spell(CLASSID), target, Spell(HTB)] + shape)
  {
    hide Quoting.Safe, Spell;
    SpellsSafe();
    LiteralsSafe();
  }

  lemma FlowArgsSafe(prio: string, host: string, target: string)
    requires Quoting.Safe(prio) && Quoting.Safe(host) && Quoting.Safe(target)
    ensures Quoting.AllSafe(FlowArgs("1:", prio, host, target))
  {
    hide Quoting.Safe, Spell;
    SpellsSafe();
    LiteralsSafe();
  }

  lemma PolicerArgsSafe(prio: string, host: string, rate: string, burst: string)
    requires Quoting.Safe(prio) && Quoting.Safe(host) && Quoting.Safe(rate) && Quoting.Safe(burst)
    ensures Quoting.AllSafe(PolicerArgs(prio, host, rate, burst))
  {
    hide Quoting.Safe, Spell;
    SpellsSafe();
  }

  lemma TeardownArgvSafe(iface: string, what: Word)
    requires PlainName(iface)
    ensures Quoting.AllSafe(Argv(iface, Teardown(what)))
  {
    hide Quoting.Safe, Spell, PlainName, Join;
    SpellsSafe();
    TeardownSafe(iface, what);
  }

  /** Every argument of every step comes through the quoting. */
  lemma ArgvSafe(iface: string, s: Step)
    requires PlainName(iface) && Readable(s)
    ensures Quoting.AllSafe(Argv(iface, s))
  {
    hide Argv, PlainName, Canonical, Quoting.Safe, Spell, ToBase, RateBits, BurstBytes, ClassName, PeerShapeArgs,
         PolicerArgs, FlowArgs, Prefix;
    match s
    case Teardown(what) => TeardownArgvSafe(iface, what);
    case RootQdisc => QdiscsSafe(iface);
    case TopClass => FixedClassSafe(iface, s);
    case DefaultClass => FixedClassSafe(iface, s);
    case PeerClass(minor, l) =>
      PeerClassArgv(iface, minor, l);
      ClassNameSafe(minor);
      PeerShapeSafe(l);
      ClassTargetSafe(ClassName(minor), PeerShapeArgs(l));
      PrefixSafe(iface, CLASS, [Spell(PARENT), "1:1", Spell(CLASSID), ClassName(minor), Spell(HTB)] + PeerShapeArgs(l));
    case FlowTo(prio, ip, minor) =>
      FlowArgv(iface, prio, ip, minor);
      NumberSafe(prio);
      HostSafe(ip);
      ClassNameSafe(minor);
      FlowArgsSafe(Decimal(prio), ip + "/32", ClassName(minor));
      PrefixSafe(iface, FILTER, FlowArgs("1:", Decimal(prio), ip + "/32", ClassName(minor)));
    case Ingress => QdiscsSafe(iface);
    case Police(prio, ip, l) =>
      PoliceArgv(iface, prio, ip, l);
      NumberSafe(prio);
      HostSafe(ip);
      NumberSafe(RateBits(l.up));
      NumberSafe(BurstBytes(l.burstUp, l.up));
      PolicerArgsSafe(Decimal(prio), ip + "/32", RateSpec(l.up), Decimal(BurstBytes(l.burstUp, l.up)));
      PrefixSafe(iface, FILTER,
                 PolicerArgs(Decimal(prio), ip + "/32", RateSpec(l.up), Decimal(BurstBytes(l.burstUp, l.up))));
  }

  /** A printed line, read by a shell and handed to `tc`, is the command the step stands for. */
  lemma PreviewMeansPlan(iface: string, s: Step)
    requires PlainName(iface) && Readable(s)
    ensures Quoting.Read(Quoting.Quoted(Argv(iface, s))) == Some(Argv(iface, s))
    ensures ReadCommand(Quoting.Read(Quoting.Quoted(Argv(iface, s))).value, iface) == Some(CommandOf(s))
  {
    hide Quoting.Read, Quoting.Quoted, Argv, ReadCommand, CommandOf;
    ArgvSafe(iface, s);
    Quoting.QuotingExact(Argv(iface, s));
    ReadStep(iface, s);
  }

  /** What a shell makes of a script: the argument vectors of its lines, or nothing when it cannot read one. */
  function ReadScript(lines: seq<string>): Option<seq<seq<string>>> {
    if lines == [] then Some([])
    else
      match ReadScript(lines[..|lines| - 1])
      case None => None
      case Some(init) =>
        match Quoting.Read(lines[|lines| - 1]) case None => None case Some(args) => Some(init + [args])
  }

  /** A plan as it is shown, one line per command. */
  function Shown(plan: seq<seq<string>>): seq<string> {
    if plan == [] then [] else Shown(plan[..|plan| - 1]) + [Quoting.Quoted(plan[|plan| - 1])]
  }

  lemma {:induction false} ShownReadsBack(plan: seq<seq<string>>)
    requires forall i :: 0 <= i < |plan| ==> Quoting.Read(Quoting.Quoted(plan[i])) == Some(plan[i])
    ensures ReadScript(Shown(plan)) == Some(plan)
  {
    hide Quoting.Read, Quoting.Quoted;
    if plan != [] {
      var n := |plan| - 1;
      ShownReadsBack(plan[..n]);
      assert Shown(plan)[..|Shown(plan)| - 1] == Shown(plan[..n]);
      assert plan == plan[..n] + [plan[n]];
    }
  }

  /** A shell reads a shown plan as its argument vectors; so pasting what is shown has the one outcome
      of applying. */
  lemma PlanLinesReadBack(iface: string, peers: Peers, prior: Device)
    requires PlainName(iface) && CanonicalPeers(peers)
    ensures var plan := Render(iface, PlanSpec(iface, peers));
            var script := ReadScript(Shown(plan));
            && script == Some(plan)
            && Run(script.value, iface, prior) == if |UpKeys(peers)| <= 65526 then Some(Outcome(peers)) else None
  {
    hide Quoting.Read, Quoting.Quoted, Argv, Run, Outcome, UpKeys, Readable, Steps, Sorted, DownloadShape, UploadShape,
         ReadScript, Shown;
    TeardownRuns(prior);
    ShapeRuns(peers);
    PlanRuns(iface, peers, prior);
    var steps := PlanSpec(iface, peers);
    assert AllReadable(steps);
    forall i | 0 <= i < |steps|
      ensures Quoting.Read(Quoting.Quoted(Argv(iface, steps[i]))) == Some(Argv(iface, steps[i])) {
      PreviewMeansPlan(iface, steps[i]);
    }
    ShownReadsBack(Render(iface, steps));
  }
}
