/** Runs of the whole accounting system: traffic through the kernel, interface restarts,
    polls, the administrator toggling a user, and applying the configuration. */
module AccountingRuns {
  import opened Text
  import opened Lines
  import opened WgDump
  import opened Accounting

  datatype Counters = Counters(rx: nat, tx: nat)

  type Interval = n: int | n > 0 witness 1

  /** What the kernel shows of a peer besides its counters. */
  datatype Contact = Contact(endpoint: string, allowedIPs: string, handshake: int, keepalive: int)

  /** `kernel` holds the counters of the peers the interface knows; `sent` is what each key has truly
      sent and received so far, which no program variable records. */
  datatype System = System(accounts: seq<Account>, kernel: map<string, Counters>, sent: map<string, Counters>,
                           interval: Interval)

  /** Counters restart on the keys of a `Restart`: both directions of a peer together. */

  datatype Event =
    | Send(key: string, rx: nat, tx: nat)
    | Restart(keys: set<string>)
    | PollAt(now: int, contacts: map<string, Contact>)
    | Toggle(id: nat)
    | ApplyConfig

  function Sent(s: System, k: string): Counters {
    if k in s.sent then s.sent[k] else Counters(0, 0)
  }

  function ContactOf(contacts: map<string, Contact>, k: string): Contact {
    if k in contacts then contacts[k] else Contact("", "", 0, 0)
  }

  function ShownPeer(k: string, c: Counters, contact: Contact): PeerLine {
    PeerLine(k, contact.endpoint, contact.allowedIPs, contact.handshake, c.rx, c.tx, contact.keepalive)
  }

  /** The table a poll makes of what the kernel shows. */
  function Shown(kernel: map<string, Counters>, contacts: map<string, Contact>): map<string, PeerLine> {
    map k | k in kernel :: ShownPeer(k, kernel[k], ContactOf(contacts, k))
  }

  /** The rows `WriteWireGuardConfig` puts into the interface. */
  predicate Configured(a: Account) {
    && a.isEnabled == 1
    && a.publicKey.Some? && a.publicKey.value != ""
    && a.allowedIPs.Some? && TrimSpace(a.allowedIPs.value) != ""
  }

  /** Applying the configuration: peers that stay keep their counters, new ones start at zero. */
  function Apply(accounts: seq<Account>, kernel: map<string, Counters>): map<string, Counters> {
    map a | a in accounts && Configured(a) ::
      a.publicKey.value := if a.publicKey.value in kernel then kernel[a.publicKey.value] else Counters(0, 0)
  }

  function Toggled(a: Account): Account {
    a.(isEnabled := if a.isEnabled == 1 then 0 else 1)
  }

  function Next(s: System, e: Event): System {
    match e
    case Send(k, rx, tx) =>
      if k !in s.kernel then s else
      s.(kernel := s.kernel[k := Counters(s.kernel[k].rx + rx, s.kernel[k].tx + tx)],
         sent := s.sent[k := Counters(Sent(s, k).rx + rx, Sent(s, k).tx + tx)])
    case Restart(keys) => s.(kernel := map k | k in s.kernel :: if k in keys then Counters(0, 0) else s.kernel[k])
    case PollAt(now, contacts) => s.(accounts := PollAll(s.accounts, Shown(s.kernel, contacts), now, s.interval))
    case Toggle(id) => if id >= |s.accounts| then s else s.(accounts := s.accounts[id := Toggled(s.accounts[id])])
    case ApplyConfig => s.(kernel := Apply(s.accounts, s.kernel))
  }

  function Run(s: System, es: seq<Event>): System
    decreases |es|
  {
    if es == [] then s else Run(Next(s, es[0]), es[1..])
  }

  /** Events never add, drop or re-key accounts. */
  lemma StepFrame(s: System, e: Event)
    ensures |Next(s, e).accounts| == |s.accounts|
    ensures forall i :: 0 <= i < |s.accounts| ==>
              Next(s, e).accounts[i].publicKey == s.accounts[i].publicKey
  {
  }

  lemma {:induction false} RunFrame(s: System, es: seq<Event>)
    ensures |Run(s, es).accounts| == |s.accounts|
    ensures forall i :: 0 <= i < |s.accounts| ==>
              Run(s, es).accounts[i].publicKey == s.accounts[i].publicKey
    decreases |es|
  {
    if es != [] {
      StepFrame(s, es[0]);
      RunFrame(Next(s, es[0]), es[1..]);
    }
  }

  /** What happens to one account in one event. */
  function Observed(a: Account, i: nat, s: System, e: Event): Account {
    match e
    case PollAt(now, contacts) => Poll(a, Shown(s.kernel, contacts), now, s.interval)
    case Toggle(id) => if id == i then Toggled(a) else a
    case _ => a
  }

  lemma StepOfAccount(s: System, e: Event, i: nat)
    requires i < |s.accounts|
    ensures |Next(s, e).accounts| == |s.accounts|
    ensures Next(s, e).accounts[i] == Observed(s.accounts[i], i, s, e)
    ensures Next(s, e).interval == s.interval
  {
  }

  predicate HasKey(s: System, i: nat, k: string) {
    i < |s.accounts| && s.accounts[i].publicKey == Some(k) && k != ""
  }

  predicate NonNegative(a: Account) {
    a.bytesRx >= 0 && a.bytesTx >= 0
  }

  /* ---------- traffic is never overcharged ---------- */

  /** One direction pair: recorded bytes against the true count `(rx, tx)`. Either no counter
      was lost since the last poll, or everything recorded precedes the counters shown now. */
  predicate Covered(a: Account, kernel: map<string, Counters>, k: string, rx: int, tx: int) {
    && NonNegative(a)
    && RecordedRx(a) <= rx && RecordedTx(a) <= tx
    && (k in kernel ==>
          var c := kernel[k];
          || (a.bytesRx <= c.rx && a.bytesTx <= c.tx && a.totalRx + c.rx <= rx && a.totalTx + c.tx <= tx)
          || (RecordedRx(a) + c.rx <= rx && RecordedTx(a) + c.tx <= tx))
  }

  lemma ApplyKeeps(accounts: seq<Account>, kernel: map<string, Counters>, k: string)
    ensures k in Apply(accounts, kernel) ==>
              Apply(accounts, kernel)[k] == if k in kernel then kernel[k] else Counters(0, 0)
  {
  }

  lemma CoveredPoll(a: Account, c: Counters, p: PeerLine, k: string, kernel: map<string, Counters>, rx: int, tx: int,
                    now: int, interval: int)
    requires interval > 0 && k in kernel && kernel[k] == c && p.rx == c.rx && p.tx == c.tx
    requires Covered(a, kernel, k, rx, tx)
    ensures Covered(PollPresent(a, p, now, interval), kernel, k, rx, tx)
  {
  }

  lemma CoveredStep(s: System, e: Event, i: nat, k: string, ox: int, oy: int)
    requires HasKey(s, i, k)
    requires Covered(s.accounts[i], s.kernel, k, Sent(s, k).rx + ox, Sent(s, k).tx + oy)
    ensures var t := Next(s, e);
            HasKey(t, i, k) && Covered(t.accounts[i], t.kernel, k, Sent(t, k).rx + ox, Sent(t, k).tx + oy)
  {
    hide PollPresent;
    StepOfAccount(s, e, i);
    StepFrame(s, e);
    match e
    case Send(_, _, _) => CoveredTraffic(s, e, i, k, ox, oy);
    case Restart(_) => CoveredTraffic(s, e, i, k, ox, oy);
    case PollAt(now, contacts) =>
      hide Covered;
      var a, table := s.accounts[i], Shown(s.kernel, contacts);
      if k in s.kernel {
        CoveredPoll(a, s.kernel[k], table[k], k, s.kernel, Sent(s, k).rx + ox, Sent(s, k).tx + oy, now, s.interval);
      } else {
        CoveredUnseen(a, k, s.kernel, table, Sent(s, k).rx + ox, Sent(s, k).tx + oy, now, s.interval);
      }
    case Toggle(_) =>
    case ApplyConfig =>
      ApplyKeeps(s.accounts, s.kernel, k);
  }

  lemma CoveredUnseen(a: Account, k: string, kernel: map<string, Counters>, table: map<string, PeerLine>,
                      rx: int, tx: int, now: int, interval: int)
    requires interval > 0 && a.publicKey == Some(k) && k !in table && Covered(a, kernel, k, rx, tx)
    ensures Covered(Poll(a, table, now, interval), kernel, k, rx, tx)
  {
  }

  lemma CoveredTraffic(s: System, e: Event, i: nat, k: string, ox: int, oy: int)
    requires (e.Send? || e.Restart?) && i < |s.accounts|
    requires Covered(s.accounts[i], s.kernel, k, Sent(s, k).rx + ox, Sent(s, k).tx + oy)
    ensures var t := Next(s, e);
            t.accounts == s.accounts && Covered(t.accounts[i], t.kernel, k, Sent(t, k).rx + ox, Sent(t, k).tx + oy)
  {
  }

  lemma {:induction false} CoveredRun(s: System, es: seq<Event>, i: nat, k: string, ox: int, oy: int)
    requires HasKey(s, i, k)
    requires Covered(s.accounts[i], s.kernel, k, Sent(s, k).rx + ox, Sent(s, k).tx + oy)
    ensures var t := Run(s, es);
            HasKey(t, i, k) && Covered(t.accounts[i], t.kernel, k, Sent(t, k).rx + ox, Sent(t, k).tx + oy)
    decreases |es|
  {
    if es != [] {
      CoveredStep(s, es[0], i, k, ox, oy);
      CoveredRun(Next(s, es[0]), es[1..], i, k, ox, oy);
    }
  }

  /** The account shows what the kernel shows (or the kernel does not know the key). */
  predicate InStep(s: System, i: nat, k: string) {
    && HasKey(s, i, k) && NonNegative(s.accounts[i])
    && (k in s.kernel ==> s.kernel[k] == Counters(s.accounts[i].bytesRx, s.accounts[i].bytesTx))
  }

  /** After any run, in either direction, no more is recorded than was truly sent. */
  lemma NeverOvercharged(s: System, es: seq<Event>, i: nat, k: string)
    requires InStep(s, i, k)
    ensures var t := Run(s, es);
            && HasKey(t, i, k)
            && RecordedRx(t.accounts[i]) - RecordedRx(s.accounts[i]) <= Sent(t, k).rx - Sent(s, k).rx
            && RecordedTx(t.accounts[i]) - RecordedTx(s.accounts[i]) <= Sent(t, k).tx - Sent(s, k).tx
  {
    var a := s.accounts[i];
    CoveredRun(s, es, i, k, RecordedRx(a) - Sent(s, k).rx, RecordedTx(a) - Sent(s, k).tx);
  }

  predicate Resets(e: Event, k: string) {
    e.Restart? && k in e.keys
  }

  /** The key stays on the interface and its counters never restart. */
  predicate NoReset(s: System, es: seq<Event>, k: string)
    decreases |es|
  {
    k in s.kernel && (es == [] || (!Resets(es[0], k) && NoReset(Next(s, es[0]), es[1..], k)))
  }

  predicate Exact(s: System, i: nat, k: string, ox: int, oy: int) {
    && HasKey(s, i, k) && k in s.kernel
    && var a, c := s.accounts[i], s.kernel[k];
       && 0 <= a.bytesRx <= c.rx && 0 <= a.bytesTx <= c.tx
       && a.totalRx + c.rx == Sent(s, k).rx + ox && a.totalTx + c.tx == Sent(s, k).tx + oy
  }

  lemma ExactStep(s: System, e: Event, i: nat, k: string, ox: int, oy: int)
    requires Exact(s, i, k, ox, oy) && !Resets(e, k) && k in Next(s, e).kernel
    ensures Exact(Next(s, e), i, k, ox, oy)
  {
    StepOfAccount(s, e, i);
    if e.ApplyConfig? {
      ApplyKeeps(s.accounts, s.kernel, k);
    }
  }

  lemma {:induction false} ExactRun(s: System, es: seq<Event>, i: nat, k: string, ox: int, oy: int)
    requires Exact(s, i, k, ox, oy) && NoReset(s, es, k)
    ensures Exact(Run(s, es), i, k, ox, oy)
    decreases |es|
  {
    if es != [] {
      ExactStep(s, es[0], i, k, ox, oy);
      ExactRun(Next(s, es[0]), es[1..], i, k, ox, oy);
    }
  }

  /** Without a reset, a poll at the end of the run has recorded exactly what was sent. */
  lemma ExactWithoutReset(s: System, es: seq<Event>, i: nat, k: string, now: int, contacts: map<string, Contact>)
    requires InStep(s, i, k) && NoReset(s, es, k)
    ensures var t := Next(Run(s, es), PollAt(now, contacts));
            && HasKey(t, i, k)
            && RecordedRx(t.accounts[i]) - RecordedRx(s.accounts[i]) == Sent(t, k).rx - Sent(s, k).rx
            && RecordedTx(t.accounts[i]) - RecordedTx(s.accounts[i]) == Sent(t, k).tx - Sent(s, k).tx
  {
    var a := s.accounts[i];
    ExactRun(s, es, i, k, RecordedRx(a) - Sent(s, k).rx, RecordedTx(a) - Sent(s, k).tx);
    StepOfAccount(Run(s, es), PollAt(now, contacts), i);
  }

  /* ---------- quota charging telescopes ---------- */

  predicate QuotaLaw(a: Account, quota: int, before: int) {
    NonNegative(a) && Usage(a) >= before && a.remainingTraffic == Some(Max(0, quota - (Usage(a) - before)))
  }

  lemma QuotaPoll(a: Account, p: PeerLine, now: int, interval: int, quota: int, before: int)
    requires interval > 0 && p.rx >= 0 && p.tx >= 0
    requires QuotaLaw(a, quota, before)
    ensures QuotaLaw(PollPresent(a, p, now, interval), quota, before)
    ensures Usage(PollPresent(a, p, now, interval)) >= Usage(a)
  {
  }

  lemma {:induction false} QuotaRun(s: System, es: seq<Event>, i: nat, quota: int, before: int)
    requires i < |s.accounts| && QuotaLaw(s.accounts[i], quota, before)
    ensures |Run(s, es).accounts| == |s.accounts|
    ensures QuotaLaw(Run(s, es).accounts[i], quota, before)
    ensures Usage(Run(s, es).accounts[i]) >= Usage(s.accounts[i])
    decreases |es|
  {
    if es != [] {
      var a, e := s.accounts[i], es[0];
      StepOfAccount(s, e, i);
      if e.PollAt? && Present(a, Shown(s.kernel, e.contacts)) {
        QuotaPoll(a, Shown(s.kernel, e.contacts)[a.publicKey.value], e.now, s.interval, quota, before);
      }
      QuotaRun(Next(s, e), es[1..], i, quota, before);
    }
  }

  /** Starting from a quota, what remains after any run is the quota less the usage gained,
      and never below zero; usage itself never decreases. */
  lemma QuotaTelescopes(s: System, es: seq<Event>, i: nat, quota: int)
    requires i < |s.accounts| && NonNegative(s.accounts[i])
    requires quota >= 0 && s.accounts[i].remainingTraffic == Some(quota)
    ensures |Run(s, es).accounts| == |s.accounts|
    ensures var a, b := s.accounts[i], Run(s, es).accounts[i];
            && NonNegative(b) && Usage(a) <= Usage(b)
            && b.remainingTraffic == Some(Max(0, quota - (Usage(b) - Usage(a))))
  {
    QuotaRun(s, es, i, quota, Usage(s.accounts[i]));
  }

  /** An exhausted traffic quota stays exhausted, and every poll that sees the account
      afterwards leaves it off. */
  lemma ExhaustionAbsorbs(s: System, es: seq<Event>, i: nat, now: int, contacts: map<string, Contact>)
    requires i < |s.accounts| && NonNegative(s.accounts[i])
    requires s.accounts[i].remainingTraffic == Some(0)
    ensures |Run(s, es).accounts| == |s.accounts|
    ensures Run(s, es).accounts[i].remainingTraffic == Some(0)
    ensures Present(Run(s, es).accounts[i], Shown(Run(s, es).kernel, contacts)) ==>
              Next(Run(s, es), PollAt(now, contacts)).accounts[i].isEnabled == 0
  {
    QuotaTelescopes(s, es, i, 0);
    var t := Run(s, es);
    QuotaTelescopes(t, [PollAt(now, contacts)], i, 0);
    StepOfAccount(t, PollAt(now, contacts), i);
  }

  lemma ChargedWithin(a: Account, b: Account, quota: int, rx: int, tx: int)
    requires quota >= 0 && Usage(a) <= Usage(b)
    requires b.remainingTraffic == Some(Max(0, quota - (Usage(b) - Usage(a))))
    requires RecordedRx(b) - RecordedRx(a) <= rx && RecordedTx(b) - RecordedTx(a) <= tx
    ensures quota - b.remainingTraffic.value <= rx + tx
  {
  }

  /** The quota is never charged for bytes the user did not send or receive. */
  lemma QuotaNeverOvercharged(s: System, es: seq<Event>, i: nat, k: string, quota: int)
    requires InStep(s, i, k) && quota >= 0 && s.accounts[i].remainingTraffic == Some(quota)
    ensures HasKey(Run(s, es), i, k)
    ensures var t := Run(s, es);
            var left := t.accounts[i].remainingTraffic;
            left.Some? && quota - left.value <= (Sent(t, k).rx - Sent(s, k).rx) + (Sent(t, k).tx - Sent(s, k).tx)
  {
    var t := Run(s, es);
    NeverOvercharged(s, es, i, k);
    QuotaTelescopes(s, es, i, quota);
    ChargedWithin(s.accounts[i], t.accounts[i], quota, Sent(t, k).rx - Sent(s, k).rx, Sent(t, k).tx - Sent(s, k).tx);
  }

  /* ---------- day charging ---------- */

  /** The times of the polls of a run that saw the account. */
  function PollTimes(s: System, es: seq<Event>, i: nat): seq<int>
    requires i < |s.accounts|
    decreases |es|
  {
    if es == [] then [] else
    StepFrame(s, es[0]);
    var rest := PollTimes(Next(s, es[0]), es[1..], i);
    if es[0].PollAt? && Present(s.accounts[i], Shown(s.kernel, es[0].contacts)) then [es[0].now] + rest else rest
  }

  function ChargeRun(days: Option<int>, last: Option<Stamp>, times: seq<int>): (Option<int>, Option<Stamp>)
    decreases |times|
  {
    if times == [] then (days, last) else
    var (d, l) := ChargeDays(days, last, times[0]);
    ChargeRun(d, l, times[1..])
  }

  /** Only the polls that see the account move its days and its stamp. */
  lemma {:induction false} DaysProject(s: System, es: seq<Event>, i: nat)
    requires i < |s.accounts|
    ensures |Run(s, es).accounts| == |s.accounts|
    ensures var a, b := s.accounts[i], Run(s, es).accounts[i];
            (b.remainingDays, b.lastDayCheck) == ChargeRun(a.remainingDays, a.lastDayCheck, PollTimes(s, es, i))
    decreases |es|
  {
    if es != [] {
      var a, e := s.accounts[i], es[0];
      StepOfAccount(s, e, i);
      DaysProject(Next(s, e), es[1..], i);
      var rest := PollTimes(Next(s, e), es[1..], i);
      if e.PollAt? && Present(a, Shown(s.kernel, e.contacts)) {
        assert ([e.now] + rest)[1..] == rest;
      }
    }
  }

  /** A clock that does not go back, with at most `d` seconds between polls. */
  predicate Spaced(from: int, times: seq<int>, d: int)
    decreases |times|
  {
    times == [] || (from <= times[0] <= from + d && Spaced(times[0], times[1..], d))
  }

  function Last(from: int, times: seq<int>): int {
    if times == [] then from else times[|times| - 1]
  }

  lemma Grow(c: nat, k: nat, d: nat)
    requires k >= 1
    ensures (c + k) * (DAY_SECONDS + d) >= c * (DAY_SECONDS + d) + DAY_SECONDS + d
  {
    assert (c + k) * (DAY_SECONDS + d) == c * (DAY_SECONDS + d) + k * (DAY_SECONDS + d);
    assert k * (DAY_SECONDS + d) >= DAY_SECONDS + d;
  }

  /** The induction behind the bound: `c` of `quota` days are charged, the stamp is at `stamp`,
      the latest poll was at `now`, and counting began at `start`. */
  lemma {:induction false} ChargeRunBounds(quota: nat, c: nat, start: int, stamp: int, now: int, times: seq<int>,
                                           d: nat)
    requires c < quota && start <= stamp <= now < stamp + DAY_SECONDS
    requires DAY_SECONDS * c <= stamp - start <= c * (DAY_SECONDS + d)
    requires Spaced(now, times, d)
    ensures var (days, _) := ChargeRun(Some(quota - c), Some(At(stamp)), times);
            var end := Last(now, times);
            && days.Some? && 0 <= days.value <= quota - c
            && DAY_SECONDS * (quota - days.value) <= end - start
            && (days.value > 0 ==> end - start < (quota - days.value) * (DAY_SECONDS + d) + DAY_SECONDS)
    decreases |times|
  {
    if times != [] {
      var t := times[0];
      var k := (t - stamp) / DAY_SECONDS;
      assert Last(now, times) == Last(t, times[1..]);
      if k >= 1 {
        if k < quota - c {
          Grow(c, k, d);
          ChargeRunBounds(quota, c + k, start, t, t, times[1..], d);
        } else {
          SpacedNotBefore(t, times[1..], d);
          ExhaustedRun(t, times[1..]);
        }
      } else {
        ChargeRunBounds(quota, c, start, stamp, t, times[1..], d);
      }
    }
  }

  lemma {:induction false} SpacedNotBefore(from: int, times: seq<int>, d: int)
    requires Spaced(from, times, d)
    ensures from <= Last(from, times)
    decreases |times|
  {
    if times != [] {
      SpacedNotBefore(times[0], times[1..], d);
    }
  }

  lemma {:induction false} ExhaustedRun(stamp: int, times: seq<int>)
    ensures ChargeRun(Some(0), Some(At(stamp)), times) == (Some(0), Some(At(stamp)))
  {
    if times != [] {
      ExhaustedRun(stamp, times[1..]);
    }
  }

  /** The two-sided bound on the days charged by polls at `times`, the first of which stamps. */
  predicate DayBounds(quota: int, days: Option<int>, times: seq<int>, d: nat)
    requires times != []
  {
    && days.Some? && 0 <= days.value <= quota
    && var charged, elapsed := quota - days.value, Last(times[0], times[1..]) - times[0];
       && DAY_SECONDS * charged <= elapsed
       && (days.value > 0 ==> elapsed < charged * (DAY_SECONDS + d) + DAY_SECONDS)
  }

  predicate NeverStamped(last: Option<Stamp>) {
    last.None? || last.value.Unreadable?
  }

  lemma ChargeFromFirstStamp(quota: int, last: Option<Stamp>, times: seq<int>, d: nat)
    requires quota > 0 && NeverStamped(last)
    requires times != [] && Spaced(times[0], times[1..], d)
    ensures DayBounds(quota, ChargeRun(Some(quota), last, times).0, times, d)
  {
    ChargeRunBounds(quota, 0, times[0], times[0], times[0], times[1..], d);
  }

  /** From the poll that first stamps the account, with no renewal: a charged day stands for at
      least 86400 seconds, and while days remain nearly every elapsed day has been charged. */
  lemma DayChargeBounds(s: System, es: seq<Event>, i: nat, quota: int, d: nat)
    requires i < |s.accounts| && quota > 0
    requires s.accounts[i].remainingDays == Some(quota) && NeverStamped(s.accounts[i].lastDayCheck)
    requires var times := PollTimes(s, es, i); times != [] && Spaced(times[0], times[1..], d)
    ensures |Run(s, es).accounts| == |s.accounts|
    ensures DayBounds(quota, Run(s, es).accounts[i].remainingDays, PollTimes(s, es, i), d)
  {
    DaysProject(s, es, i);
    ChargeFromFirstStamp(quota, s.accounts[i].lastDayCheck, PollTimes(s, es, i), d);
  }

  /* ---------- enablement ---------- */

  predicate DistinctKeys(accounts: seq<Account>) {
    forall i, j :: 0 <= i < j < |accounts| && accounts[i].publicKey.Some? ==>
      accounts[i].publicKey != accounts[j].publicKey
  }

  /** After an apply a key is on the interface exactly when a configured account has it. */
  lemma OnInterfaceAfterApply(s: System, k: string)
    ensures k in Next(s, ApplyConfig).kernel <==>
            exists j :: 0 <= j < |s.accounts| && Configured(s.accounts[j]) && s.accounts[j].publicKey.value == k
  {
    if k in Next(s, ApplyConfig).kernel {
      var a :| a in s.accounts && Configured(a) && a.publicKey.value == k;
      var j :| 0 <= j < |s.accounts| && s.accounts[j] == a;
    }
  }

  /** With distinct keys, applying takes the key of an account that is off from the interface. */
  lemma OffAfterApply(s: System, i: nat)
    requires i < |s.accounts| && DistinctKeys(s.accounts)
    requires s.accounts[i].isEnabled != 1 && s.accounts[i].publicKey.Some?
    ensures s.accounts[i].publicKey.value !in Next(s, ApplyConfig).kernel
  {
    OnInterfaceAfterApply(s, s.accounts[i].publicKey.value);
  }

  predicate Off(s: System, i: nat) {
    && i < |s.accounts| && DistinctKeys(s.accounts) && s.accounts[i].isEnabled == 0
    && (s.accounts[i].publicKey.Some? ==> s.accounts[i].publicKey.value !in s.kernel)
  }

  lemma OffStep(s: System, e: Event, i: nat)
    requires Off(s, i) && e != Toggle(i)
    ensures Off(Next(s, e), i)
  {
    StepOfAccount(s, e, i);
    StepFrame(s, e);
    var a, t := s.accounts[i], Next(s, e);
    assert DistinctKeys(t.accounts);
    if e.ApplyConfig? && a.publicKey.Some? { OffAfterApply(s, i); }
  }

  lemma {:induction false} OffRun(s: System, es: seq<Event>, i: nat)
    requires Off(s, i) && Toggle(i) !in es
    ensures Off(Run(s, es), i)
    decreases |es|
  {
    if es != [] {
      assert es[0] in es;
      OffStep(s, es[0], i);
      OffRun(Next(s, es[0]), es[1..], i);
    }
  }

  /** With distinct keys, a user switched off and applied stays off, and off the interface,
      through any traffic, restarts, polls, applies and toggles of other users. */
  lemma SwitchedOffStaysOff(s: System, i: nat, es: seq<Event>)
    requires i < |s.accounts| && DistinctKeys(s.accounts)
    requires s.accounts[i].isEnabled == 1 && Toggle(i) !in es
    ensures var t := Run(Next(Next(s, Toggle(i)), ApplyConfig), es);
            && i < |t.accounts| && t.accounts[i].isEnabled == 0
            && (s.accounts[i].publicKey.Some? ==> s.accounts[i].publicKey.value !in t.kernel)
  {
    var toggled := Next(s, Toggle(i));
    var off := Next(toggled, ApplyConfig);
    StepFrame(s, Toggle(i));
    if s.accounts[i].publicKey.Some? { OffAfterApply(toggled, i); }
    assert Off(off, i);
    OffRun(off, es, i);
    RunFrame(off, es);
  }

  /* ---------- a used-up quota and the interface ---------- */

  /** Switched off for a used-up quota; the key is still on the interface exactly when `on`. */
  predicate CutOff(s: System, i: nat, k: string, on: bool) {
    && HasKey(s, i, k) && DistinctKeys(s.accounts)
    && s.accounts[i].isEnabled == 0 && Exhausted(s.accounts[i])
    && (k in s.kernel <==> on)
  }

  lemma UsageGrows(a: Account, p: PeerLine)
    requires p.rx >= 0 && p.tx >= 0
    ensures Usage(Count(a, p)) >= Usage(a)
  {
  }

  lemma StaysExhausted(a: Account, p: PeerLine, now: int, interval: int)
    requires interval > 0 && p.rx >= 0 && p.tx >= 0 && Exhausted(a)
    ensures Exhausted(PollPresent(a, p, now, interval)) && PollPresent(a, p, now, interval).isEnabled == 0
  {
    UsageGrows(a, p);
  }

  lemma CutOffStep(s: System, e: Event, i: nat, k: string, on: bool)
    requires CutOff(s, i, k, on) && e != Toggle(i)
    ensures CutOff(Next(s, e), i, k, on && !e.ApplyConfig?)
  {
    StepOfAccount(s, e, i);
    StepFrame(s, e);
    assert DistinctKeys(Next(s, e).accounts);
    match e
    case PollAt(now, contacts) =>
      if k in s.kernel { StaysExhausted(s.accounts[i], Shown(s.kernel, contacts)[k], now, s.interval); }
    case ApplyConfig => OffAfterApply(s, i);
    case _ =>
  }

  lemma {:induction false} CutOffRun(s: System, es: seq<Event>, i: nat, k: string, on: bool)
    requires CutOff(s, i, k, on) && Toggle(i) !in es
    ensures CutOff(Run(s, es), i, k, on && ApplyConfig !in es)
    decreases |es|
  {
    if es != [] {
      assert es[0] in es;
      CutOffStep(s, es[0], i, k, on);
      CutOffRun(Next(s, es[0]), es[1..], i, k, on && !es[0].ApplyConfig?);
      assert ApplyConfig in es <==> es[0].ApplyConfig? || ApplyConfig in es[1..];
    }
  }

  /** A poll that finds a quota used up switches the account off and leaves its key where it is.
      From then on, until somebody toggles the account, it stays off, and its key is on the
      interface exactly until the next apply. */
  lemma CutOffAtNextApply(s: System, now: int, contacts: map<string, Contact>, es: seq<Event>, i: nat, k: string)
    requires HasKey(s, i, k) && k in s.kernel && DistinctKeys(s.accounts) && Toggle(i) !in es
    requires !QuotaLeft(s.accounts[i], Shown(s.kernel, contacts)[k], now)
    ensures var t := Run(Next(s, PollAt(now, contacts)), es);
            && HasKey(t, i, k) && t.accounts[i].isEnabled == 0 && Exhausted(t.accounts[i])
            && (k in t.kernel <==> ApplyConfig !in es)
  {
    var polled := Next(s, PollAt(now, contacts));
    StepOfAccount(s, PollAt(now, contacts), i);
    StepFrame(s, PollAt(now, contacts));
    EnabledIffNotExhausted(s.accounts[i], Shown(s.kernel, contacts), now, s.interval);
    ExhaustedExactly(s.accounts[i], Shown(s.kernel, contacts)[k], now, s.interval);
    assert CutOff(polled, i, k, true);
    CutOffRun(polled, es, i, k, true);
  }

  /** Switching off without applying does not last: the next poll that sees the account
      restores it, exactly when each quota that is set exceeds what that poll charges. */
  lemma ToggleWithoutApply(a: Account, table: map<string, PeerLine>, now: int, interval: Interval)
    requires a.isEnabled == 1 && Present(a, table)
    ensures var b := Poll(Toggled(a), table, now, interval);
            b.isEnabled != 0 <==> QuotaLeft(a, table[a.publicKey.value], now)
  {
    EnabledIffNotExhausted(Toggled(a), table, now, interval);
    ExhaustedExactly(Toggled(a), table[a.publicKey.value], now, interval);
  }

  /* ---------- from the printed dump to a poll ---------- */

  /** Lines that show each peer of the kernel once, in any order. */
  predicate Lists(lines: seq<PeerLine>, kernel: map<string, Counters>, contacts: map<string, Contact>) {
    && (forall i, j :: 0 <= i < j < |lines| ==> lines[i].publicKey != lines[j].publicKey)
    && (forall i :: 0 <= i < |lines| ==>
          var k := lines[i].publicKey;
          k in kernel && lines[i] == ShownPeer(k, kernel[k], ContactOf(contacts, k)))
    && (forall k :: k in kernel ==> exists i :: 0 <= i < |lines| && lines[i].publicKey == k)
  }

  lemma {:induction false} TableOf(lines: seq<PeerLine>)
    requires forall i, j :: 0 <= i < j < |lines| ==> lines[i].publicKey != lines[j].publicKey
    ensures forall k :: k in PeerTable(lines) <==> exists i :: 0 <= i < |lines| && lines[i].publicKey == k
    ensures forall i :: 0 <= i < |lines| ==>
              lines[i].publicKey in PeerTable(lines) && PeerTable(lines)[lines[i].publicKey] == lines[i]
  {
    if lines != [] {
      var n := |lines| - 1;
      TableOf(lines[..n]);
      forall k | k in PeerTable(lines) ensures exists i :: 0 <= i < |lines| && lines[i].publicKey == k {
        if k in PeerTable(lines[..n]) {
          var i :| 0 <= i < n && lines[..n][i].publicKey == k;
          assert lines[i].publicKey == k;
        } else {
          assert lines[n].publicKey == k;
        }
      }
      forall i | 0 <= i < |lines|
        ensures lines[i].publicKey in PeerTable(lines) && PeerTable(lines)[lines[i].publicKey] == lines[i]
      {
        if i < n { assert lines[..n][i] == lines[i]; }
      }
    }
  }

  lemma ListingIsShown(lines: seq<PeerLine>, kernel: map<string, Counters>, contacts: map<string, Contact>)
    requires Lists(lines, kernel, contacts)
    ensures PeerTable(lines) == Shown(kernel, contacts)
  {
    hide PeerTable;
    TableOf(lines);
    forall k | k in kernel ensures k in PeerTable(lines) && PeerTable(lines)[k] == Shown(kernel, contacts)[k] {
      var i :| 0 <= i < |lines| && lines[i].publicKey == k;
    }
  }

  /** What `wg` prints for the peers of the kernel, in any order and with any preshared keys,
      is polled as the poll step of a run: the pass over that text writes the same rows. */
  lemma PrintedDumpIsPolled(s: System, head: string, lines: seq<PeerLine>, presharedKeys: seq<string>,
                            now: int, contacts: map<string, Contact>)
    requires head != "" && Trimmed(head) && OneLine(head) && AllPrintable(lines, presharedKeys)
    requires Lists(lines, s.kernel, contacts)
    ensures var output := Dump(ShowDump(head, lines, presharedKeys));
            && output.Peers?
            && PollAll(s.accounts, PeerTable(output.peers), now, s.interval) == Next(s, PollAt(now, contacts)).accounts
  {
    hide PeerTable, ShowDump, AllPrintable, Lists, PollAll;
    DumpReadsBack(head, lines, presharedKeys);
    ListingIsShown(lines, s.kernel, contacts);
  }

  /* ---------- what toggling and applying do to the interface ---------- */

  /** The stored row is enabled, and has this key and addresses. */
  predicate EnabledWith(a: Account, k: string) {
    a.isEnabled == 1 && a.publicKey == Some(k) && k != "" && a.allowedIPs.Some? && TrimSpace(a.allowedIPs.value) != ""
  }

  /** Applying leaves on the interface exactly the keys of enabled users with addresses; a key that was
      there keeps its counters, a new one starts at zero. */
  lemma AppliedInterface(s: System, k: string)
    ensures var t := Next(s, ApplyConfig);
            && t.accounts == s.accounts && t.sent == s.sent
            && (k in t.kernel <==> exists i :: 0 <= i < |s.accounts| && EnabledWith(s.accounts[i], k))
            && (k in t.kernel ==> t.kernel[k] == if k in s.kernel then s.kernel[k] else Counters(0, 0))
  {
    hide TrimSpace;
    ApplyKeeps(s.accounts, s.kernel, k);
    OnInterfaceAfterApply(s, k);
    if j :| 0 <= j < |s.accounts| && Configured(s.accounts[j]) && s.accounts[j].publicKey.value == k {
      assert EnabledWith(s.accounts[j], k);
    }
    if i :| 0 <= i < |s.accounts| && EnabledWith(s.accounts[i], k) {
      assert Configured(s.accounts[i]) && s.accounts[i].publicKey.value == k;
    }
  }

  /** A user who is off, with a key and addresses, is on and on the interface after toggle and apply;
      toggling touches no other user. */
  lemma SwitchedOnAppears(s: System, i: nat, k: string)
    requires HasKey(s, i, k) && s.accounts[i].isEnabled != 1
    requires s.accounts[i].allowedIPs.Some? && TrimSpace(s.accounts[i].allowedIPs.value) != ""
    ensures var t := Next(Next(s, Toggle(i)), ApplyConfig);
            && |t.accounts| == |s.accounts| && k in t.kernel
            && t.accounts[i] == s.accounts[i].(isEnabled := 1)
            && forall j :: 0 <= j < |s.accounts| && j != i ==> t.accounts[j] == s.accounts[j]
  {
    hide TrimSpace;
    var on := Next(s, Toggle(i));
    assert EnabledWith(on.accounts[i], k);
    AppliedInterface(on, k);
  }
}
