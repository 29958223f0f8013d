/** The polling step of the traffic accountant: what one pass over the output of `wg` writes to the
    stored accounts and snapshots. */
module Accounting {
  import opened Text
  import opened WgDump

  const DAY_SECONDS := 86400
  const HANDSHAKE_TIMEOUT := 120
  const SNAPSHOT_LIFETIME := 35 * 86400

  /** The text of `last_day_check`: a readable time stamp or anything else. */
  datatype Stamp = Unreadable | At(sec: int)

  /** The columns of `vpn_users` that polling reads and writes (`None` is SQL NULL); the times
      of `connected_at` and `last_handshake` are in seconds. */
  datatype Account = Account(
    publicKey: Option<string>,
    allowedIPs: Option<string>,
    isConnected: bool,
    connectedAt: Option<int>,
    endpoint: Option<string>,
    lastHandshake: Option<int>,
    bytesRx: int, bytesTx: int,
    prevRx: int, prevTx: int,
    rateRx: int, rateTx: int,
    totalRx: int, totalTx: int,
    remainingDays: Option<int>,
    remainingTraffic: Option<int>,
    lastDayCheck: Option<Stamp>,
    isEnabled: int)

  datatype Snapshot = Snapshot(time: int, download: int, upload: int)

  /* ---------- one poll of one account ---------- */

  function Max(a: int, b: int): int { if a > b then a else b }

  /** Go's integer division by a positive number, which truncates toward zero. */
  function TruncDiv(n: int, d: int): int
    requires d > 0
  {
    if n >= 0 then n / d else -((-n) / d)
  }

  predicate CounterReset(a: Account, p: PeerLine) {
    p.rx < a.bytesRx || p.tx < a.bytesTx
  }

  function ChargeDays(days: Option<int>, last: Option<Stamp>, now: int): (Option<int>, Option<Stamp>) {
    if days.None? then (days, last)
    else if days.value <= 0 then (days, if last.None? then Some(Unreadable) else last)
    else if last.None? || last.value.Unreadable? then (days, Some(At(now)))
    else
      var elapsed := TruncDiv(now - last.value.sec, DAY_SECONDS);
      if elapsed >= 1 then (Some(Max(0, days.value - elapsed)), Some(At(now))) else (days, last)
  }

  /** Bytes ever recorded for an account in one direction, and in both. */
  function RecordedRx(a: Account): int { a.totalRx + a.bytesRx }
  function RecordedTx(a: Account): int { a.totalTx + a.bytesTx }
  function Usage(a: Account): int { RecordedRx(a) + RecordedTx(a) }

  function Count(a: Account, p: PeerLine): Account {
    var reset := CounterReset(a, p);
    a.(totalRx := if reset then a.totalRx + a.bytesRx else a.totalRx,
       totalTx := if reset then a.totalTx + a.bytesTx else a.totalTx,
       bytesRx := p.rx, bytesTx := p.tx, prevRx := p.rx, prevTx := p.tx)
  }

  function ChargeTraffic(traffic: Option<int>, used: int): Option<int> {
    if traffic.None? then None else Some(Max(0, traffic.value - used))
  }

  /** Some quota is set and nothing of it is left. */
  predicate Exhausted(a: Account) {
    || (a.remainingTraffic.Some? && a.remainingTraffic.value <= 0)
    || (a.remainingDays.Some? && a.remainingDays.value <= 0)
  }

  function Rate(now: int, before: int, otherNow: int, otherBefore: int, interval: int): int
    requires interval > 0
  {
    if now >= before && otherNow >= otherBefore then (now - before) / interval else 0
  }

  predicate Connected(p: PeerLine, now: int) {
    p.handshake > 0 && now - p.handshake < HANDSHAKE_TIMEOUT
  }

  /** The row written for an account that the dump lists. */
  function PollPresent(a: Account, p: PeerLine, now: int, interval: int): Account
    requires interval > 0
  {
    var counted := Count(a, p);
    var (days, last) := ChargeDays(a.remainingDays, a.lastDayCheck, now);
    var charged := counted.(
      isConnected := Connected(p, now),
      connectedAt := if Connected(p, now) && !a.isConnected then Some(now) else a.connectedAt,
      endpoint := if TrimSpace(p.endpoint) == "" then None else Some(p.endpoint),
      lastHandshake := if p.handshake > 0 then Some(p.handshake) else None,
      rateRx := Rate(p.rx, a.prevRx, p.tx, a.prevTx, interval),
      rateTx := Rate(p.tx, a.prevTx, p.rx, a.prevRx, interval),
      remainingDays := days, lastDayCheck := last,
      remainingTraffic := ChargeTraffic(a.remainingTraffic, Usage(counted) - Usage(a)));
    charged.(isEnabled :=
      if Exhausted(charged) then 0 else if a.isEnabled == 0 then 1 else a.isEnabled)
  }

  predicate Present(a: Account, table: map<string, PeerLine>) {
    a.publicKey.Some? && a.publicKey.value != "" && a.publicKey.value in table
  }

  /** A connected account that the dump no longer lists. */
  function Offline(a: Account): Account {
    a.(isConnected := false, endpoint := None, lastHandshake := None)
  }

  function Poll(a: Account, table: map<string, PeerLine>, now: int, interval: int): Account
    requires interval > 0
  {
    if Present(a, table) then PollPresent(a, table[a.publicKey.value], now, interval)
    else if a.publicKey.None? || a.publicKey.value == "" then a
    else if a.isConnected then Offline(a)
    else a
  }

  function PollAll(accounts: seq<Account>, table: map<string, PeerLine>, now: int, interval: int): (r: seq<Account>)
    requires interval > 0
    ensures |r| == |accounts|
    ensures forall i :: 0 <= i < |accounts| ==> r[i] == Poll(accounts[i], table, now, interval)
  {
    seq(|accounts|, i requires 0 <= i < |accounts| => Poll(accounts[i], table, now, interval))
  }

  /** The dump as a table: a later line for the same key wins. */
  function PeerTable(dump: seq<PeerLine>): map<string, PeerLine> {
    if dump == [] then map[]
    else PeerTable(dump[..|dump| - 1])[dump[|dump| - 1].publicKey := dump[|dump| - 1]]
  }

  /** Download and upload rates of the accounts that are online and enabled after the poll. */
  function SumRates(before: seq<Account>, table: map<string, PeerLine>, now: int, interval: int): (int, int)
    requires interval > 0
  {
    if before == [] then (0, 0)
    else
      var (d, u) := SumRates(before[..|before| - 1], table, now, interval);
      var a := before[|before| - 1];
      var b := Poll(a, table, now, interval);
      if Present(a, table) && b.isConnected && b.isEnabled != 0 then (d + b.rateTx, u + b.rateRx) else (d, u)
  }

  function KeepRecent(snaps: seq<Snapshot>, now: int): seq<Snapshot> {
    if snaps == [] then []
    else
      var rest := KeepRecent(snaps[..|snaps| - 1], now);
      var last := snaps[|snaps| - 1];
      if last.time < now - SNAPSHOT_LIFETIME then rest else rest + [last]
  }

  /** `COALESCE(?, column)`. */
  function Coalesce<T>(argument: Option<T>, column: Option<T>): Option<T> {
    if argument.Some? then argument else column
  }

  /** The day charge of the row loop; the results are arguments of COALESCE. */
  method DayStep(a: Account, now: int) returns (newDays: Option<int>, newCheck: Option<Stamp>)
    ensures (Coalesce(newDays, a.remainingDays), Coalesce(newCheck, a.lastDayCheck)) ==
            ChargeDays(a.remainingDays, a.lastDayCheck, now)
    ensures newDays.Some? == a.remainingDays.Some?
  {
    newDays, newCheck := None, None;
    if a.remainingDays.Some? {
      var rd := a.remainingDays.value;
      newDays := Some(rd);
      if rd > 0 {
        if a.lastDayCheck.Some? && a.lastDayCheck.value.At? {
          var days := TruncDiv(now - a.lastDayCheck.value.sec, DAY_SECONDS);
          if days >= 1 {
            newDays, newCheck := Some(Max(0, rd - days)), Some(At(now));
          } else {
            newCheck := a.lastDayCheck;
          }
        } else {
          newCheck := Some(At(now));
        }
      } else {
        newCheck := if a.lastDayCheck.Some? then a.lastDayCheck else Some(Unreadable);
      }
    }
  }

  /** The traffic charge and the enable decision of the row loop. */
  method QuotaStep(a: Account, counted: Account, newDays: Option<int>)
    returns (newTraffic: Option<int>, newIsEnabled: int)
    requires newDays.Some? == a.remainingDays.Some?
    ensures newTraffic == ChargeTraffic(a.remainingTraffic, Usage(counted) - Usage(a))
    ensures newIsEnabled ==
            if (newTraffic.Some? && newTraffic.value <= 0) || (newDays.Some? && newDays.value <= 0) then 0
            else if a.isEnabled == 0 then 1 else a.isEnabled
  {
    newTraffic := None;
    var disable, enable := false, false;
    if a.remainingTraffic.Some? {
      var prevTotalUsage := a.totalRx + a.totalTx + a.bytesRx + a.bytesTx;
      var curTotalUsage := counted.totalRx + counted.totalTx + counted.bytesRx + counted.bytesTx;
      var rem := a.remainingTraffic.value - (curTotalUsage - prevTotalUsage);
      if rem <= 0 { rem, disable := 0, true; }
      newTraffic := Some(rem);
    }
    if a.remainingDays.Some? && newDays.value <= 0 { disable := true; }
    if a.isEnabled == 0 && !disable {
      var hasTraffic := a.remainingTraffic.None? || newTraffic.value > 0;
      var hasDays := a.remainingDays.None? || newDays.value > 0;
      if hasTraffic && hasDays { enable := true; }
    }
    newIsEnabled := a.isEnabled;
    if disable && a.isEnabled != 0 { newIsEnabled := 0; }
    if enable && a.isEnabled == 0 { newIsEnabled := 1; }
  }

  /** The body of the row loop: the new row for an account the dump lists. */
  method UpdateRow(a: Account, p: PeerLine, now: int, interval: int) returns (b: Account)
    requires interval > 0
    ensures b == PollPresent(a, p, now, interval)
  {
    hide ChargeDays, TrimSpace;
    var handshakeAge := if p.handshake > 0 then now - p.handshake else 0;
    var connected := p.handshake > 0 && handshakeAge < HANDSHAKE_TIMEOUT;
    var newConnectedAt := if connected && !a.isConnected then Some(now) else None;
    var lastHandshake := if p.handshake > 0 then Some(p.handshake) else None;

    var newTotalRx, newTotalTx := a.totalRx, a.totalTx;
    if p.rx < a.bytesRx || p.tx < a.bytesTx {
      newTotalRx := a.totalRx + a.bytesRx;
      newTotalTx := a.totalTx + a.bytesTx;
    }
    var counted := a.(bytesRx := p.rx, bytesTx := p.tx, prevRx := p.rx, prevTx := p.tx,
                      totalRx := newTotalRx, totalTx := newTotalTx);
    assert counted == Count(a, p);

    var rxRate, txRate := 0, 0;
    var deltaRx, deltaTx := p.rx - a.prevRx, p.tx - a.prevTx;
    if deltaRx >= 0 && deltaTx >= 0 {
      rxRate, txRate := deltaRx / interval, deltaTx / interval;
    }
    assert rxRate == Rate(p.rx, a.prevRx, p.tx, a.prevTx, interval);
    assert txRate == Rate(p.tx, a.prevTx, p.rx, a.prevRx, interval);

    var newDays, newCheck := DayStep(a, now);
    var newTraffic, newIsEnabled := QuotaStep(a, counted, newDays);
    b := counted.(
      isConnected := connected,
      connectedAt := Coalesce(newConnectedAt, a.connectedAt),
      endpoint := if TrimSpace(p.endpoint) == "" then None else Some(p.endpoint),
      lastHandshake := lastHandshake,
      rateRx := rxRate, rateTx := txRate,
      remainingDays := Coalesce(newDays, a.remainingDays),
      remainingTraffic := Coalesce(newTraffic, a.remainingTraffic),
      lastDayCheck := Coalesce(newCheck, a.lastDayCheck),
      isEnabled := newIsEnabled);
  }

  class Syncer {
    const intervalSec: int
    var accounts: seq<Account>
    var snapshots: seq<Snapshot>

    constructor (intervalSec: int, accounts: seq<Account>)
      ensures this.intervalSec == intervalSec && this.accounts == accounts && snapshots == []
    {
      this.intervalSec := intervalSec;
      this.accounts := accounts;
      snapshots := [];
    }

    /** One pass over the stored rows in one transaction; the rate sums become a snapshot
        and old snapshots go. Output of `wg` that does not parse leaves everything as it is. */
    method SyncOnce(output: string, now: int) returns (ok: bool)
      modifies this
      ensures ok == Dump(output).Peers?
      ensures !ok ==> accounts == old(accounts) && snapshots == old(snapshots)
      ensures ok ==>
                var table := PeerTable(Dump(output).peers);
                var (d, u) := SumRates(old(accounts), table, now, Max(1, intervalSec));
                && accounts == PollAll(old(accounts), table, now, Max(1, intervalSec))
                && snapshots == KeepRecent(old(snapshots) + [Snapshot(now, d, u)], now)
    {
      var status := ParseDump(output);
      if !status.Peers? { return false; }
      var peerByKey := BuildTable(status.peers);
      var rows, d, u := PollRows(accounts, peerByKey, now, Max(1, intervalSec));
      snapshots := Prune(snapshots + [Snapshot(now, d, u)], now);
      accounts := rows;
      return true;
    }
  }

  method BuildTable(dump: seq<PeerLine>) returns (peerByKey: map<string, PeerLine>)
    ensures peerByKey == PeerTable(dump)
  {
    peerByKey := map[];
    for k := 0 to |dump|
      invariant peerByKey == PeerTable(dump[..k])
    {
      assert dump[..k + 1][..k] == dump[..k];
      peerByKey := peerByKey[dump[k].publicKey := dump[k]];
    }
    assert dump[..|dump|] == dump;
  }

  /** The loop over the selected rows, with its running rate sums. */
  method PollRows(stored: seq<Account>, peerByKey: map<string, PeerLine>, now: int, interval: int)
    returns (rows: seq<Account>, totalDownload: int, totalUpload: int)
    requires interval > 0
    ensures rows == PollAll(stored, peerByKey, now, interval)
    ensures (totalDownload, totalUpload) == SumRates(stored, peerByKey, now, interval)
  {
    hide PollPresent, TrimSpace;
    rows, totalDownload, totalUpload := stored, 0, 0;
    for i := 0 to |stored|
      invariant |rows| == |stored|
      invariant forall j :: 0 <= j < i ==> rows[j] == Poll(stored[j], peerByKey, now, interval)
      invariant forall j :: i <= j < |stored| ==> rows[j] == stored[j]
      invariant (totalDownload, totalUpload) == SumRates(stored[..i], peerByKey, now, interval)
    {
      assert stored[..i + 1][..i] == stored[..i] && stored[..i + 1][i] == stored[i];
      var a := rows[i];
      if a.publicKey.None? || a.publicKey.value == "" { continue; }
      if a.publicKey.value !in peerByKey {
        if a.isConnected { rows := rows[i := Offline(a)]; }
        continue;
      }
      var b := UpdateRow(a, peerByKey[a.publicKey.value], now, interval);
      if b.isConnected && b.isEnabled != 0 {
        totalDownload := totalDownload + b.rateTx;
        totalUpload := totalUpload + b.rateRx;
      }
      rows := rows[i := b];
    }
    assert stored[..|stored|] == stored;
  }

  /** `DELETE FROM bandwidth_snapshots` of the rows older than 35 days. */
  method Prune(all: seq<Snapshot>, now: int) returns (kept: seq<Snapshot>)
    ensures kept == KeepRecent(all, now)
  {
    kept := [];
    for k := 0 to |all|
      invariant kept == KeepRecent(all[..k], now)
    {
      assert all[..k + 1][..k] == all[..k];
      if all[k].time >= now - SNAPSHOT_LIFETIME { kept := kept + [all[k]]; }
    }
    assert all[..|all|] == all;
  }

  lemma {:induction false} KeptAreRecent(snaps: seq<Snapshot>, now: int)
    ensures forall s :: s in KeepRecent(snaps, now) <==> s in snaps && s.time >= now - 3_024_000
  {
    if snaps != [] {
      var n := |snaps| - 1;
      KeptAreRecent(snaps[..n], now);
      assert snaps == snaps[..n] + [snaps[n]];
    }
  }

  /* ---------- what one poll establishes ---------- */

  /** A poll that sees the account leaves it enabled exactly when no set quota is exhausted;
      in particular a switched-off account with quota left comes back on. */
  lemma EnabledIffNotExhausted(a: Account, table: map<string, PeerLine>, now: int, interval: int)
    requires interval > 0
    ensures var b := Poll(a, table, now, interval);
            if Present(a, table) then b.isEnabled != 0 <==> !Exhausted(b) else b.isEnabled == a.isEnabled
    ensures var b := Poll(a, table, now, interval);
            b.isEnabled == a.isEnabled || b.isEnabled == 0 || (a.isEnabled == 0 && b.isEnabled == 1)
  {
  }

  /** Bytes a listed peer adds to the recorded usage. */
  function Used(a: Account, p: PeerLine): int {
    if CounterReset(a, p) then p.rx + p.tx else (p.rx - a.bytesRx) + (p.tx - a.bytesTx)
  }

  /** Full days since a readable stamp. */
  function DaysPassed(last: Option<Stamp>, now: int): int {
    if last.Some? && last.value.At? then Max(0, TruncDiv(now - last.value.sec, DAY_SECONDS)) else 0
  }

  /** What is left of each quota that is set exceeds what the next poll will charge. */
  predicate QuotaLeft(a: Account, p: PeerLine, now: int) {
    && (a.remainingTraffic.Some? ==> a.remainingTraffic.value > Used(a, p))
    && (a.remainingDays.Some? ==> a.remainingDays.value > DaysPassed(a.lastDayCheck, now))
  }

  /** Whether a poll leaves a quota used up can be told from the row, the line and the clock. */
  lemma ExhaustedExactly(a: Account, p: PeerLine, now: int, interval: int)
    requires interval > 0
    ensures Exhausted(PollPresent(a, p, now, interval)) <==> !QuotaLeft(a, p, now)
  {
    hide Rate, Connected, TruncDiv;
  }

  /** The snapshot never reports more than was sent: rate times interval is within the growth
      of the kernel counters since the previous poll. */
  lemma {:induction false} RatesWithinTraffic(before: seq<Account>, table: map<string, PeerLine>, now: int,
                                              interval: int)
    requires interval > 0
    ensures var (d, u) := SumRates(before, table, now, interval);
            0 <= d * interval <= Growth(before, table).1 && 0 <= u * interval <= Growth(before, table).0
  {
    if before != [] {
      var init, a := before[..|before| - 1], before[|before| - 1];
      RatesWithinTraffic(init, table, now, interval);
      if Present(a, table) {
        var p := table[a.publicKey.value];
        RateTimesInterval(p.rx, a.prevRx, p.tx, a.prevTx, interval);
        RateTimesInterval(p.tx, a.prevTx, p.rx, a.prevRx, interval);
        var (d, u) := SumRates(init, table, now, interval);
        var b := Poll(a, table, now, interval);
        Distribute(d, b.rateTx, interval);
        Distribute(u, b.rateRx, interval);
      }
    }
  }

  /** Bytes the kernel counted (rx, tx) since the stored readings, for the listed accounts. */
  function Growth(accounts: seq<Account>, table: map<string, PeerLine>): (int, int) {
    if accounts == [] then (0, 0)
    else
      var (rx, tx) := Growth(accounts[..|accounts| - 1], table);
      var a := accounts[|accounts| - 1];
      if Present(a, table) then
        var p := table[a.publicKey.value];
        (rx + Max(0, p.rx - a.prevRx), tx + Max(0, p.tx - a.prevTx))
      else (rx, tx)
  }

  lemma Distribute(x: int, y: int, m: int)
    ensures (x + y) * m == x * m + y * m
  {
  }

  lemma RateTimesInterval(now: int, before: int, otherNow: int, otherBefore: int, interval: int)
    requires interval > 0
    ensures 0 <= Rate(now, before, otherNow, otherBefore, interval) * interval <= Max(0, now - before)
  {
    var g := now - before;
    if g >= 0 {
      assert g == (g / interval) * interval + g % interval;
      assert g / interval >= 0;
      assert (g / interval) * interval >= 0;
    }
  }

  /** A renewal leaves `last_day_check` alone, so the next poll charges every full day since
      the old stamp; the renewed days stay whole exactly when the stamp is under a day old. */
  lemma RenewalChargesStaleDays(a: Account, renewed: int, p: PeerLine, now: int, interval: int)
    requires interval > 0 && renewed > 0
    requires a.lastDayCheck.Some? && a.lastDayCheck.value.At? && a.lastDayCheck.value.sec <= now
    ensures var b := PollPresent(a.(remainingDays := Some(renewed)), p, now, interval);
            var stale := (now - a.lastDayCheck.value.sec) / DAY_SECONDS;
            && b.remainingDays == Some(Max(0, renewed - stale))
            && (b.remainingDays == Some(renewed) <==> now - a.lastDayCheck.value.sec < DAY_SECONDS)
  {
  }

  /* ---------- the columns a poll writes ---------- */

  /** The dump has a line for the account's key. */
  predicate Listed(a: Account, table: map<string, PeerLine>) {
    a.publicKey.Some? && a.publicKey.value != "" && a.publicKey.value in table
  }

  /** A listed account is connected exactly when its last handshake is under 120 seconds old, since
      now when it was not connected before; endpoint and handshake are those of the line. An account
      that is not listed is off: one that was on loses both, one without a key is left alone. */
  lemma PolledConnection(a: Account, table: map<string, PeerLine>, now: int, interval: int)
    requires interval > 0
    ensures Listed(a, table) ==>
              var b, p := Poll(a, table, now, interval), table[a.publicKey.value];
              && (b.isConnected <==> 0 < p.handshake && now < p.handshake + 120)
              && b.connectedAt == (if b.isConnected && !a.isConnected then Some(now) else a.connectedAt)
              && b.lastHandshake == (if p.handshake > 0 then Some(p.handshake) else None)
              && b.endpoint == (if TrimSpace(p.endpoint) == "" then None else Some(p.endpoint))
              && b.publicKey == a.publicKey && b.allowedIPs == a.allowedIPs
    ensures !Listed(a, table) ==>
              var b := Poll(a, table, now, interval);
              if a.isConnected && a.publicKey.Some? && a.publicKey.value != ""
              then b == a.(isConnected := false, endpoint := None, lastHandshake := None)
              else b == a
  {
    hide TrimSpace;
  }

  /** Counters are those of the line. When one of them went down, both totals take in what was stored. */
  lemma PolledCounters(a: Account, table: map<string, PeerLine>, now: int, interval: int)
    requires interval > 0 && Listed(a, table)
    ensures var b, p := Poll(a, table, now, interval), table[a.publicKey.value];
            var restarted := p.rx < a.bytesRx || p.tx < a.bytesTx;
            && b.bytesRx == b.prevRx == p.rx && b.bytesTx == b.prevTx == p.tx
            && b.totalRx - a.totalRx == (if restarted then a.bytesRx else 0)
            && b.totalTx - a.totalTx == (if restarted then a.bytesTx else 0)
  {
    hide TrimSpace;
  }

  /** Rates are the growth since the last poll divided by the interval and rounded down, or both zero
      when a counter went down. */
  lemma PolledRates(a: Account, table: map<string, PeerLine>, now: int, interval: int)
    requires interval > 0 && Listed(a, table)
    ensures var b, p := Poll(a, table, now, interval), table[a.publicKey.value];
            if p.rx < a.prevRx || p.tx < a.prevTx then b.rateRx == b.rateTx == 0
            else
              && b.rateRx * interval <= p.rx - a.prevRx < b.rateRx * interval + interval
              && b.rateTx * interval <= p.tx - a.prevTx < b.rateTx * interval + interval
  {
    hide TrimSpace, ChargeDays, Connected;
    var p := table[a.publicKey.value];
    if !(p.rx < a.prevRx || p.tx < a.prevTx) {
      Quotient(p.rx - a.prevRx, interval);
      Quotient(p.tx - a.prevTx, interval);
    }
  }

  lemma Quotient(n: int, m: int)
    requires m > 0
    ensures n / m * m <= n < n / m * m + m
  {
    assert n == n / m * m + n % m;
  }

  /** A traffic quota loses the bytes the line adds, and not more than it has. */
  lemma PolledTraffic(a: Account, table: map<string, PeerLine>, now: int, interval: int)
    requires interval > 0 && Listed(a, table)
    ensures var b, p := Poll(a, table, now, interval), table[a.publicKey.value];
            var restarted := p.rx < a.bytesRx || p.tx < a.bytesTx;
            var used := if restarted then p.rx + p.tx else p.rx - a.bytesRx + p.tx - a.bytesTx;
            b.remainingTraffic ==
            if a.remainingTraffic.None? then None
            else if a.remainingTraffic.value <= used then Some(0) else Some(a.remainingTraffic.value - used)
  {
    hide TrimSpace, ChargeDays, Connected, Rate;
  }

  /** A day quota that is not used up loses the full days since its stamp, which then moves to now; an
      absent or unreadable stamp is set to now first. */
  lemma PolledDays(a: Account, table: map<string, PeerLine>, now: int, interval: int)
    requires interval > 0 && Listed(a, table)
    ensures var b := Poll(a, table, now, interval);
            match a.remainingDays
            case None => b.remainingDays == None && b.lastDayCheck == a.lastDayCheck
            case Some(days) =>
              if days <= 0 then
                b.remainingDays == Some(days)
                && b.lastDayCheck == Some(if a.lastDayCheck.Some? then a.lastDayCheck.value else Unreadable)
              else match a.lastDayCheck
                case Some(At(sec)) =>
                  if now - sec < 86400 then b.remainingDays == Some(days) && b.lastDayCheck == a.lastDayCheck
                  else
                    && b.lastDayCheck == Some(At(now))
                    && (days * 86400 <= now - sec ==> b.remainingDays == Some(0))
                    && (days * 86400 > now - sec ==>
                          b.remainingDays.Some? && 0 <= now - sec - (days - b.remainingDays.value) * 86400 < 86400)
                case _ => b.remainingDays == Some(days) && b.lastDayCheck == Some(At(now))
  {
    hide TrimSpace, Connected, Rate, ChargeTraffic, Count, Exhausted;
  }

  /** The summed rates: download is what is sent to the peers, upload what is received from them. */
  function StoredRates(rows: seq<Account>): (int, int) {
    if rows == [] then (0, 0)
    else
      var (d, u) := StoredRates(rows[..|rows| - 1]);
      var b := rows[|rows| - 1];
      if b.publicKey.Some? && b.publicKey.value != "" && b.isConnected && b.isEnabled != 0
      then (d + b.rateTx, u + b.rateRx) else (d, u)
  }

  /** The snapshot sums the rates stored for the accounts that are online and enabled after the poll. */
  lemma {:induction false} SumsAreStored(before: seq<Account>, table: map<string, PeerLine>, now: int, interval: int)
    requires interval > 0
    ensures SumRates(before, table, now, interval) == StoredRates(PollAll(before, table, now, interval))
  {
    hide PollPresent, TrimSpace;
    if before != [] {
      var n := |before| - 1;
      SumsAreStored(before[..n], table, now, interval);
      assert PollAll(before, table, now, interval)[..n] == PollAll(before[..n], table, now, interval);
      PolledKey(before[n], table, now, interval);
    }
  }

  lemma PolledKey(a: Account, table: map<string, PeerLine>, now: int, interval: int)
    requires interval > 0
    ensures Poll(a, table, now, interval).publicKey == a.publicKey
  {
    hide TrimSpace, ChargeDays, Connected, Rate;
  }

  /** Dropping old snapshots keeps the order and the number of those that stay. */
  lemma {:induction false} KeptInOrder(a: seq<Snapshot>, b: seq<Snapshot>, now: int)
    ensures KeepRecent(a + b, now) == KeepRecent(a, now) + KeepRecent(b, now)
    ensures |b| == 1 ==> KeepRecent(b, now) == if b[0].time >= now - 3_024_000 then b else []
  {
    if b == [] {
      assert a + b == a;
    } else {
      var n := |b| - 1;
      assert (a + b)[..|a + b| - 1] == a + b[..n];
      KeptInOrder(a, b[..n], now);
      assert |b| == 1 ==> [b[0]] == b;
    }
  }

  /** The table holds, for each key, the last line of the dump with it. */
  lemma {:induction false} LastLineWins(dump: seq<PeerLine>, i: nat)
    requires i < |dump| && forall j :: i < j < |dump| ==> dump[j].publicKey != dump[i].publicKey
    ensures dump[i].publicKey in PeerTable(dump) && PeerTable(dump)[dump[i].publicKey] == dump[i]
  {
    var n := |dump| - 1;
    if i < n { LastLineWins(dump[..n], i); }
  }

  lemma {:induction false} TableKeys(dump: seq<PeerLine>, k: string)
    ensures k in PeerTable(dump) <==> exists i :: 0 <= i < |dump| && dump[i].publicKey == k
  {
    if dump != [] {
      var n := |dump| - 1;
      TableKeys(dump[..n], k);
      if i :| 0 <= i < n && dump[..n][i].publicKey == k { assert dump[i].publicKey == k; }
      if dump[n].publicKey != k {
        if i :| 0 <= i < |dump| && dump[i].publicKey == k { assert dump[..n][i].publicKey == k; }
      }
    }
  }
}
