/** Turning rate snapshots into transferred bytes, daily totals and chart buckets. */
module Bandwidth {
  import opened Accounting

  /** A stored snapshot: time in seconds and the two rates in bytes per second. */
  datatype Snap = Snap(t: int, d: int, u: int)

  /** Seconds one snapshot stands for: up to the next one, and no more than the gap limit. */
  function Covered(a: Snap, b: Snap, maxGap: int): int {
    var dt := b.t - a.t;
    if dt <= 0 then 0 else if maxGap > 0 && dt > maxGap then maxGap else dt
  }

  function Bytes(snaps: seq<Snap>, maxGap: int): (int, int) {
    if |snaps| < 2 then (0, 0)
    else
      var n := |snaps| - 1;
      var (d, u) := Bytes(snaps[..n], maxGap);
      var sec := Covered(snaps[n - 1], snaps[n], maxGap);
      (d + snaps[n - 1].d * sec, u + snaps[n - 1].u * sec)
  }

  function Seconds(snaps: seq<Snap>, maxGap: int): int {
    if |snaps| < 2 then 0
    else
      var n := |snaps| - 1;
      Seconds(snaps[..n], maxGap) + Covered(snaps[n - 1], snaps[n], maxGap)
  }

  method IntegrateBandwidthBytes(snaps: seq<Snap>, maxGap: int) returns (download: int, upload: int)
    ensures (download, upload) == Bytes(snaps, maxGap)
  {
    download, upload := 0, 0;
    if |snaps| == 0 { return; }
    for i := 0 to |snaps| - 1
      invariant (download, upload) == Bytes(snaps[..i + 1], maxGap)
    {
      assert snaps[..i + 2][..i + 1] == snaps[..i + 1];
      var a, b := snaps[i], snaps[i + 1];
      var dt := b.t - a.t;
      if dt <= 0 { continue; }
      if maxGap > 0 && dt > maxGap { dt := maxGap; }
      download := download + a.d * dt;
      upload := upload + a.u * dt;
    }
    assert snaps[..|snaps|] == snaps;
  }

  /* ---------- daily totals ---------- */

  function At(m: map<int, int>, k: int): int { if k in m then m[k] else 0 }

  /** Bytes of the intervals that start on one day. */
  function DayBytes(snaps: seq<Snap>, maxGap: int, dayOf: int -> int, day: int): (int, int) {
    if |snaps| < 2 then (0, 0)
    else
      var n := |snaps| - 1;
      var (d, u) := DayBytes(snaps[..n], maxGap, dayOf, day);
      var a, sec := snaps[n - 1], Covered(snaps[n - 1], snaps[n], maxGap);
      if dayOf(a.t) == day then (d + a.d * sec, u + a.u * sec) else (d, u)
  }

  datatype Day = Day(day: int, download: int, upload: int)

  /** The sums over days 1 to `n`. */
  function DaySums(snaps: seq<Snap>, maxGap: int, dayOf: int -> int, n: nat): (int, int) {
    if n == 0 then (0, 0)
    else
      var (d, u) := DaySums(snaps, maxGap, dayOf, n - 1);
      var (x, y) := DayBytes(snaps, maxGap, dayOf, n);
      (d + x, u + y)
  }

  /** The two tables hold the bytes of every day. */
  ghost predicate Tallied(down: map<int, int>, up: map<int, int>, snaps: seq<Snap>, maxGap: int, dayOf: int -> int) {
    forall day :: (At(down, day), At(up, day)) == DayBytes(snaps, maxGap, dayOf, day)
  }

  lemma TallyNext(down: map<int, int>, up: map<int, int>, snaps: seq<Snap>, i: nat, maxGap: int, dayOf: int -> int)
    requires i + 1 < |snaps| && Tallied(down, up, snaps[..i + 1], maxGap, dayOf)
    ensures var a, sec := snaps[i], Covered(snaps[i], snaps[i + 1], maxGap);
            var day := dayOf(a.t);
            Tallied(down[day := At(down, day) + a.d * sec], up[day := At(up, day) + a.u * sec],
                    snaps[..i + 2], maxGap, dayOf)
  {
    hide Covered;
    var a, sec := snaps[i], Covered(snaps[i], snaps[i + 1], maxGap);
    var x := dayOf(a.t);
    var down', up' := down[x := At(down, x) + a.d * sec], up[x := At(up, x) + a.u * sec];
    assert snaps[..i + 2][..i + 1] == snaps[..i + 1];
    forall day ensures (At(down', day), At(up', day)) == DayBytes(snaps[..i + 2], maxGap, dayOf, day) {
      assert (At(down, day), At(up, day)) == DayBytes(snaps[..i + 1], maxGap, dayOf, day);
    }
  }

  lemma TallySkip(down: map<int, int>, up: map<int, int>, snaps: seq<Snap>, i: nat, maxGap: int, dayOf: int -> int)
    requires i + 1 < |snaps| && Tallied(down, up, snaps[..i + 1], maxGap, dayOf)
    requires Covered(snaps[i], snaps[i + 1], maxGap) == 0
    ensures Tallied(down, up, snaps[..i + 2], maxGap, dayOf)
  {
    hide Covered;
    assert snaps[..i + 2][..i + 1] == snaps[..i + 1];
    assert snaps[i].d * 0 == 0 && snaps[i].u * 0 == 0;
  }

  method ByDay(snaps: seq<Snap>, maxGap: int, dayOf: int -> int) returns (down: map<int, int>, up: map<int, int>)
    requires maxGap > 0
    ensures Tallied(down, up, snaps, maxGap, dayOf)
  {
    hide Tallied, DayBytes;
    down, up := map[], map[];
    TallyNone(snaps, maxGap, dayOf);
    if |snaps| == 0 { return; }
    for i := 0 to |snaps| - 1
      invariant Tallied(down, up, snaps[..i + 1], maxGap, dayOf)
    {
      var a, b := snaps[i], snaps[i + 1];
      var dt := b.t - a.t;
      if dt <= 0 {
        TallySkip(down, up, snaps, i, maxGap, dayOf);
        continue;
      }
      if dt > maxGap { dt := maxGap; }
      var day := dayOf(a.t);
      TallyNext(down, up, snaps, i, maxGap, dayOf);
      down := down[day := At(down, day) + a.d * dt];
      up := up[day := At(up, day) + a.u * dt];
    }
    assert snaps[..|snaps|] == snaps;
  }

  lemma TallyNone(snaps: seq<Snap>, maxGap: int, dayOf: int -> int)
    ensures Tallied(map[], map[], [], maxGap, dayOf)
    ensures |snaps| > 0 ==> Tallied(map[], map[], snaps[..1], maxGap, dayOf)
  {
  }

  /** Bounds of all bars that are attained, or zero. */
  predicate Peaks(bars: seq<Day>, peakD: int, peakU: int) {
    && peakD >= 0 && peakU >= 0
    && (forall i :: 0 <= i < |bars| ==> bars[i].download <= peakD && bars[i].upload <= peakU)
    && (peakD == 0 || exists i :: 0 <= i < |bars| && bars[i].download == peakD)
    && (peakU == 0 || exists i :: 0 <= i < |bars| && bars[i].upload == peakU)
  }

  lemma NoPeaks()
    ensures Peaks([], 0, 0)
  {
  }

  lemma PeaksBound(bars: seq<Day>, peakD: int, peakU: int)
    requires Peaks(bars, peakD, peakU)
    ensures peakD >= 0 && peakU >= 0
    ensures forall i :: 0 <= i < |bars| ==> bars[i].download <= peakD && bars[i].upload <= peakU
    ensures peakD == 0 || exists i :: 0 <= i < |bars| && bars[i].download == peakD
    ensures peakU == 0 || exists i :: 0 <= i < |bars| && bars[i].upload == peakU
  {
  }

  lemma PeaksNext(bars: seq<Day>, b: Day, peakD: int, peakU: int)
    requires Peaks(bars, peakD, peakU)
    ensures Peaks(bars + [b], if b.download > peakD then b.download else peakD,
                  if b.upload > peakU then b.upload else peakU)
  {
    var all := bars + [b];
    assert all[|bars|] == b;
    assert forall i :: 0 <= i < |bars| ==> all[i] == bars[i];
  }

  /** The month's bars, their sums and their peaks. */
  method DailyHistory(snaps: seq<Snap>, maxGap: int, dayOf: int -> int, today: nat)
    returns (out: seq<Day>, sumD: int, sumU: int, peakD: int, peakU: int)
    requires maxGap > 0
    ensures |out| == today
    ensures forall i :: 0 <= i < today ==>
              out[i].day == i + 1 && (out[i].download, out[i].upload) == DayBytes(snaps, maxGap, dayOf, i + 1)
    ensures (sumD, sumU) == DaySums(snaps, maxGap, dayOf, today)
    ensures DaysWithin(snaps, dayOf, today) ==> (sumD, sumU) == Bytes(snaps, maxGap)
    ensures peakD >= 0 && peakU >= 0
    ensures forall i :: 0 <= i < today ==> out[i].download <= peakD && out[i].upload <= peakU
    ensures peakD == 0 || exists i :: 0 <= i < today && out[i].download == peakD
    ensures peakU == 0 || exists i :: 0 <= i < today && out[i].upload == peakU
  {
    hide DayBytes, Bytes, DaysWithin, Peaks;
    NoPeaks();
    var byDayD, byDayU := ByDay(snaps, maxGap, dayOf);
    out, sumD, sumU, peakD, peakU := [], 0, 0, 0, 0;
    for k := 0 to today
      invariant |out| == k && Peaks(out, peakD, peakU)
      invariant forall i :: 0 <= i < k ==>
                  out[i].day == i + 1 && (out[i].download, out[i].upload) == DayBytes(snaps, maxGap, dayOf, i + 1)
      invariant (sumD, sumU) == DaySums(snaps, maxGap, dayOf, k)
    {
      var day := k + 1;
      var d, u := At(byDayD, day), At(byDayU, day);
      assert (d, u) == DayBytes(snaps, maxGap, dayOf, day);
      PeaksNext(out, Day(day, d, u), peakD, peakU);
      out := out + [Day(day, d, u)];
      peakD := if d > peakD then d else peakD;
      peakU := if u > peakU then u else peakU;
      sumD := sumD + d;
      sumU := sumU + u;
    }
    PeaksBound(out, peakD, peakU);
    if DaysWithin(snaps, dayOf, today) { DaysAddUp(snaps, maxGap, dayOf, today); }
  }

  predicate DaysWithin(snaps: seq<Snap>, dayOf: int -> int, today: nat) {
    forall i :: 0 <= i < |snaps| ==> 1 <= dayOf(snaps[i].t) <= today
  }

  /** Adding one interval adds its bytes to its own day and to no other. */
  lemma {:induction false} DaySumsSnoc(snaps: seq<Snap>, maxGap: int, dayOf: int -> int, n: nat)
    requires |snaps| >= 2
    ensures var k := |snaps| - 1;
            var a, sec := snaps[k - 1], Covered(snaps[k - 1], snaps[k], maxGap);
            var (d, u) := DaySums(snaps[..k], maxGap, dayOf, n);
            DaySums(snaps, maxGap, dayOf, n) ==
            if 1 <= dayOf(a.t) <= n then (d + a.d * sec, u + a.u * sec) else (d, u)
  {
    if n > 0 {
      DaySumsSnoc(snaps, maxGap, dayOf, n - 1);
    }
  }

  lemma {:induction false} NoIntervals(snaps: seq<Snap>, maxGap: int, dayOf: int -> int, n: nat)
    requires |snaps| < 2
    ensures DaySums(snaps, maxGap, dayOf, n) == (0, 0)
  {
    if n > 0 {
      NoIntervals(snaps, maxGap, dayOf, n - 1);
    }
  }

  /** Conservation: the daily totals add up to the integral over the same snapshots. */
  lemma {:induction false} DaysAddUp(snaps: seq<Snap>, maxGap: int, dayOf: int -> int, today: nat)
    requires DaysWithin(snaps, dayOf, today)
    ensures DaySums(snaps, maxGap, dayOf, today) == Bytes(snaps, maxGap)
  {
    if |snaps| < 2 {
      NoIntervals(snaps, maxGap, dayOf, today);
    } else {
      DaysAddUp(snaps[..|snaps| - 1], maxGap, dayOf, today);
      DaySumsSnoc(snaps, maxGap, dayOf, today);
    }
  }

  predicate RatesWithin(snaps: seq<Snap>, lo: int, hi: int) {
    forall i :: 0 <= i < |snaps| ==> lo <= snaps[i].d <= hi && lo <= snaps[i].u <= hi
  }

  lemma Scale(r: int, lo: int, hi: int, sec: int)
    requires lo <= r <= hi && sec >= 0
    ensures lo * sec <= r * sec <= hi * sec
  {
  }

  /** The integral is at most the highest rate over the covered seconds (and at least the lowest). */
  lemma {:induction false} BytesBounded(snaps: seq<Snap>, maxGap: int, lo: int, hi: int)
    requires RatesWithin(snaps, lo, hi)
    ensures var (d, u) := Bytes(snaps, maxGap);
            var sec := Seconds(snaps, maxGap);
            0 <= sec && lo * sec <= d <= hi * sec && lo * sec <= u <= hi * sec
  {
    if |snaps| >= 2 {
      var n := |snaps| - 1;
      BytesBounded(snaps[..n], maxGap, lo, hi);
      var sec := Covered(snaps[n - 1], snaps[n], maxGap);
      Scale(snaps[n - 1].d, lo, hi, sec);
      Scale(snaps[n - 1].u, lo, hi, sec);
      Distribute(lo, 0, sec);
      AddScaled(lo, Seconds(snaps[..n], maxGap), sec);
      AddScaled(hi, Seconds(snaps[..n], maxGap), sec);
    }
  }

  /** Seconds covered by the intervals that start on one day. */
  function DaySeconds(snaps: seq<Snap>, maxGap: int, dayOf: int -> int, day: int): int {
    if |snaps| < 2 then 0
    else
      var n := |snaps| - 1;
      DaySeconds(snaps[..n], maxGap, dayOf, day) +
      if dayOf(snaps[n - 1].t) == day then Covered(snaps[n - 1], snaps[n], maxGap) else 0
  }

  predicate DayRatesWithin(snaps: seq<Snap>, dayOf: int -> int, day: int, lo: int, hi: int) {
    forall i :: 0 <= i < |snaps| && dayOf(snaps[i].t) == day ==> lo <= snaps[i].d <= hi && lo <= snaps[i].u <= hi
  }

  /** The bytes of a day lie between that day's lowest and highest rate over its covered seconds. */
  lemma {:induction false} DayBytesBounded(snaps: seq<Snap>, maxGap: int, dayOf: int -> int, day: int, lo: int, hi: int)
    requires DayRatesWithin(snaps, dayOf, day, lo, hi)
    ensures var (d, u), sec := DayBytes(snaps, maxGap, dayOf, day), DaySeconds(snaps, maxGap, dayOf, day);
            lo * sec <= d <= hi * sec && lo * sec <= u <= hi * sec
    ensures 0 <= DaySeconds(snaps, maxGap, dayOf, day) <= Seconds(snaps, maxGap)
  {
    if |snaps| >= 2 {
      var n := |snaps| - 1;
      DayBytesBounded(snaps[..n], maxGap, dayOf, day, lo, hi);
      var a, sec := snaps[n - 1], Covered(snaps[n - 1], snaps[n], maxGap);
      NotNegative(snaps[n - 1], snaps[n], maxGap);
      hide Covered;
      if dayOf(a.t) == day {
        assert lo <= a.d <= hi && lo <= a.u <= hi;
        Scale(a.d, lo, hi, sec);
        Scale(a.u, lo, hi, sec);
        var before := DaySeconds(snaps[..n], maxGap, dayOf, day);
        AddScaled(lo, before, sec);
        AddScaled(hi, before, sec);
      }
    }
  }

  lemma NotNegative(a: Snap, b: Snap, maxGap: int)
    ensures Covered(a, b, maxGap) >= 0
  {
  }

  /** No second is counted twice, and no gap for more than the limit. */
  lemma {:induction false} SecondsBounded(snaps: seq<Snap>, maxGap: int)
    requires |snaps| >= 1 && forall i :: 0 < i < |snaps| ==> snaps[i - 1].t <= snaps[i].t
    ensures Seconds(snaps, maxGap) <= snaps[|snaps| - 1].t - snaps[0].t
    ensures maxGap > 0 ==> Seconds(snaps, maxGap) <= maxGap * (|snaps| - 1)
  {
    if |snaps| >= 2 {
      var n := |snaps| - 1;
      SecondsBounded(snaps[..n], maxGap);
      AddScaled(maxGap, n - 1, 1);
    }
  }

  lemma AddScaled(r: int, a: int, b: int)
    ensures r * (a + b) == r * a + r * b
  {
  }

  /* ---------- buckets ---------- */

  /** Seconds from Go's zero time to the Unix epoch, which `Truncate` counts from. */
  const ZERO_TIME := 62_135_596_800

  function Key(t: int, bucket: int): int
    requires bucket > 0
  {
    t - (t + ZERO_TIME) % bucket
  }

  function InBucket(snaps: seq<Snap>, bucket: int, key: int): seq<Snap>
    requires bucket > 0
  {
    if snaps == [] then []
    else
      var n := |snaps| - 1;
      InBucket(snaps[..n], bucket, key) + if Key(snaps[n].t, bucket) == key then [snaps[n]] else []
  }

  function SumD(snaps: seq<Snap>): int {
    if snaps == [] then 0 else SumD(snaps[..|snaps| - 1]) + snaps[|snaps| - 1].d
  }

  function SumU(snaps: seq<Snap>): int {
    if snaps == [] then 0 else SumU(snaps[..|snaps| - 1]) + snaps[|snaps| - 1].u
  }

  datatype Acc = Acc(dSum: int, uSum: int, n: nat)
  datatype Point = Point(key: int, download: int, upload: int)

  function AccOf(snaps: seq<Snap>): Acc { Acc(SumD(snaps), SumU(snaps), |snaps|) }

  predicate AscendingInts(s: seq<int>) { forall i, j :: 0 <= i < j < |s| ==> s[i] < s[j] }

  function InsertInt(x: int, s: seq<int>): (r: seq<int>)
    requires AscendingInts(s) && x !in s
    ensures AscendingInts(r) && |r| == |s| + 1
    ensures forall y :: y in r <==> y == x || y in s
  {
    if s == [] || x < s[0] then [x] + s
    else
      var rest := InsertInt(x, s[1..]);
      assert forall i :: 0 <= i < |rest| ==> rest[i] in rest;
      [s[0]] + rest
  }

  method SortInts(s: seq<int>) returns (r: seq<int>)
    requires forall i, j :: 0 <= i < j < |s| ==> s[i] != s[j]
    ensures AscendingInts(r) && |r| == |s|
    ensures forall y :: y in r <==> y in s
  {
    r := [];
    for i := 0 to |s|
      invariant AscendingInts(r) && |r| == i
      invariant forall y :: y in r <==> y in s[..i]
    {
      assert s[..i + 1] == s[..i] + [s[i]];
      r := InsertInt(s[i], r);
    }
    assert s[..|s|] == s;
  }

  lemma BucketSnoc(snaps: seq<Snap>, i: nat, bucket: int, key: int)
    requires bucket > 0 && i < |snaps|
    ensures InBucket(snaps[..i + 1], bucket, key) ==
            InBucket(snaps[..i], bucket, key) + if Key(snaps[i].t, bucket) == key then [snaps[i]] else []
  {
    assert snaps[..i + 1][..i] == snaps[..i];
  }

  lemma AccSnoc(b: seq<Snap>, s: Snap)
    ensures AccOf(b + [s]) == Acc(SumD(b) + s.d, SumU(b) + s.u, |b| + 1)
  {
    assert (b + [s])[..|b|] == b;
  }

  /** What the loop has collected from these snapshots. */
  ghost predicate Collected(buckets: map<int, Acc>, order: seq<int>, snaps: seq<Snap>, bucket: int)
    requires bucket > 0
  {
    && (forall k :: k in buckets <==> k in order)
    && (forall i, j :: 0 <= i < j < |order| ==> order[i] != order[j])
    && (forall k :: k in order ==> InBucket(snaps, bucket, k) != [] && buckets[k] == AccOf(InBucket(snaps, bucket, k)))
    && (forall i :: 0 <= i < |snaps| ==> Key(snaps[i].t, bucket) in order)
  }

  function Add(a: Acc, s: Snap): Acc { Acc(a.dSum + s.d, a.uSum + s.u, a.n + 1) }

  lemma AddToBucket(b: seq<Snap>, s: Snap)
    ensures AccOf(b + [s]) == Add(AccOf(b), s) && AccOf([s]) == Add(Acc(0, 0, 0), s)
  {
    AccSnoc(b, s);
    AccSnoc([], s);
    assert [] + [s] == [s];
  }

  lemma NothingCollected(snaps: seq<Snap>, bucket: int)
    requires bucket > 0
    ensures Collected(map[], [], snaps[..0], bucket)
  {
  }

  lemma CollectNext(buckets: map<int, Acc>, order: seq<int>, snaps: seq<Snap>, i: nat, bucket: int)
    requires bucket > 0 && i < |snaps| && Collected(buckets, order, snaps[..i], bucket)
    ensures var key := Key(snaps[i].t, bucket);
            var a := if key in buckets then buckets[key] else Acc(0, 0, 0);
            Collected(buckets[key := Add(a, snaps[i])], if key in buckets then order else order + [key],
                      snaps[..i + 1], bucket)
  {
    hide InBucket, AccOf, Key, Add;
    var key := Key(snaps[i].t, bucket);
    forall k ensures InBucket(snaps[..i + 1], bucket, k) ==
                     if key == k then InBucket(snaps[..i], bucket, k) + [snaps[i]]
                     else InBucket(snaps[..i], bucket, k) {
      BucketSnoc(snaps, i, bucket, k);
    }
    AddToBucket(InBucket(snaps[..i], bucket, key), snaps[i]);
    if key !in buckets {
      EmptyBucket(snaps[..i], order, bucket, key);
      assert [] + [snaps[i]] == [snaps[i]];
    }
  }

  lemma {:induction false} EmptyBucket(snaps: seq<Snap>, order: seq<int>, bucket: int, key: int)
    requires bucket > 0 && key !in order
    requires forall i :: 0 <= i < |snaps| ==> Key(snaps[i].t, bucket) in order
    ensures InBucket(snaps, bucket, key) == []
  {
    hide Key;
    if snaps != [] { EmptyBucket(snaps[..|snaps| - 1], order, bucket, key); }
  }

  lemma CollectedAll(buckets: map<int, Acc>, order: seq<int>, snaps: seq<Snap>, bucket: int)
    requires bucket > 0 && Collected(buckets, order, snaps, bucket)
    ensures forall k :: k in buckets <==> k in order
    ensures forall i, j :: 0 <= i < j < |order| ==> order[i] != order[j]
    ensures forall k :: k in order <==> InBucket(snaps, bucket, k) != []
    ensures forall k :: k in buckets ==> buckets[k] == AccOf(InBucket(snaps, bucket, k))
  {
    hide InBucket, AccOf, Key;
    forall k | InBucket(snaps, bucket, k) != [] ensures k in order {
      if k !in order { EmptyBucket(snaps, order, bucket, k); }
    }
  }

  method Accumulate(snaps: seq<Snap>, bucket: int) returns (buckets: map<int, Acc>, order: seq<int>)
    requires bucket > 0
    ensures forall k :: k in buckets <==> k in order
    ensures forall i, j :: 0 <= i < j < |order| ==> order[i] != order[j]
    ensures forall k :: k in order <==> InBucket(snaps, bucket, k) != []
    ensures forall k :: k in buckets ==> buckets[k] == AccOf(InBucket(snaps, bucket, k))
  {
    hide Collected, InBucket, Key, AccOf;
    buckets, order := map[], [];
    NothingCollected(snaps, bucket);
    for i := 0 to |snaps|
      invariant Collected(buckets, order, snaps[..i], bucket)
    {
      CollectNext(buckets, order, snaps, i, bucket);
      var s := snaps[i];
      var key := Key(s.t, bucket);
      var a := Acc(0, 0, 0);
      if key in buckets { a := buckets[key]; } else { order := order + [key]; }
      buckets := buckets[key := Acc(a.dSum + s.d, a.uSum + s.u, a.n + 1)];
    }
    assert snaps[..|snaps|] == snaps;
    CollectedAll(buckets, order, snaps, bucket);
  }

  lemma EmptyAcc()
    ensures AccOf([]) == Acc(0, 0, 0)
  {
  }

  lemma AccParts(b: seq<Snap>)
    ensures AccOf(b) == Acc(SumD(b), SumU(b), |b|)
  {
  }

  predicate IsAverage(p: Point, b: seq<Snap>) {
    b != [] && p.download == TruncDiv(SumD(b), |b|) && p.upload == TruncDiv(SumU(b), |b|)
  }

  /** One point per bucket that has snapshots, in ascending order of time, with their averages. */
  method BucketBandwidthRates(snaps: seq<Snap>, bucket: int) returns (out: seq<Point>)
    ensures bucket <= 0 ==> out == []
    ensures forall i, j :: 0 <= i < j < |out| ==> out[i].key < out[j].key
    ensures bucket > 0 ==> forall i :: 0 <= i < |out| ==> IsAverage(out[i], InBucket(snaps, bucket, out[i].key))
    ensures bucket > 0 ==> forall k :: InBucket(snaps, bucket, k) != [] ==>
              exists i :: 0 <= i < |out| && out[i].key == k
  {
    out := [];
    if |snaps| == 0 || bucket <= 0 { return; }
    hide InBucket, Key;
    var buckets, order := Accumulate(snaps, bucket);
    order := SortInts(order);
    for i := 0 to |order|
      invariant |out| == i && forall j :: 0 <= j < i ==> out[j].key == order[j]
      invariant forall j :: 0 <= j < i ==> IsAverage(out[j], InBucket(snaps, bucket, out[j].key))
    {
      var key := order[i];
      assert key in order;
      var a := buckets[key];
      out := out + [Point(key, TruncDiv(a.dSum, a.n), TruncDiv(a.uSum, a.n))];
    }
    forall k | InBucket(snaps, bucket, k) != [] ensures exists i :: 0 <= i < |out| && out[i].key == k {
      assert k in order;
      var i :| 0 <= i < |order| && order[i] == k;
      assert out[i].key == k;
    }
  }

  method PeakFromBucketed(points: seq<Point>) returns (peakD: int, peakU: int)
    ensures peakD >= 0 && peakU >= 0
    ensures forall i :: 0 <= i < |points| ==> points[i].download <= peakD && points[i].upload <= peakU
    ensures peakD == 0 || exists i :: 0 <= i < |points| && points[i].download == peakD
    ensures peakU == 0 || exists i :: 0 <= i < |points| && points[i].upload == peakU
  {
    peakD, peakU := 0, 0;
    for i := 0 to |points|
      invariant peakD >= 0 && peakU >= 0
      invariant forall j :: 0 <= j < i ==> points[j].download <= peakD && points[j].upload <= peakU
      invariant peakD == 0 || exists j :: 0 <= j < i && points[j].download == peakD
      invariant peakU == 0 || exists j :: 0 <= j < i && points[j].upload == peakU
    {
      if points[i].download > peakD { peakD := points[i].download; }
      if points[i].upload > peakU { peakU := points[i].upload; }
    }
  }

  lemma {:induction false} SumsBounded(b: seq<Snap>, lo: int, hi: int)
    requires RatesWithin(b, lo, hi)
    ensures lo * |b| <= SumD(b) <= hi * |b| && lo * |b| <= SumU(b) <= hi * |b|
  {
    if b != [] {
      var n := |b| - 1;
      SumsBounded(b[..n], lo, hi);
      AddScaled(lo, n, 1);
      AddScaled(hi, n, 1);
    }
  }

  lemma Times(a: int, n: int)
    requires a >= 0 && n >= 0
    ensures n * a >= 0
  {
  }

  lemma NotBelow(a: int, b: int, n: int, sum: int)
    requires n > 0 && b * n <= sum < a * n
    ensures b < a
  {
    if b >= a {
      Times(b - a, n);
      AddScaled(n, a, b - a);
      assert false;
    }
  }

  lemma DivideBetween(sum: int, n: int, lo: int, hi: int)
    requires n > 0 && lo >= 0 && lo * n <= sum <= hi * n
    ensures lo <= TruncDiv(sum, n) <= hi
  {
    var q := sum / n;
    assert lo * n >= 0;
    assert sum == q * n + sum % n && 0 <= sum % n < n;
    NotBelow(q + 1, lo, n, sum);
    NotBelow(hi + 1, q, n, sum);
  }

  /** A bucket's averages lie between the smallest and the largest of its own rates. */
  lemma AverageBetween(p: Point, b: seq<Snap>, lo: int, hi: int)
    requires IsAverage(p, b) && RatesWithin(b, lo, hi) && lo >= 0
    ensures lo <= p.download <= hi && lo <= p.upload <= hi
  {
    SumsBounded(b, lo, hi);
    DivideBetween(SumD(b), |b|, lo, hi);
    DivideBetween(SumU(b), |b|, lo, hi);
  }

  lemma {:induction false} BucketMembers(snaps: seq<Snap>, bucket: int, key: int)
    requires bucket > 0
    ensures forall s :: s in InBucket(snaps, bucket, key) <==> s in snaps && Key(s.t, bucket) == key
  {
    hide Key;
    if snaps != [] {
      var n := |snaps| - 1;
      BucketMembers(snaps[..n], bucket, key);
      assert snaps == snaps[..n] + [snaps[n]];
    }
  }

  /** The peak of the chart never exceeds the highest raw rate. */
  lemma PeakWithinRaw(snaps: seq<Snap>, bucket: int, points: seq<Point>, i: nat, hi: int)
    requires bucket > 0 && i < |points| && RatesWithin(snaps, 0, hi)
    requires forall j :: 0 <= j < |points| ==> IsAverage(points[j], InBucket(snaps, bucket, points[j].key))
    ensures 0 <= points[i].download <= hi && 0 <= points[i].upload <= hi
  {
    hide Key, InBucket, IsAverage;
    var b := InBucket(snaps, bucket, points[i].key);
    BucketMembers(snaps, bucket, points[i].key);
    forall j | 0 <= j < |b| ensures 0 <= b[j].d <= hi && 0 <= b[j].u <= hi {
      assert b[j] in b;
      var k :| 0 <= k < |snaps| && snaps[k] == b[j];
    }
    AverageBetween(points[i], b, 0, hi);
  }

  /** How many of the keys equal `k`. */
  function CountKey(keys: seq<int>, k: int): nat {
    if keys == [] then 0 else CountKey(keys[..|keys| - 1], k) + if keys[|keys| - 1] == k then 1 else 0
  }

  lemma {:induction false} KeyOnce(keys: seq<int>, k: int)
    requires AscendingInts(keys)
    ensures CountKey(keys, k) == if k in keys then 1 else 0
  {
    if keys != [] {
      var n := |keys| - 1;
      KeyOnce(keys[..n], k);
      assert keys == keys[..n] + [keys[n]];
    }
  }

  function Sizes(snaps: seq<Snap>, bucket: int, keys: seq<int>): nat
    requires bucket > 0
  {
    if keys == [] then 0
    else Sizes(snaps, bucket, keys[..|keys| - 1]) + |InBucket(snaps, bucket, keys[|keys| - 1])|
  }

  lemma {:induction false} SizesSnoc(snaps: seq<Snap>, bucket: int, keys: seq<int>)
    requires bucket > 0 && snaps != []
    ensures Sizes(snaps, bucket, keys) ==
            Sizes(snaps[..|snaps| - 1], bucket, keys) + CountKey(keys, Key(snaps[|snaps| - 1].t, bucket))
  {
    hide Key;
    if keys != [] {
      SizesSnoc(snaps, bucket, keys[..|keys| - 1]);
    }
  }

  lemma {:induction false} SizesOfNone(bucket: int, keys: seq<int>)
    requires bucket > 0
    ensures Sizes([], bucket, keys) == 0
  {
    if keys != [] { SizesOfNone(bucket, keys[..|keys| - 1]); }
  }

  /** The buckets partition the snapshots: with ascending keys that cover every snapshot, the
      bucket sizes add up to the number of snapshots. */
  lemma {:induction false} BucketsPartition(snaps: seq<Snap>, bucket: int, keys: seq<int>)
    requires bucket > 0 && AscendingInts(keys)
    requires forall i :: 0 <= i < |snaps| ==> Key(snaps[i].t, bucket) in keys
    ensures Sizes(snaps, bucket, keys) == |snaps|
  {
    hide Key;
    if snaps == [] {
      SizesOfNone(bucket, keys);
    } else {
      var n := |snaps| - 1;
      BucketsPartition(snaps[..n], bucket, keys);
      SizesSnoc(snaps, bucket, keys);
      KeyOnce(keys, Key(snaps[n].t, bucket));
    }
  }

  function KeysOf(points: seq<Point>): seq<int> {
    seq(|points|, i requires 0 <= i < |points| => points[i].key)
  }

  lemma PointsPartition(snaps: seq<Snap>, bucket: int, points: seq<Point>)
    requires bucket > 0 && forall i, j :: 0 <= i < j < |points| ==> points[i].key < points[j].key
    requires forall k :: InBucket(snaps, bucket, k) != [] ==> exists i :: 0 <= i < |points| && points[i].key == k
    ensures Sizes(snaps, bucket, KeysOf(points)) == |snaps|
  {
    hide InBucket, Key, Sizes;
    forall i | 0 <= i < |snaps| ensures Key(snaps[i].t, bucket) in KeysOf(points) {
      var k := Key(snaps[i].t, bucket);
      BucketMembers(snaps, bucket, k);
      assert snaps[i] in InBucket(snaps, bucket, k);
      var j :| 0 <= j < |points| && points[j].key == k;
      assert KeysOf(points)[j] == k;
    }
    BucketsPartition(snaps, bucket, KeysOf(points));
  }

  /** The hourly answer: totals, chart points that share out the snapshots, and peaks no higher
      than any bound on the raw rates. */
  method HourlyHistory(snaps: seq<Snap>, maxGap: int, bucket: int)
    returns (points: seq<Point>, totalD: int, totalU: int, peakD: int, peakU: int)
    requires bucket > 0
    ensures (totalD, totalU) == Bytes(snaps, maxGap)
    ensures forall k :: InBucket(snaps, bucket, k) != [] ==> exists i :: 0 <= i < |points| && points[i].key == k
    ensures Sizes(snaps, bucket, KeysOf(points)) == |snaps|
    ensures forall i :: 0 <= i < |points| ==> points[i].download <= peakD && points[i].upload <= peakU
    ensures forall hi :: hi >= 0 && RatesWithin(snaps, 0, hi) ==> 0 <= peakD <= hi && 0 <= peakU <= hi
  {
    hide InBucket, Bytes, IsAverage, RatesWithin, KeysOf, Sizes;
    totalD, totalU := IntegrateBandwidthBytes(snaps, maxGap);
    points := BucketBandwidthRates(snaps, bucket);
    PointsPartition(snaps, bucket, points);
    peakD, peakU := PeakFromBucketed(points);
    forall hi | hi >= 0 && RatesWithin(snaps, 0, hi) ensures peakD <= hi && peakU <= hi {
      forall i | 0 <= i < |points| ensures points[i].download <= hi && points[i].upload <= hi {
        PeakWithinRaw(snaps, bucket, points, i, hi);
      }
    }
  }

  /* ---------- what counts as covered ---------- */

  /** One more snapshot adds the time since the last one, at most the gap limit when there is one, and
      nothing when it is not later. */
  lemma NextInterval(snaps: seq<Snap>, b: Snap, maxGap: int)
    requires snaps != []
    ensures var gap := b.t - snaps[|snaps| - 1].t;
            Seconds(snaps + [b], maxGap) == Seconds(snaps, maxGap) +
            if gap <= 0 then 0 else if 0 < maxGap < gap then maxGap else gap
    ensures var a := snaps[|snaps| - 1];
            var gap := b.t - a.t;
            var sec := if gap <= 0 then 0 else if 0 < maxGap < gap then maxGap else gap;
            Bytes(snaps + [b], maxGap) == (Bytes(snaps, maxGap).0 + a.d * sec, Bytes(snaps, maxGap).1 + a.u * sec)
  {
    assert (snaps + [b])[..|snaps|] == snaps;
  }

  predicate NoLongGap(snaps: seq<Snap>, maxGap: int) {
    forall i :: 0 < i < |snaps| ==>
      snaps[i - 1].t <= snaps[i].t && (maxGap <= 0 || snaps[i].t - snaps[i - 1].t <= maxGap)
  }

  /** Without a gap above the limit the whole time from the first to the last snapshot is covered. */
  lemma {:induction false} WholeSpan(snaps: seq<Snap>, maxGap: int)
    requires snaps != [] && NoLongGap(snaps, maxGap)
    ensures Seconds(snaps, maxGap) == snaps[|snaps| - 1].t - snaps[0].t
  {
    if |snaps| >= 2 { WholeSpan(snaps[..|snaps| - 1], maxGap); }
  }

  /** With longer gaps only, each counts as the limit; when time stands still or goes back nothing does. */
  lemma {:induction false} LongGaps(snaps: seq<Snap>, maxGap: int)
    requires snaps != []
    ensures (forall i :: 0 < i < |snaps| ==> snaps[i].t - snaps[i - 1].t > maxGap) && maxGap > 0 ==>
              Seconds(snaps, maxGap) == maxGap * (|snaps| - 1)
    ensures (forall i :: 0 < i < |snaps| ==> snaps[i].t <= snaps[i - 1].t) ==> Seconds(snaps, maxGap) == 0
  {
    if |snaps| >= 2 {
      var n := |snaps| - 1;
      LongGaps(snaps[..n], maxGap);
      AddScaled(maxGap, n - 1, 1);
    }
  }

  /** Constant rates give exactly the rates times the covered seconds. */
  lemma {:induction false} ConstantRates(snaps: seq<Snap>, maxGap: int, d: int, u: int)
    requires forall s :: s in snaps ==> s.d == d && s.u == u
    ensures Bytes(snaps, maxGap) == (d * Seconds(snaps, maxGap), u * Seconds(snaps, maxGap))
  {
    if |snaps| >= 2 {
      var n := |snaps| - 1;
      ConstantRates(snaps[..n], maxGap, d, u);
      AddScaled(d, Seconds(snaps[..n], maxGap), Covered(snaps[n - 1], snaps[n], maxGap));
      AddScaled(u, Seconds(snaps[..n], maxGap), Covered(snaps[n - 1], snaps[n], maxGap));
    }
  }

  /** So constant rates over snapshots without a long gap give the rates times the whole span. */
  lemma ConstantOverSpan(snaps: seq<Snap>, maxGap: int, d: int, u: int)
    requires snaps != [] && NoLongGap(snaps, maxGap) && forall s :: s in snaps ==> s.d == d && s.u == u
    ensures var span := snaps[|snaps| - 1].t - snaps[0].t; Bytes(snaps, maxGap) == (d * span, u * span)
  {
    ConstantRates(snaps, maxGap, d, u);
    WholeSpan(snaps, maxGap);
  }

  /** The seconds and bytes of an interval go to the day on which it starts, and to no other. */
  lemma NextOfDay(snaps: seq<Snap>, b: Snap, maxGap: int, dayOf: int -> int, day: int)
    requires snaps != []
    ensures var a := snaps[|snaps| - 1];
            var gap := b.t - a.t;
            var sec := if dayOf(a.t) != day || gap <= 0 then 0 else if 0 < maxGap < gap then maxGap else gap;
            var (d, u) := DayBytes(snaps, maxGap, dayOf, day);
            && DaySeconds(snaps + [b], maxGap, dayOf, day) == DaySeconds(snaps, maxGap, dayOf, day) + sec
            && DayBytes(snaps + [b], maxGap, dayOf, day) == (d + a.d * sec, u + a.u * sec)
  {
    assert (snaps + [b])[..|snaps|] == snaps;
  }

  /* ---------- buckets in numbers ---------- */

  /** A bucket starts at a multiple of its length, counted from Go's zero time, and holds the times from
      there on for its length; buckets of 15 minutes start at quarter hours. */
  lemma KeyExactly(t: int, bucket: int, k: int)
    requires bucket > 0
    ensures k == Key(t, bucket) <==> k <= t < k + bucket && (k + 62_135_596_800) % bucket == 0
    ensures bucket == 900 ==> Key(t, bucket) % 900 == 0
  {
    var n := t + 62_135_596_800;
    Quotients(n, bucket);
    var key := n - n % bucket;
    assert Key(t, bucket) == key - 62_135_596_800;
    if k <= t < k + bucket && (k + 62_135_596_800) % bucket == 0 {
      SameMultiple(k + 62_135_596_800, key, n, bucket);
    }
    if bucket == 900 { QuarterHours(key); }
  }

  lemma Quotients(n: int, m: int)
    requires m > 0
    ensures n - n % m == n / m * m && n - n % m <= n < n - n % m + m && (n - n % m) % m == 0
  {
    assert n == n / m * m + n % m;
    MultipleOf(n / m, m);
  }

  lemma MultipleOf(q: int, m: int)
    requires m > 0
    ensures (q * m) % m == 0
  {
    var r := (q * m) % m;
    var p := (q * m) / m;
    assert q * m == p * m + r;
    AddScaled(m, p, q - p);
    if q > p { Times(q - p - 1, m); AddScaled(m, q - p - 1, 1); }
    if q < p { Times(p - q, m); AddScaled(m, q - p, p - q); }
  }

  lemma SameMultiple(a: int, b: int, n: int, m: int)
    requires m > 0 && a % m == 0 && b % m == 0 && a <= n < a + m && b <= n < b + m
    ensures a == b
  {
    var p, q := a / m, b / m;
    assert a == p * m && b == q * m;
    if p > q { Times(p - q - 1, m); AddScaled(m, p - q - 1, 1); AddScaled(m, q, p - q); }
    if q > p { Times(q - p - 1, m); AddScaled(m, q - p - 1, 1); AddScaled(m, p, q - p); }
  }

  lemma QuarterHours(key: int)
    requires key % 900 == 0
    ensures (key - 62_135_596_800) % 900 == 0
  {
  }

  /** The sums behind the averages. */
  lemma {:induction false} SumsAdd(a: seq<Snap>, b: seq<Snap>)
    ensures SumD(a + b) == SumD(a) + SumD(b) && SumU(a + b) == SumU(a) + SumU(b)
    ensures |b| == 1 ==> SumD(b) == b[0].d && SumU(b) == b[0].u
  {
    if b == [] {
      assert a + b == a;
    } else {
      var n := |b| - 1;
      assert (a + b)[..|a + b| - 1] == a + b[..n];
      SumsAdd(a, b[..n]);
    }
  }

  /** The average of rates that are not negative is their sum divided by their number, rounded down. */
  lemma AverageExactly(p: Point, b: seq<Snap>)
    requires IsAverage(p, b) && forall s :: s in b ==> s.d >= 0 && s.u >= 0
    ensures p.download * |b| <= SumD(b) < p.download * |b| + |b|
    ensures p.upload * |b| <= SumU(b) < p.upload * |b| + |b|
  {
    SumsNotNegative(b);
    Quotient(SumD(b), |b|);
    Quotient(SumU(b), |b|);
  }

  lemma {:induction false} SumsNotNegative(b: seq<Snap>)
    requires forall s :: s in b ==> s.d >= 0 && s.u >= 0
    ensures SumD(b) >= 0 && SumU(b) >= 0
  {
    if b != [] { SumsNotNegative(b[..|b| - 1]); }
  }
}
