/** Folding the queue presets of a user's groups into one cap per tunnel address. */
module PcqLoad {
  import opened Text

  /** Caps in stored kb/s; zero or less means no cap. */
  datatype PeerLimit = PeerLimit(down: int, up: int, burstDown: int, burstUp: int)

  /** One row of the join of users, memberships and presets; `ip` is the tunnel address
      taken from `allowed_ips`, or "" when there is none. */
  datatype Row = Row(groupId: string, ip: string,
                     down: Option<int>, up: Option<int>, burstDown: Option<int>, burstUp: Option<int>,
                     classifier: string)

  datatype Knob = Down | Up | BurstDown | BurstUp

  function Get(l: PeerLimit, k: Knob): int {
    match k case Down => l.down case Up => l.up case BurstDown => l.burstDown case BurstUp => l.burstUp
  }

  const NO_LIMIT := PeerLimit(0, 0, 0, 0)

  function NonZero(v: Option<int>): int {
    if v.None? || v.value <= 0 then 0 else v.value
  }

  function ClassifyRow(r: Row): PeerLimit {
    if r.classifier == "dst-download" then PeerLimit(NonZero(r.down), 0, NonZero(r.burstDown), 0)
    else if r.classifier == "src-upload" then PeerLimit(0, NonZero(r.up), 0, NonZero(r.burstUp))
    else PeerLimit(NonZero(r.down), NonZero(r.up), NonZero(r.burstDown), NonZero(r.burstUp))
  }

  /** The classifier decides which of the stored limits are caps: downloads alone, uploads alone,
      or both; limits that are absent or not positive are no caps. */
  lemma ClassifyRowCaps(r: Row)
    ensures var c, downs, ups := ClassifyRow(r), r.classifier != "src-upload", r.classifier != "dst-download";
            && IsCap(c.down, r.down, downs) && IsCap(c.burstDown, r.burstDown, downs)
            && IsCap(c.up, r.up, ups) && IsCap(c.burstUp, r.burstUp, ups)
  {
    assert "dst-download"[0] != "src-upload"[0];
  }

  predicate IsCap(v: int, stored: Option<int>, used: bool) {
    && (v > 0 <==> used && stored.Some? && stored.value > 0)
    && (if v > 0 then stored == Some(v) else v == 0)
  }

  function MergeMin(cur: int, add: int): int {
    if add <= 0 then cur else if cur <= 0 || add < cur then add else cur
  }

  function Merge(cur: PeerLimit, add: PeerLimit): PeerLimit {
    PeerLimit(MergeMin(cur.down, add.down), MergeMin(cur.up, add.up),
              MergeMin(cur.burstDown, add.burstDown), MergeMin(cur.burstUp, add.burstUp))
  }

  /** The row takes part: it has an address and caps at least one direction. */
  predicate Contributes(r: Row) {
    r.ip != "" && (ClassifyRow(r).down > 0 || ClassifyRow(r).up > 0)
  }

  function Limit(m: map<string, PeerLimit>, ip: string): PeerLimit {
    if ip in m then m[ip] else NO_LIMIT
  }

  function Fold(rows: seq<Row>): map<string, PeerLimit> {
    if rows == [] then map[]
    else
      var m, r := Fold(rows[..|rows| - 1]), rows[|rows| - 1];
      if Contributes(r) then m[r.ip := Merge(Limit(m, r.ip), ClassifyRow(r))] else m
  }

  method LoadPeerLimits(rows: seq<Row>) returns (out: map<string, PeerLimit>)
    ensures out == Fold(rows)
  {
    out := map[];
    for i := 0 to |rows|
      invariant out == Fold(rows[..i])
    {
      assert rows[..i + 1][..i] == rows[..i];
      var r := rows[i];
      if r.ip == "" { continue; }
      var e := ClassifyRow(r);
      if e.down <= 0 && e.up <= 0 { continue; }
      var pl := if r.ip in out then out[r.ip] else NO_LIMIT;
      pl := pl.(down := MergeMin(pl.down, e.down));
      pl := pl.(up := MergeMin(pl.up, e.up));
      pl := pl.(burstDown := MergeMin(pl.burstDown, e.burstDown));
      pl := pl.(burstUp := MergeMin(pl.burstUp, e.burstUp));
      out := out[r.ip := pl];
    }
    assert rows[..|rows|] == rows;
  }

  function GroupRows(rows: seq<Row>, group: string): seq<Row> {
    if rows == [] then []
    else
      var rest := GroupRows(rows[..|rows| - 1], group);
      if rows[|rows| - 1].groupId == group then rest + [rows[|rows| - 1]] else rest
  }

  function FoldGroup(rows: seq<Row>, group: string): map<string, PeerLimit> {
    if TrimSpace(group) == "" then map[] else Fold(GroupRows(rows, TrimSpace(group)))
  }

  method LoadPeerLimitsForGroup(rows: seq<Row>, group: string) returns (out: map<string, PeerLimit>)
    ensures out == FoldGroup(rows, group)
  {
    var id := TrimSpace(group);
    if id == "" { return map[]; }
    var own: seq<Row> := [];
    for i := 0 to |rows|
      invariant own == GroupRows(rows[..i], id)
    {
      assert rows[..i + 1][..i] == rows[..i];
      if rows[i].groupId == id { own := own + [rows[i]]; }
    }
    assert rows[..|rows|] == rows;
    out := LoadPeerLimits(own);
  }

  /* ---------- the cap is the minimum over the contributing rows ---------- */

  predicate Sets(r: Row, ip: string, k: Knob) {
    Contributes(r) && r.ip == ip && Get(ClassifyRow(r), k) > 0
  }

  /** `v` is the least positive value the contributing rows give the knob, or 0 if none does. */
  predicate IsLeast(v: int, rows: seq<Row>, ip: string, k: Knob) {
    && (forall r :: r in rows && Sets(r, ip, k) ==> 0 < v <= Get(ClassifyRow(r), k))
    && (v == 0 || exists r :: r in rows && Sets(r, ip, k) && v == Get(ClassifyRow(r), k))
  }

  lemma LastOf(rows: seq<Row>)
    requires rows != []
    ensures forall r :: r in rows <==> r in rows[..|rows| - 1] || r == rows[|rows| - 1]
  {
    var n := |rows| - 1;
    assert rows == rows[..n] + [rows[n]];
  }

  lemma {:induction false} FoldIsLeast(rows: seq<Row>, ip: string, k: Knob)
    ensures IsLeast(Get(Limit(Fold(rows), ip), k), rows, ip, k)
    ensures ip in Fold(rows) <==> exists r :: r in rows && Contributes(r) && r.ip == ip
  {
    if rows != [] {
      var init, last := rows[..|rows| - 1], rows[|rows| - 1];
      FoldIsLeast(init, ip, k);
      LastOf(rows);
      if Contributes(last) && last.ip == ip {
        assert last in rows;
        MergeLeast(Get(Limit(Fold(init), ip), k), init, last, rows, ip, k);
        assert Get(Limit(Fold(rows), ip), k) == MergeMin(Get(Limit(Fold(init), ip), k), Get(ClassifyRow(last), k));
      } else {
        assert Limit(Fold(rows), ip) == Limit(Fold(init), ip);
        assert !Sets(last, ip, k);
        KeepLeast(Get(Limit(Fold(init), ip), k), init, last, rows, ip, k);
      }
    }
  }

  lemma MergeLeast(v: int, init: seq<Row>, last: Row, rows: seq<Row>, ip: string, k: Knob)
    requires IsLeast(v, init, ip, k) && Contributes(last) && last.ip == ip
    requires forall r :: r in rows <==> r in init || r == last
    ensures IsLeast(MergeMin(v, Get(ClassifyRow(last), k)), rows, ip, k)
  {
    var w := MergeMin(v, Get(ClassifyRow(last), k));
    if w != 0 && w == v && v != 0 {
      var r :| r in init && Sets(r, ip, k) && v == Get(ClassifyRow(r), k);
      assert r in rows;
    } else if w != 0 {
      assert last in rows && Sets(last, ip, k);
    }
  }

  lemma KeepLeast(v: int, init: seq<Row>, last: Row, rows: seq<Row>, ip: string, k: Knob)
    requires IsLeast(v, init, ip, k) && !Sets(last, ip, k)
    requires forall r :: r in rows <==> r in init || r == last
    ensures IsLeast(v, rows, ip, k)
  {
    if v != 0 {
      var r :| r in init && Sets(r, ip, k) && v == Get(ClassifyRow(r), k);
      assert r in rows;
    }
  }

  lemma LeastUnique(v: int, w: int, rows: seq<Row>, more: seq<Row>, ip: string, k: Knob)
    requires IsLeast(v, rows, ip, k) && IsLeast(w, more, ip, k)
    requires forall r :: r in rows ==> r in more
    ensures v != 0 ==> 0 < w <= v
    ensures (forall r :: r in more ==> r in rows) ==> v == w
  {
    if v != 0 {
      var r :| r in rows && Sets(r, ip, k) && v == Get(ClassifyRow(r), k);
      assert r in more;
    }
    if w != 0 && forall r :: r in more ==> r in rows {
      var r :| r in more && Sets(r, ip, k) && w == Get(ClassifyRow(r), k);
      assert r in rows;
    }
  }

  /** The fold depends only on which rows there are: not on their order or repetition. */
  lemma OrderIndependent(rows: seq<Row>, other: seq<Row>)
    requires forall r :: r in rows <==> r in other
    ensures Fold(rows) == Fold(other)
  {
    forall ip ensures (ip in Fold(rows) <==> ip in Fold(other)) && Limit(Fold(rows), ip) == Limit(Fold(other), ip) {
      forall k: Knob ensures Get(Limit(Fold(rows), ip), k) == Get(Limit(Fold(other), ip), k) {
        FoldIsLeast(rows, ip, k);
        FoldIsLeast(other, ip, k);
        LeastUnique(Get(Limit(Fold(rows), ip), k), Get(Limit(Fold(other), ip), k), rows, other, ip, k);
      }
      FoldIsLeast(rows, ip, Down);
      FoldIsLeast(other, ip, Down);
      SameKnobs(Limit(Fold(rows), ip), Limit(Fold(other), ip));
    }
    assert forall ip :: ip in Fold(rows) ==> Limit(Fold(rows), ip) == Fold(rows)[ip];
    assert forall ip :: ip in Fold(other) ==> Limit(Fold(other), ip) == Fold(other)[ip];
  }

  lemma SameKnobs(l: PeerLimit, m: PeerLimit)
    requires forall k: Knob :: Get(l, k) == Get(m, k)
    ensures l == m
  {
    assert Get(l, Down) == Get(m, Down) && Get(l, Up) == Get(m, Up);
    assert Get(l, BurstDown) == Get(m, BurstDown) && Get(l, BurstUp) == Get(m, BurstUp);
  }

  /* ---------- groups ---------- */

  function MergeMaps(a: map<string, PeerLimit>, b: map<string, PeerLimit>): map<string, PeerLimit> {
    map ip | ip in a.Keys + b.Keys :: Merge(Limit(a, ip), Limit(b, ip))
  }

  lemma MergeAssoc(a: PeerLimit, b: PeerLimit, c: PeerLimit)
    ensures Merge(Merge(a, b), c) == Merge(a, Merge(b, c))
    ensures a.down >= 0 && a.up >= 0 && a.burstDown >= 0 && a.burstUp >= 0 ==> Merge(NO_LIMIT, a) == a
    ensures Merge(a, NO_LIMIT) == a
  {
  }

  predicate NonNegative(l: PeerLimit) {
    l.down >= 0 && l.up >= 0 && l.burstDown >= 0 && l.burstUp >= 0
  }

  lemma {:induction false} FoldNonNegative(rows: seq<Row>)
    ensures forall ip :: ip in Fold(rows) ==> NonNegative(Fold(rows)[ip])
  {
    if rows != [] {
      FoldNonNegative(rows[..|rows| - 1]);
    }
  }

  /** Folding two batches of rows is merging their folds. */
  lemma {:induction false} FoldConcat(a: seq<Row>, b: seq<Row>)
    ensures Fold(a + b) == MergeMaps(Fold(a), Fold(b))
  {
    if b == [] {
      assert a + b == a;
    } else {
      var init, last := b[..|b| - 1], b[|b| - 1];
      assert (a + b)[..|a + b| - 1] == a + init;
      FoldConcat(a, init);
      if Contributes(last) {
        MergeAssoc(Limit(Fold(a), last.ip), Limit(Fold(init), last.ip), ClassifyRow(last));
        var l, r := Fold(a + b), MergeMaps(Fold(a), Fold(b));
        assert l.Keys == r.Keys;
        forall ip | ip in l ensures l[ip] == r[ip] {
        }
      }
    }
  }

  /** Merging the per-group results of a list of groups. */
  function MergeGroups(rows: seq<Row>, groups: seq<string>): map<string, PeerLimit> {
    if groups == [] then map[]
    else MergeMaps(MergeGroups(rows, groups[..|groups| - 1]), FoldGroup(rows, groups[|groups| - 1]))
  }

  function ByGroup(rows: seq<Row>, groups: seq<string>): seq<Row> {
    if groups == [] then []
    else ByGroup(rows, groups[..|groups| - 1]) + GroupRows(rows, groups[|groups| - 1])
  }

  lemma {:induction false} GroupRowsMembers(rows: seq<Row>, group: string)
    ensures forall r :: r in GroupRows(rows, group) <==> r in rows && r.groupId == group
  {
    if rows != [] {
      GroupRowsMembers(rows[..|rows| - 1], group);
      LastOf(rows);
    }
  }

  lemma {:induction false} ByGroupMembers(rows: seq<Row>, groups: seq<string>)
    ensures forall r :: r in ByGroup(rows, groups) <==> r in rows && r.groupId in groups
  {
    if groups != [] {
      var n := |groups| - 1;
      ByGroupMembers(rows, groups[..n]);
      GroupRowsMembers(rows, groups[n]);
      assert groups == groups[..n] + [groups[n]];
    }
  }

  lemma {:induction false} MergeGroupsIsFold(rows: seq<Row>, groups: seq<string>)
    requires forall g :: g in groups ==> Trimmed(g) && g != ""
    ensures MergeGroups(rows, groups) == Fold(ByGroup(rows, groups))
  {
    if groups != [] {
      var n := |groups| - 1;
      MergeGroupsIsFold(rows, groups[..n]);
      TrimFixed(groups[n]);
      FoldConcat(ByGroup(rows, groups[..n]), GroupRows(rows, groups[n]));
    }
  }

  /** The live caps are the merged caps of the groups, taken in any order. */
  lemma LiveMergesGroups(rows: seq<Row>, groups: seq<string>)
    requires forall g :: g in groups ==> Trimmed(g) && g != ""
    requires forall r :: r in rows ==> r.groupId in groups
    ensures Fold(rows) == MergeGroups(rows, groups)
  {
    ByGroupMembers(rows, groups);
    MergeGroupsIsFold(rows, groups);
    OrderIndependent(rows, ByGroup(rows, groups));
  }

  /** A cap shown in a group's preview is never below the live cap. */
  lemma PreviewNotBelowLive(rows: seq<Row>, group: string, ip: string, k: Knob)
    ensures var preview := Get(Limit(FoldGroup(rows, group), ip), k);
            var live := Get(Limit(Fold(rows), ip), k);
            preview != 0 ==> 0 < live <= preview
  {
    if TrimSpace(group) != "" {
      var own := GroupRows(rows, TrimSpace(group));
      GroupRowsMembers(rows, TrimSpace(group));
      FoldIsLeast(own, ip, k);
      FoldIsLeast(rows, ip, k);
      LeastUnique(Get(Limit(Fold(own), ip), k), Get(Limit(Fold(rows), ip), k), own, rows, ip, k);
    }
  }

  /** An address has an entry exactly when a row with that address sets a positive limit in a direction its
      classifier does not leave out; a burst alone does not count. */
  lemma EntryExactly(rows: seq<Row>, ip: string)
    ensures ip in Fold(rows) <==>
            exists r :: r in rows && r.ip == ip && ip != ""
                        && (|| (r.classifier != "src-upload" && r.down.Some? && r.down.value > 0)
                            || (r.classifier != "dst-download" && r.up.Some? && r.up.value > 0))
  {
    hide Fold;
    FoldIsLeast(rows, ip, Down);
    forall r ensures Contributes(r) <==>
                     r.ip != "" && (|| (r.classifier != "src-upload" && r.down.Some? && r.down.value > 0)
                                    || (r.classifier != "dst-download" && r.up.Some? && r.up.value > 0)) {
      ClassifyRowCaps(r);
    }
  }

  /** Blanks around a group id do not matter, and only that group's rows count. */
  lemma GroupIdTrimmed(rows: seq<Row>, before: string, id: string, after_: string)
    requires Blank(before) && Blank(after_) && Trimmed(id)
    ensures FoldGroup(rows, before + id + after_) == if id == "" then map[] else Fold(GroupRows(rows, id))
    ensures forall r :: r in GroupRows(rows, id) <==> r in rows && r.groupId == id
  {
    hide TrimSpace, Fold, GroupRows;
    TrimPadded(before, id, after_);
    GroupRowsMembers(rows, id);
  }
}
