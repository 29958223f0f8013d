/** The join the loader reads: users, group memberships and group presets. */
module PcqJoin {
  import opened Text
  import opened PcqLoad

  /** `ip` is the tunnel address taken from `allowed_ips`, or "" when there is none. */
  datatype User = User(wireguard: bool, isEnabled: int, ip: string)

  datatype Preset = Preset(down: Option<int>, up: Option<int>, burstDown: Option<int>, burstUp: Option<int>,
                           classifier: string, isDisabled: int)

  /** Users and presets by user and group id; memberships are pairs of a group and a user id. */
  datatype Tables = Tables(users: map<string, User>, members: set<(string, string)>, presets: map<string, Preset>)

  /** SQL's `TRIM`, which removes blanks only. */
  function TrimBlanks(s: string): string {
    if s == "" then ""
    else if s[0] == ' ' then TrimBlanks(s[1..])
    else if s[|s| - 1] == ' ' then TrimBlanks(s[..|s| - 1])
    else s
  }

  function RowOf(group: string, u: User, p: Preset): Row {
    Row(group, u.ip, p.down, p.up, p.burstDown, p.burstUp, TrimBlanks(p.classifier))
  }

  /** The membership joins an enabled WireGuard user with a preset that is not switched off. */
  predicate Joins(t: Tables, m: (string, string)) {
    && m in t.members && m.1 in t.users && m.0 in t.presets
    && t.users[m.1].wireguard && t.users[m.1].isEnabled == 1 && t.presets[m.0].isDisabled == 0
  }

  function Joined(t: Tables): set<Row> {
    set m | m in t.members && Joins(t, m) :: RowOf(m.0, t.users[m.1], t.presets[m.0])
  }

  /** The rows of the join, in whatever order the database returns them. */
  predicate Selects(rows: seq<Row>, t: Tables) {
    (forall r :: r in rows ==> r in Joined(t)) && (forall r :: r in Joined(t) ==> r in rows)
  }

  predicate Positive(limit: Option<int>) { limit.Some? && limit.value > 0 }

  /** A preset counts when it caps a direction that its classifier does not leave alone. */
  predicate Counts(p: Preset) {
    || (TrimBlanks(p.classifier) != "src-upload" && Positive(p.down))
    || (TrimBlanks(p.classifier) != "dst-download" && Positive(p.up))
  }

  /** The cap or burst a preset that counts sets in a direction. */
  predicate SetsCap(p: Preset, k: Knob, v: int) {
    && v > 0 && Counts(p)
    && match k
       case Down => TrimBlanks(p.classifier) != "src-upload" && p.down == Some(v)
       case Up => TrimBlanks(p.classifier) != "dst-download" && p.up == Some(v)
       case BurstDown => TrimBlanks(p.classifier) != "src-upload" && p.burstDown == Some(v)
       case BurstUp => TrimBlanks(p.classifier) != "dst-download" && p.burstUp == Some(v)
  }

  /** User `u` is an enabled WireGuard user with the address, in a group with a preset that is not switched
      off and sets the cap. */
  predicate Grants(t: Tables, group: string, u: string, ip: string, k: Knob, v: int) {
    && (group, u) in t.members && u in t.users && group in t.presets
    && t.users[u].wireguard && t.users[u].isEnabled == 1 && t.users[u].ip == ip
    && t.presets[group].isDisabled == 0 && SetsCap(t.presets[group], k, v)
  }

  /** The least cap for the address in the direction, or 0 when there is none. */
  ghost predicate LeastCap(v: int, t: Tables, ip: string, k: Knob) {
    && (forall g, u, w :: Grants(t, g, u, ip, k, w) ==> 0 < v <= w)
    && (v == 0 || exists g, u :: Grants(t, g, u, ip, k, v))
  }

  lemma RowCap(group: string, u: User, p: Preset, k: Knob, v: int)
    requires u.ip != ""
    ensures SetsCap(p, k, v) <==> Sets(RowOf(group, u, p), u.ip, k) && Get(ClassifyRow(RowOf(group, u, p)), k) == v
  {
    hide TrimBlanks;
    assert "dst-download"[0] != "src-upload"[0];
  }

  /** The least cap over the joined rows is the least cap in the tables. */
  lemma LeastOfJoin(rows: seq<Row>, t: Tables, ip: string, k: Knob, v: int)
    requires Selects(rows, t) && ip != "" && IsLeast(v, rows, ip, k)
    ensures LeastCap(v, t, ip, k)
  {
    hide RowOf, SetsCap, ClassifyRow, Contributes;
    forall g, u, w | Grants(t, g, u, ip, k, w) ensures 0 < v <= w {
      JoinedRow(t, (g, u));
      RowCap(g, t.users[u], t.presets[g], k, w);
      assert RowOf(g, t.users[u], t.presets[g]) in rows;
    }
    if v != 0 {
      var r :| r in rows && Sets(r, ip, k) && v == Get(ClassifyRow(r), k);
      var m :| m in t.members && Joins(t, m) && r == RowOf(m.0, t.users[m.1], t.presets[m.0]);
      JoinedRow(t, m);
      RowCap(m.0, t.users[m.1], t.presets[m.0], k, v);
      assert Grants(t, m.0, m.1, ip, k, v);
    }
  }

  lemma JoinedRow(t: Tables, m: (string, string))
    requires m in t.members && m.1 in t.users && m.0 in t.presets
    requires t.users[m.1].wireguard && t.users[m.1].isEnabled == 1 && t.presets[m.0].isDisabled == 0
    ensures RowOf(m.0, t.users[m.1], t.presets[m.0]) in Joined(t)
    ensures RowOf(m.0, t.users[m.1], t.presets[m.0]).ip == t.users[m.1].ip
  {
  }

  /** `TRIM` takes the blanks off both ends, and nothing else. */
  lemma {:induction false} TrimmedBlanks(before: nat, s: string, after_: nat)
    requires s == "" || (s[0] != ' ' && s[|s| - 1] != ' ')
    ensures TrimBlanks(seq(before, _ => ' ') + s + seq(after_, _ => ' ')) == s
    decreases before + after_
  {
    var text := seq(before, _ => ' ') + s + seq(after_, _ => ' ');
    if before > 0 {
      assert text[1..] == seq(before - 1, _ => ' ') + s + seq(after_, _ => ' ');
      TrimmedBlanks(before - 1, s, after_);
    } else if after_ > 0 {
      assert text[..|text| - 1] == seq(before, _ => ' ') + s + seq(after_ - 1, _ => ' ');
      assert text[1..] == if s == "" then seq(before, _ => ' ') + s + seq(after_ - 1, _ => ' ') else text[1..];
      TrimmedBlanks(before, s, after_ - 1);
    } else {
      assert text == s;
    }
  }
}
