/** Exporting users, groups, memberships and queue presets to a backup, and restoring them with
    the database's upserts and foreign-key cascades. */
module Backup {
  import opened Text

  type Id = nat

  /** The columns of `vpn_users` a backup copies as they are. */
  datatype Counters = Counters(isEnabled: bool, remainingDays: Option<int>, remainingTraffic: Option<int>,
                               received: int, sent: int, totalReceived: int, totalSent: int, isConnected: bool)

  /** A row of `vpn_users`; `wireguard` tells whether `server_id` is 'wireguard'. */
  datatype User = User(id: Id, wireguard: bool,
                       allowedIPs: Option<string>, privateKey: Option<string>, publicKey: Option<string>,
                       presharedKey: Option<string>, endpoint: Option<string>, lastHandshake: Option<string>,
                       connectedAt: Option<string>, counters: Counters)

  datatype Group = Group(id: Id, description: Option<string>)

  datatype Preset = Preset(down: Option<int>, up: Option<int>, burstDown: Option<int>, burstUp: Option<int>,
                           classifier: string, disabled: bool)

  /** The tables, with users and groups under their unique names. `next` is above every id in use. */
  datatype Tables = Tables(users: map<string, User>, groups: map<string, Group>,
                           members: set<(Id, Id)>, presets: map<Id, Preset>, next: Id)

  datatype BackupPeer = BackupPeer(username: string, allowedIPs: string, privateKey: string, publicKey: string,
                                   presharedKey: string, endpoint: string, lastHandshake: string,
                                   connectedAt: string, counters: Counters)

  datatype BackupGroup = BackupGroup(name: string, description: string, members: seq<string>, preset: Option<Preset>)

  datatype File = File(peers: seq<BackupPeer>, groups: seq<BackupGroup>)

  datatype RestoreOptions = RestoreOptions(replacePeers: bool, replaceGroups: bool)

  /* ---------- export ---------- */

  /** A NULL column is exported as the empty text. */
  function TextOf(c: Option<string>): string { if c.Some? then c.value else "" }

  function ExportUser(name: string, u: User): BackupPeer {
    BackupPeer(name, TextOf(u.allowedIPs), TextOf(u.privateKey), TextOf(u.publicKey), TextOf(u.presharedKey),
               TextOf(u.endpoint), TextOf(u.lastHandshake), TextOf(u.connectedAt), u.counters)
  }

  function OnServer(t: Tables): set<string> {
    set n | n in t.users && t.users[n].wireguard
  }

  ghost function ExportPeers(t: Tables): seq<BackupPeer> {
    ExportNamed(t, Sorted(OnServer(t)))
  }

  function ExportNamed(t: Tables, names: seq<string>): seq<BackupPeer>
    requires forall n :: n in names ==> n in t.users
  {
    seq(|names|, i requires 0 <= i < |names| => ExportUser(names[i], t.users[names[i]]))
  }

  predicate InGroup(t: Tables, g: string, u: string) {
    g in t.groups && u in t.users && (t.groups[g].id, t.users[u].id) in t.members
  }

  function MembersOf(t: Tables, g: string): set<string> {
    set u | u in t.users && InGroup(t, g, u)
  }

  function PresetOf(t: Tables, g: string): Option<Preset>
    requires g in t.groups
  {
    if t.groups[g].id in t.presets then Some(t.presets[t.groups[g].id]) else None
  }

  /** The members of a group that are exported: blank names are skipped. */
  function NotBlank(names: seq<string>): seq<string> {
    if names == [] then []
    else NotBlank(names[..|names| - 1]) + if TrimSpace(names[|names| - 1]) != "" then [names[|names| - 1]] else []
  }

  ghost function ExportGroup(t: Tables, g: string): BackupGroup
    requires g in t.groups
  {
    BackupGroup(g, TextOf(t.groups[g].description), NotBlank(Sorted(MembersOf(t, g))), PresetOf(t, g))
  }

  ghost function ExportGroups(t: Tables, names: seq<string>): seq<BackupGroup>
    requires forall g :: g in names ==> g in t.groups
  {
    seq(|names|, i requires 0 <= i < |names| => ExportGroup(t, names[i]))
  }

  /** The outer join yields a NULL user name for a group without members, which cannot be scanned
      into a string: the export then fails. */
  ghost function Export(t: Tables): Option<File> {
    if exists g :: g in t.groups && MembersOf(t, g) == {} then None
    else Some(File(ExportPeers(t), ExportGroups(t, Sorted(t.groups.Keys))))
  }

  /* ---------- restore ---------- */

  /** `nullStr`. */
  function NullStr(s: string): Option<string> {
    if TrimSpace(s) == "" then None else Some(TrimSpace(s))
  }

  function Coalesce(a: Option<string>, b: Option<string>): Option<string> { if a.Some? then a else b }

  predicate Skipped(p: BackupPeer) { TrimSpace(p.publicKey) == "" || TrimSpace(p.allowedIPs) == "" }

  /** The user name a backup peer is stored under. */
  function NameOf(p: BackupPeer): string {
    if TrimSpace(p.username) == "" then TrimSpace(p.publicKey) else TrimSpace(p.username)
  }

  function RowOf(p: BackupPeer, id: Id, privateKey: Option<string>): User {
    User(id, true, Some(TrimSpace(p.allowedIPs)), privateKey, Some(TrimSpace(p.publicKey)), NullStr(p.presharedKey),
         NullStr(p.endpoint), NullStr(p.lastHandshake), NullStr(p.connectedAt), p.counters)
  }

  /** Insert, or on a username conflict update everything but the id, keeping a private key the
      backup does not have. */
  function Upsert(p: BackupPeer, cur: Option<User>, newId: Id): User {
    if cur.Some? then RowOf(p, cur.value.id, Coalesce(NullStr(p.privateKey), cur.value.privateKey))
    else RowOf(p, newId, NullStr(p.privateKey))
  }

  function Find<T>(m: map<string, T>, k: string): Option<T> { if k in m then Some(m[k]) else None }

  function RestorePeer(t: Tables, p: BackupPeer): Tables {
    if Skipped(p) then t
    else t.(users := t.users[NameOf(p) := Upsert(p, Find(t.users, NameOf(p)), t.next)], next := t.next + 1)
  }

  function RestorePeers(t: Tables, ps: seq<BackupPeer>): Tables {
    if ps == [] then t else RestorePeer(RestorePeers(t, ps[..|ps| - 1]), ps[|ps| - 1])
  }

  function AddMember(t: Tables, group: Id, member: string): Tables {
    var u := TrimSpace(member);
    if u == "" || u !in t.users then t else t.(members := t.members + {(group, t.users[u].id)})
  }

  function AddMembers(t: Tables, group: Id, ms: seq<string>): Tables {
    if ms == [] then t else AddMember(AddMembers(t, group, ms[..|ms| - 1]), group, ms[|ms| - 1])
  }

  function DefaultClassifier(c: string): string { if TrimSpace(c) == "" then "dual" else TrimSpace(c) }

  function StorePreset(t: Tables, group: Id, p: Option<Preset>): Tables {
    if p.None? then t
    else t.(presets := t.presets[group := p.value.(classifier := DefaultClassifier(p.value.classifier))])
  }

  function UpsertGroup(t: Tables, name: string, description: string): Tables {
    t.(groups := t.groups[name := Group(if name in t.groups then t.groups[name].id else t.next, Some(description))],
       next := t.next + 1)
  }

  function RestoreGroup(t: Tables, g: BackupGroup): Tables {
    var name := TrimSpace(g.name);
    if name == "" then t
    else
      var named := UpsertGroup(t, name, TrimSpace(g.description));
      var id := named.groups[name].id;
      StorePreset(AddMembers(named, id, g.members), id, g.preset)
  }

  function RestoreGroups(t: Tables, gs: seq<BackupGroup>): Tables {
    if gs == [] then t else RestoreGroup(RestoreGroups(t, gs[..|gs| - 1]), gs[|gs| - 1])
  }

  /** `DELETE FROM vpn_users WHERE server_id = 'wireguard'`, cascading to memberships. */
  function DeletePeers(t: Tables): Tables {
    var gone := set n | n in OnServer(t) :: t.users[n].id;
    t.(users := map n | n in t.users && !t.users[n].wireguard :: t.users[n],
       members := set m | m in t.members && m.1 !in gone)
  }

  function DeleteGroups(t: Tables): Tables {
    t.(members := {}, presets := map[], groups := map[])
  }

  function Cleared(t: Tables, o: RestoreOptions): Tables {
    var t1 := if o.replacePeers then DeletePeers(t) else t;
    if o.replaceGroups then DeleteGroups(t1) else t1
  }

  /** The database part of `RestoreBackup`. */
  function Restore(t: Tables, f: File, o: RestoreOptions): Tables {
    RestoreGroups(RestorePeers(Cleared(t, o), f.peers), f.groups)
  }

  /* ---------- the statements, run one after the other ---------- */

  class Database {
    var users: map<string, User>
    var groups: map<string, Group>
    var members: set<(Id, Id)>
    var presets: map<Id, Preset>
    var next: Id

    function Value(): Tables
      reads this
    {
      Tables(users, groups, members, presets, next)
    }

    constructor (t: Tables)
      ensures Value() == t
    {
      users, groups, members, presets, next := t.users, t.groups, t.members, t.presets, t.next;
    }

    method NewId() returns (id: Id)
      modifies this`next
      ensures id == old(next) && next == old(next) + 1
    {
      id := next;
      next := next + 1;
    }

    method RestoreOne(p: BackupPeer)
      modifies this
      ensures Value() == RestorePeer(old(Value()), p)
    {
      hide TrimSpace;
      var pub, allowed := TrimSpace(p.publicKey), TrimSpace(p.allowedIPs);
      if pub == "" || allowed == "" { return; }
      var username := TrimSpace(p.username);
      if username == "" { username := pub; }
      var id := NewId();
      var priv := NullStr(p.privateKey);
      if username in users {
        id := users[username].id;
        if priv.None? { priv := users[username].privateKey; }
      }
      users := users[username := RowOf(p, id, priv)];
    }

    method RestoreMembers(group: Id, ms: seq<string>)
      modifies this`members
      ensures Value() == AddMembers(old(Value()), group, ms)
    {
      hide TrimSpace;
      for i := 0 to |ms|
        invariant Value() == AddMembers(old(Value()), group, ms[..i])
      {
        assert ms[..i + 1][..i] == ms[..i];
        var u := TrimSpace(ms[i]);
        if u == "" { continue; }
        if u !in users { continue; }
        members := members + {(group, users[u].id)};
      }
      assert ms[..|ms|] == ms;
    }

    method RestoreOneGroup(g: BackupGroup)
      modifies this
      ensures Value() == RestoreGroup(old(Value()), g)
    {
      hide TrimSpace;
      var name := TrimSpace(g.name);
      if name == "" { return; }
      var id := NewId();
      if name in groups { id := groups[name].id; }
      groups := groups[name := Group(id, Some(TrimSpace(g.description)))];
      assert Value() == UpsertGroup(old(Value()), name, TrimSpace(g.description));
      RestoreMembers(id, g.members);
      if g.preset.Some? {
        presets := presets[id := g.preset.value.(classifier := DefaultClassifier(g.preset.value.classifier))];
      }
    }

    method RestoreBackup(f: File, o: RestoreOptions)
      modifies this
      ensures Value() == Restore(old(Value()), f, o)
    {
      hide RestorePeer, RestoreGroup;
      if o.replacePeers {
        var gone := set n | n in users && users[n].wireguard :: users[n].id;
        assert gone == set n | n in OnServer(Value()) :: users[n].id;
        members := set m | m in members && m.1 !in gone;
        users := map n | n in users && !users[n].wireguard :: users[n];
      }
      assert Value() == if o.replacePeers then DeletePeers(old(Value())) else old(Value());
      if o.replaceGroups {
        members := {};
        presets := map[];
        groups := map[];
      }
      ghost var start := Value();
      assert start == Cleared(old(Value()), o);
      for i := 0 to |f.peers|
        invariant Value() == RestorePeers(start, f.peers[..i])
      {
        assert f.peers[..i + 1][..i] == f.peers[..i];
        RestoreOne(f.peers[i]);
      }
      assert f.peers[..|f.peers|] == f.peers;
      ghost var peopled := Value();
      for i := 0 to |f.groups|
        invariant Value() == RestoreGroups(peopled, f.groups[..i])
      {
        assert f.groups[..i + 1][..i] == f.groups[..i];
        RestoreOneGroup(f.groups[i]);
      }
      assert f.groups[..|f.groups|] == f.groups;
    }

    /** Exporting appends a peer per user in name order and a group per group name. */
    method ExportBackup() returns (file: Option<File>)
      ensures file == Export(Value())
    {
      var t := Value();
      var names := SortKeys(OnServer(t));
      var peers := ExportPeerRows(t, names);
      var groupNames := SortKeys(t.groups.Keys);
      var groups := ExportGroupRows(t, groupNames);
      assert forall g :: g in t.groups <==> g in groupNames;
      file := if groups.None? then None else Some(File(peers, groups.value));
    }
  }

  method ExportPeerRows(t: Tables, names: seq<string>) returns (peers: seq<BackupPeer>)
    requires forall n :: n in names ==> n in t.users
    ensures peers == ExportNamed(t, names)
  {
    hide ExportUser;
    peers := [];
    for i := 0 to |names|
      invariant peers == ExportNamed(t, names[..i])
    {
      peers := peers + [ExportUser(names[i], t.users[names[i]])];
    }
    assert names[..|names|] == names;
  }

  method ExportGroupRows(t: Tables, names: seq<string>) returns (groups: Option<seq<BackupGroup>>)
    requires forall g :: g in names ==> g in t.groups
    ensures groups == if exists g :: g in names && MembersOf(t, g) == {} then None else Some(ExportGroups(t, names))
  {
    hide MembersOf, ExportGroup;
    var out: seq<BackupGroup> := [];
    for i := 0 to |names|
      invariant forall j :: 0 <= j < i ==> MembersOf(t, names[j]) != {}
      invariant out == ExportGroups(t, names[..i])
    {
      var g := ExportGroupRow(t, names[i]);
      if g.None? { return None; }
      out := out + [g.value];
    }
    assert names[..|names|] == names;
    groups := Some(out);
  }

  /** The joined rows of one group: scanning the NULL name of a group without members fails. */
  method ExportGroupRow(t: Tables, g: string) returns (group: Option<BackupGroup>)
    requires g in t.groups
    ensures group == if MembersOf(t, g) == {} then None else Some(ExportGroup(t, g))
  {
    hide MembersOf, NotBlank;
    var who := MembersOf(t, g);
    if who == {} { return None; }
    var sorted := SortKeys(who);
    var listed := KeepNamed(sorted);
    group := Some(BackupGroup(g, TextOf(t.groups[g].description), listed, PresetOf(t, g)));
  }

  method KeepNamed(names: seq<string>) returns (kept: seq<string>)
    ensures kept == NotBlank(names)
  {
    kept := [];
    for i := 0 to |names|
      invariant kept == NotBlank(names[..i])
    {
      assert names[..i + 1][..i] == names[..i];
      if TrimSpace(names[i]) != "" { kept := kept + [names[i]]; }
    }
    assert names[..|names|] == names;
  }
}
