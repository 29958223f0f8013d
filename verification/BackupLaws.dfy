/** What export and restore guarantee: references stay intact at every step, restoring undoes
    exporting, restoring twice is restoring once, and nothing outside the backup changes. */
module BackupLaws {
  import opened Text
  import opened Backup

  /* ---------- referential integrity ---------- */

  predicate HasUserId(t: Tables, id: Id) { exists n :: n in t.users && t.users[n].id == id }
  predicate HasGroupId(t: Tables, id: Id) { exists g :: g in t.groups && t.groups[g].id == id }

  /** Ids are unique and below `next`; memberships and presets refer to existing rows. */
  predicate WellFormed(t: Tables) {
    && (forall n :: n in t.users ==> t.users[n].id < t.next)
    && (forall g :: g in t.groups ==> t.groups[g].id < t.next)
    && (forall n, m :: n in t.users && m in t.users && n != m ==> t.users[n].id != t.users[m].id)
    && (forall g, h :: g in t.groups && h in t.groups && g != h ==> t.groups[g].id != t.groups[h].id)
    && (forall m :: m in t.members ==> HasGroupId(t, m.0) && HasUserId(t, m.1))
    && (forall id :: id in t.presets ==> HasGroupId(t, id))
  }

  /** Rows that are still there under their ids. */
  predicate RowsKept(t: Tables, d: Tables) {
    && (forall n :: n in t.users ==> n in d.users && d.users[n].id == t.users[n].id)
    && (forall g :: g in t.groups ==> g in d.groups && d.groups[g].id == t.groups[g].id)
  }

  lemma IdsKept(t: Tables, d: Tables)
    requires RowsKept(t, d)
    ensures forall id :: HasUserId(t, id) ==> HasUserId(d, id)
    ensures forall id :: HasGroupId(t, id) ==> HasGroupId(d, id)
  {
    forall id | HasUserId(t, id) ensures HasUserId(d, id) {
      var n :| n in t.users && t.users[n].id == id;
      assert n in d.users && d.users[n].id == id;
    }
    forall id | HasGroupId(t, id) ensures HasGroupId(d, id) {
      var g :| g in t.groups && t.groups[g].id == id;
      assert g in d.groups && d.groups[g].id == id;
    }
  }

  lemma DeletePeersKeeps(t: Tables)
    requires WellFormed(t)
    ensures WellFormed(DeletePeers(t))
  {
    var d := DeletePeers(t);
    forall m | m in d.members ensures HasGroupId(d, m.0) && HasUserId(d, m.1) {
      var n :| n in t.users && t.users[n].id == m.1;
      assert t.users[n].wireguard ==> n in OnServer(t);
      assert n in d.users;
      var g :| g in t.groups && t.groups[g].id == m.0;
      assert g in d.groups;
    }
    forall id | id in d.presets ensures HasGroupId(d, id) {
      var g :| g in t.groups && t.groups[g].id == id;
      assert g in d.groups;
    }
  }

  lemma ClearedKeeps(t: Tables, o: RestoreOptions)
    requires WellFormed(t)
    ensures WellFormed(Cleared(t, o))
  {
    DeletePeersKeeps(t);
  }

  lemma RestorePeerKeeps(t: Tables, p: BackupPeer)
    requires WellFormed(t)
    ensures WellFormed(RestorePeer(t, p))
  {
    hide TrimSpace, NullStr, HasUserId, HasGroupId;
    var d := RestorePeer(t, p);
    assert RowsKept(t, d);
    IdsKept(t, d);
  }

  lemma UpsertGroupKeeps(t: Tables, name: string, description: string)
    requires WellFormed(t)
    ensures var d := UpsertGroup(t, name, description);
            WellFormed(d) && name in d.groups && d.users == t.users && d.members == t.members && d.presets == t.presets
    ensures forall id :: HasGroupId(t, id) ==> HasGroupId(UpsertGroup(t, name, description), id)
  {
    hide HasUserId, HasGroupId;
    var d := UpsertGroup(t, name, description);
    assert RowsKept(t, d);
    IdsKept(t, d);
  }

  lemma {:induction false} AddMembersKeeps(t: Tables, group: Id, ms: seq<string>)
    requires WellFormed(t) && HasGroupId(t, group)
    ensures var d := AddMembers(t, group, ms);
            WellFormed(d) && d.groups == t.groups && d.users == t.users && d.presets == t.presets && d.next == t.next
  {
    hide TrimSpace;
    if ms != [] {
      var n := |ms| - 1;
      AddMembersKeeps(t, group, ms[..n]);
      AddMemberKeeps(AddMembers(t, group, ms[..n]), group, ms[n]);
    }
  }

  lemma AddMemberKeeps(t: Tables, group: Id, m: string)
    requires WellFormed(t) && HasGroupId(t, group)
    ensures WellFormed(AddMember(t, group, m)) && HasGroupId(AddMember(t, group, m), group)
  {
    hide TrimSpace, HasGroupId;
    var d := AddMember(t, group, m);
    assert RowsKept(t, d);
    IdsKept(t, d);
    if TrimSpace(m) in t.users { assert HasUserId(d, t.users[TrimSpace(m)].id); }
  }

  lemma StorePresetKeeps(t: Tables, group: Id, p: Option<Preset>)
    requires WellFormed(t) && HasGroupId(t, group)
    ensures WellFormed(StorePreset(t, group, p))
  {
    hide DefaultClassifier, HasUserId, HasGroupId;
    var d := StorePreset(t, group, p);
    assert RowsKept(t, d);
    IdsKept(t, d);
  }

  lemma RestoreGroupKeeps(t: Tables, g: BackupGroup)
    requires WellFormed(t)
    ensures WellFormed(RestoreGroup(t, g)) && RestoreGroup(t, g).users == t.users
  {
    hide TrimSpace, WellFormed;
    var name := TrimSpace(g.name);
    if name != "" {
      UpsertGroupKeeps(t, name, TrimSpace(g.description));
      var named := UpsertGroup(t, name, TrimSpace(g.description));
      var id := named.groups[name].id;
      assert HasGroupId(named, id);
      AddMembersKeeps(named, id, g.members);
      assert HasGroupId(AddMembers(named, id, g.members), id);
      StorePresetKeeps(AddMembers(named, id, g.members), id, g.preset);
    }
  }

  lemma {:induction false} RestorePeersKeeps(t: Tables, ps: seq<BackupPeer>)
    requires WellFormed(t)
    ensures WellFormed(RestorePeers(t, ps))
    ensures var d := RestorePeers(t, ps); d.groups == t.groups && d.members == t.members && d.presets == t.presets
  {
    hide WellFormed, TrimSpace;
    if ps != [] {
      var n := |ps| - 1;
      RestorePeersKeeps(t, ps[..n]);
      RestorePeerKeeps(RestorePeers(t, ps[..n]), ps[n]);
    }
  }

  lemma {:induction false} RestoreGroupsKeeps(t: Tables, gs: seq<BackupGroup>)
    requires WellFormed(t)
    ensures WellFormed(RestoreGroups(t, gs)) && RestoreGroups(t, gs).users == t.users
  {
    hide WellFormed, RestoreGroup;
    if gs != [] {
      var n := |gs| - 1;
      RestoreGroupsKeeps(t, gs[..n]);
      RestoreGroupKeeps(RestoreGroups(t, gs[..n]), gs[n]);
    }
  }

  /** At every step of a restore, memberships and presets refer to existing users and groups. */
  lemma IntegrityAtEveryStep(t: Tables, f: File, o: RestoreOptions, i: nat, j: nat)
    requires WellFormed(t) && i <= |f.peers| && j <= |f.groups|
    ensures WellFormed(Cleared(t, o))
    ensures WellFormed(RestorePeers(Cleared(t, o), f.peers[..i]))
    ensures WellFormed(RestoreGroups(RestorePeers(Cleared(t, o), f.peers), f.groups[..j]))
  {
    hide WellFormed, Cleared;
    ClearedKeeps(t, o);
    RestorePeersKeeps(Cleared(t, o), f.peers[..i]);
    RestorePeersKeeps(Cleared(t, o), f.peers);
    RestoreGroupsKeeps(RestorePeers(Cleared(t, o), f.peers), f.groups[..j]);
  }

  /* ---------- what a restore does, name by name ---------- */

  function NoId(u: Option<User>): Option<User> {
    if u.Some? then Some(u.value.(id := 0)) else None
  }

  /** The user stored under `n`, ids aside, after restoring peers over `cur`. */
  function UserAfter(ps: seq<BackupPeer>, n: string, cur: Option<User>): Option<User> {
    if ps == [] then cur
    else
      var prev, p := UserAfter(ps[..|ps| - 1], n, cur), ps[|ps| - 1];
      if !Skipped(p) && NameOf(p) == n then Some(Upsert(p, prev, 0)) else prev
  }

  lemma {:induction false} RestoredUser(t: Tables, ps: seq<BackupPeer>, n: string)
    ensures NoId(Find(RestorePeers(t, ps).users, n)) == UserAfter(ps, n, NoId(Find(t.users, n)))
  {
    hide TrimSpace, NullStr;
    if ps != [] {
      RestoredUser(t, ps[..|ps| - 1], n);
    }
  }

  predicate Names(ps: seq<BackupPeer>, n: string) {
    exists p :: p in ps && !Skipped(p) && NameOf(p) == n
  }

  lemma {:induction false} UnnamedUser(t: Tables, ps: seq<BackupPeer>, n: string)
    requires !Names(ps, n)
    ensures Find(RestorePeers(t, ps).users, n) == Find(t.users, n)
  {
    hide TrimSpace, NullStr;
    if ps != [] {
      var init, p := ps[..|ps| - 1], ps[|ps| - 1];
      assert p in ps;
      assert forall q :: q in init ==> q in ps;
      UnnamedUser(t, init, n);
    }
  }

  /** The last private key the backup has for a name. */
  function LastKey(ps: seq<BackupPeer>, n: string): Option<string> {
    if ps == [] then None
    else
      var p := ps[|ps| - 1];
      var prev := LastKey(ps[..|ps| - 1], n);
      if !Skipped(p) && NameOf(p) == n then Coalesce(NullStr(p.privateKey), prev) else prev
  }

  /** The last backup peer stored under a name. */
  function LastEntry(ps: seq<BackupPeer>, n: string): Option<BackupPeer> {
    if ps == [] then None
    else
      var p := ps[|ps| - 1];
      if !Skipped(p) && NameOf(p) == n then Some(p) else LastEntry(ps[..|ps| - 1], n)
  }

  function KeyOf(u: Option<User>): Option<string> { if u.Some? then u.value.privateKey else None }

  lemma {:induction false} UserAfterIs(ps: seq<BackupPeer>, n: string, cur: Option<User>)
    requires NoId(cur) == cur
    ensures UserAfter(ps, n, cur) ==
            if LastEntry(ps, n).None? then cur
            else Some(RowOf(LastEntry(ps, n).value, 0, Coalesce(LastKey(ps, n), KeyOf(cur))))
    ensures LastEntry(ps, n).None? ==> LastKey(ps, n) == None
    ensures LastEntry(ps, n).Some? <==> Names(ps, n)
  {
    hide TrimSpace, NullStr, NameOf, Skipped;
    if ps != [] {
      var init, p := ps[..|ps| - 1], ps[|ps| - 1];
      UserAfterIs(init, n, cur);
      assert ps == init + [p];
    }
  }

  lemma UserAfterTwice(ps: seq<BackupPeer>, n: string, cur: Option<User>)
    requires NoId(cur) == cur
    ensures UserAfter(ps, n, UserAfter(ps, n, cur)) == UserAfter(ps, n, cur)
  {
    hide TrimSpace, NullStr, LastEntry, LastKey, UserAfter;
    UserAfterIs(ps, n, cur);
    UserAfterIs(ps, n, UserAfter(ps, n, cur));
  }

  /** The backup puts user `u` into group `g`. */
  predicate Puts(gs: seq<BackupGroup>, g: string, u: string) {
    exists b :: b in gs && TrimSpace(b.name) == g && g != "" && Lists(b.members, u)
  }

  predicate Lists(ms: seq<string>, u: string) {
    exists m :: m in ms && TrimSpace(m) == u && u != ""
  }

  lemma {:induction false} AddedMembers(t: Tables, group: Id, ms: seq<string>)
    ensures AddMembers(t, group, ms).members ==
            t.members + set u | u in t.users && Lists(ms, u) :: (group, t.users[u].id)
    ensures AddMembers(t, group, ms).users == t.users
  {
    hide TrimSpace;
    if ms != [] {
      var init, m := ms[..|ms| - 1], ms[|ms| - 1];
      AddedMembers(t, group, init);
      assert ms == init + [m];
      assert forall u :: Lists(ms, u) <==> Lists(init, u) || (TrimSpace(m) == u && u != "");
    }
  }

  function Description(t: Tables, g: string): Option<string> {
    if g in t.groups then Some(TextOf(t.groups[g].description)) else None
  }

  function PresetUnder(t: Tables, g: string): Option<Preset> {
    if g in t.groups then PresetOf(t, g) else None
  }

  function Stored(p: Preset): Preset { p.(classifier := DefaultClassifier(p.classifier)) }

  /** One group of the backup sets its own description and preset and no other group's. */
  lemma RestoredGroupRow(t: Tables, b: BackupGroup, g: string)
    requires WellFormed(t) && TrimSpace(b.name) != ""
    ensures var d, name := RestoreGroup(t, b), TrimSpace(b.name);
            && Description(d, g) == (if g == name then Some(TrimSpace(b.description)) else Description(t, g))
            && PresetUnder(d, g) ==
               (if g == name && b.preset.Some? then Some(Stored(b.preset.value)) else PresetUnder(t, g))
  {
    hide TrimSpace, Lists, DefaultClassifier, UpsertGroup, AddMembers, WellFormed, StorePreset, PresetUnder, Stored;
    var name := TrimSpace(b.name);
    var named := UpsertGroup(t, name, TrimSpace(b.description));
    UpsertGroupKeeps(t, name, TrimSpace(b.description));
    var id := named.groups[name].id;
    UpsertedGroupRow(t, name, TrimSpace(b.description), g);
    assert HasGroupId(named, id);
    AddMembersKeeps(named, id, b.members);
    var filled := AddMembers(named, id, b.members);
    SamePresets(named, filled, g);
    StoredPresetRow(filled, name, b.preset, g);
  }

  lemma UpsertedGroupRow(t: Tables, name: string, description: string, g: string)
    requires WellFormed(t)
    ensures var d := UpsertGroup(t, name, description);
            && Description(d, g) == (if g == name then Some(description) else Description(t, g))
            && PresetUnder(d, g) == PresetUnder(t, g)
  {
    if name !in t.groups { FreshGroup(t); }
  }

  lemma SamePresets(t: Tables, d: Tables, g: string)
    requires d.groups == t.groups && d.presets == t.presets
    ensures PresetUnder(d, g) == PresetUnder(t, g)
  {
  }

  lemma StoredPresetRow(t: Tables, name: string, p: Option<Preset>, g: string)
    requires WellFormed(t) && name in t.groups
    ensures var d := StorePreset(t, t.groups[name].id, p);
            && d.groups == t.groups
            && PresetUnder(d, g) == if g == name && p.Some? then Some(Stored(p.value)) else PresetUnder(t, g)
  {
    hide DefaultClassifier;
  }

  lemma UpsertGroupMembers(t: Tables, name: string, description: string, g: string, u: string)
    requires WellFormed(t)
    ensures InGroup(UpsertGroup(t, name, description), g, u) <==> InGroup(t, g, u)
  {
    if name !in t.groups {
      FreshGroup(t);
    }
  }

  lemma AddedToGroup(t: Tables, name: string, ms: seq<string>, g: string, u: string)
    requires WellFormed(t) && name in t.groups
    ensures InGroup(AddMembers(t, t.groups[name].id, ms), g, u) <==>
            InGroup(t, g, u) || (g == name && Lists(ms, u) && u in t.users)
  {
    hide TrimSpace, Lists;
    var id := t.groups[name].id;
    assert HasGroupId(t, id);
    AddMembersKeeps(t, id, ms);
    AddedMembers(t, id, ms);
  }

  /** It adds its own members and nobody else's. */
  lemma RestoredGroupMembers(t: Tables, b: BackupGroup, g: string, u: string)
    requires WellFormed(t) && TrimSpace(b.name) != ""
    ensures InGroup(RestoreGroup(t, b), g, u) <==>
            InGroup(t, g, u) || (g == TrimSpace(b.name) && Lists(b.members, u) && u in t.users)
  {
    hide TrimSpace, Lists, UpsertGroup, AddMembers, WellFormed, DefaultClassifier;
    var name := TrimSpace(b.name);
    var named := UpsertGroup(t, name, TrimSpace(b.description));
    UpsertGroupKeeps(t, name, TrimSpace(b.description));
    UpsertGroupMembers(t, name, TrimSpace(b.description), g, u);
    AddedToGroup(named, name, b.members, g, u);
  }

  lemma FreshGroup(t: Tables)
    requires WellFormed(t)
    ensures t.next !in t.presets && forall m :: m in t.members ==> m.0 != t.next
  {
    assert !HasGroupId(t, t.next);
  }

  /** Description and preset of a group after restoring `gs` over `cur`. */
  function DescriptionAfter(gs: seq<BackupGroup>, g: string, cur: Option<string>): Option<string> {
    if gs == [] then cur
    else
      var b := gs[|gs| - 1];
      if TrimSpace(b.name) != "" && TrimSpace(b.name) == g then Some(TrimSpace(b.description))
      else DescriptionAfter(gs[..|gs| - 1], g, cur)
  }

  function PresetAfter(gs: seq<BackupGroup>, g: string, cur: Option<Preset>): Option<Preset> {
    if gs == [] then cur
    else
      var b := gs[|gs| - 1];
      if TrimSpace(b.name) != "" && TrimSpace(b.name) == g && b.preset.Some? then Some(Stored(b.preset.value))
      else PresetAfter(gs[..|gs| - 1], g, cur)
  }

  lemma {:induction false} RestoredGroups(t: Tables, gs: seq<BackupGroup>, g: string, u: string)
    requires WellFormed(t)
    ensures var d := RestoreGroups(t, gs);
            && Description(d, g) == DescriptionAfter(gs, g, Description(t, g))
            && PresetUnder(d, g) == PresetAfter(gs, g, PresetUnder(t, g))
            && (InGroup(d, g, u) <==> InGroup(t, g, u) || (Puts(gs, g, u) && u in t.users))
  {
    hide TrimSpace, Lists, RestoreGroup, WellFormed, DefaultClassifier;
    if gs != [] {
      var init, b := gs[..|gs| - 1], gs[|gs| - 1];
      RestoredGroups(t, init, g, u);
      RestoreGroupsKeeps(t, init);
      var mid := RestoreGroups(t, init);
      assert gs == init + [b];
      PutsSnoc(init, b, g, u);
      if TrimSpace(b.name) != "" {
        RestoredGroupRow(mid, b, g);
        RestoredGroupMembers(mid, b, g, u);
      } else {
        BlankGroup(mid, b);
      }
    }
  }

  lemma BlankGroup(t: Tables, b: BackupGroup)
    requires TrimSpace(b.name) == ""
    ensures RestoreGroup(t, b) == t
  {
    hide TrimSpace;
  }

  lemma PutsSnoc(init: seq<BackupGroup>, b: BackupGroup, g: string, u: string)
    ensures Puts(init + [b], g, u) <==> Puts(init, g, u) || (TrimSpace(b.name) == g && g != "" && Lists(b.members, u))
  {
    hide TrimSpace, Lists;
    if Puts(init, g, u) {
      var c :| c in init && TrimSpace(c.name) == g && g != "" && Lists(c.members, u);
      assert c in init + [b];
    }
    assert b in init + [b];
  }

  lemma {:induction false} GroupsAfterTwice(gs: seq<BackupGroup>, g: string, d: Option<string>, p: Option<Preset>)
    ensures DescriptionAfter(gs, g, DescriptionAfter(gs, g, d)) == DescriptionAfter(gs, g, d)
    ensures PresetAfter(gs, g, PresetAfter(gs, g, p)) == PresetAfter(gs, g, p)
  {
    hide TrimSpace, DefaultClassifier;
    DescriptionConstant(gs, g, d, DescriptionAfter(gs, g, d));
    PresetConstant(gs, g, p, PresetAfter(gs, g, p));
  }

  /** Either the start does not matter, or it is what comes out. */
  lemma {:induction false} DescriptionConstant(gs: seq<BackupGroup>, g: string, c: Option<string>, d: Option<string>)
    ensures DescriptionAfter(gs, g, c) == DescriptionAfter(gs, g, d)
            || (DescriptionAfter(gs, g, c) == c && DescriptionAfter(gs, g, d) == d)
  {
    hide TrimSpace;
    if gs != [] { DescriptionConstant(gs[..|gs| - 1], g, c, d); }
  }

  lemma {:induction false} PresetConstant(gs: seq<BackupGroup>, g: string, c: Option<Preset>, d: Option<Preset>)
    ensures PresetAfter(gs, g, c) == PresetAfter(gs, g, d)
            || (PresetAfter(gs, g, c) == c && PresetAfter(gs, g, d) == d)
  {
    hide TrimSpace, DefaultClassifier;
    if gs != [] { PresetConstant(gs[..|gs| - 1], g, c, d); }
  }

  /* ---------- restoring, seen by names ---------- */

  lemma ClearedUser(t: Tables, o: RestoreOptions, n: string)
    ensures Find(Cleared(t, o).users, n) ==
            if o.replacePeers && n in t.users && t.users[n].wireguard then None else Find(t.users, n)
  {
  }

  lemma ClearedGroup(t: Tables, o: RestoreOptions, g: string, u: string)
    requires WellFormed(t)
    ensures Description(Cleared(t, o), g) == if o.replaceGroups then None else Description(t, g)
    ensures PresetUnder(Cleared(t, o), g) == if o.replaceGroups then None else PresetUnder(t, g)
    ensures InGroup(Cleared(t, o), g, u) <==>
            !o.replaceGroups && InGroup(t, g, u) && !(o.replacePeers && t.users[u].wireguard)
  {
    if u in t.users {
      assert t.users[u].wireguard ==> u in OnServer(t);
      var gone := set n | n in OnServer(t) :: t.users[n].id;
      assert t.users[u].id in gone <==> t.users[u].wireguard;
    }
  }

  lemma {:induction false} PeersKeepGroups(t: Tables, ps: seq<BackupPeer>, g: string, u: string)
    requires WellFormed(t)
    ensures InGroup(RestorePeers(t, ps), g, u) <==> InGroup(t, g, u)
    ensures Description(RestorePeers(t, ps), g) == Description(t, g)
            && PresetUnder(RestorePeers(t, ps), g) == PresetUnder(t, g)
  {
    hide TrimSpace, RestorePeer, WellFormed;
    RestorePeersKeeps(t, ps);
    if ps != [] {
      var n := |ps| - 1;
      PeersKeepGroups(t, ps[..n], g, u);
      RestorePeersKeeps(t, ps[..n]);
      PeerKeepsGroups(RestorePeers(t, ps[..n]), ps[n], g, u);
    }
  }

  lemma PeerKeepsGroups(t: Tables, p: BackupPeer, g: string, u: string)
    requires WellFormed(t)
    ensures InGroup(RestorePeer(t, p), g, u) <==> InGroup(t, g, u)
  {
    hide TrimSpace, NullStr;
    assert !HasUserId(t, t.next);
  }

  /** A restore, seen by one user name and one group name. */
  lemma RestoredView(t: Tables, f: File, o: RestoreOptions, n: string, g: string)
    requires WellFormed(t)
    ensures var r, c := Restore(t, f, o), Cleared(t, o);
            && WellFormed(r)
            && NoId(Find(r.users, n)) == UserAfter(f.peers, n, NoId(Find(c.users, n)))
            && (n in r.users <==> n in c.users || Names(f.peers, n))
            && Description(r, g) == DescriptionAfter(f.groups, g, Description(c, g))
            && PresetUnder(r, g) == PresetAfter(f.groups, g, PresetUnder(c, g))
            && (InGroup(r, g, n) <==> InGroup(c, g, n) || (Puts(f.groups, g, n) && n in r.users))
  {
    hide WellFormed, TrimSpace, Cleared, UserAfter, DescriptionAfter, PresetAfter, Puts, RestorePeers, RestoreGroups,
         Names;
    var c := Cleared(t, o);
    ClearedKeeps(t, o);
    var peopled := RestorePeers(c, f.peers);
    RestorePeersKeeps(c, f.peers);
    RestoreGroupsKeeps(peopled, f.groups);
    RestoredUser(c, f.peers, n);
    UserAfterIs(f.peers, n, NoId(Find(c.users, n)));
    PeersKeepGroups(c, f.peers, g, n);
    RestoredGroups(peopled, f.groups, g, n);
  }

  /* ---------- restoring twice ---------- */

  /** Same users (ids aside), groups, presets and memberships. */
  ghost predicate SameContent(a: Tables, b: Tables) {
    && (forall n :: NoId(Find(a.users, n)) == NoId(Find(b.users, n)))
    && (forall g :: Description(a, g) == Description(b, g) && PresetUnder(a, g) == PresetUnder(b, g))
    && (forall g, n :: InGroup(a, g, n) <==> InGroup(b, g, n))
  }

  /** Restoring twice loses a key in one case only: the peers are replaced, the backup names a
      user of another server and has no key for it, and that user had one. */
  predicate KeyLost(t: Tables, f: File, o: RestoreOptions, n: string) {
    && o.replacePeers && Names(f.peers, n)
    && n in t.users && !t.users[n].wireguard && t.users[n].privateKey.Some? && LastKey(f.peers, n).None?
  }

  lemma UserTwiceExactly(t: Tables, f: File, o: RestoreOptions, n: string)
    requires WellFormed(t)
    ensures var once := Restore(t, f, o);
            NoId(Find(Restore(once, f, o).users, n)) == NoId(Find(once.users, n)) <==> !KeyLost(t, f, o, n)
  {
    hide WellFormed, TrimSpace, Cleared, UserAfter, Restore, LastKey, LastEntry, Names, NullStr;
    var once := Restore(t, f, o);
    RestoredView(t, f, o, n, "");
    RestoredView(once, f, o, n, "");
    ClearedUser(t, o, n);
    ClearedUser(once, o, n);
    var cur := NoId(Find(Cleared(t, o).users, n));
    UserAfterIs(f.peers, n, cur);
    UserAfterIs(f.peers, n, NoId(Find(Cleared(once, o).users, n)));
    UserAfterTwice(f.peers, n, cur);
  }

  /** And a membership in one case only: the same takeover, groups kept, and the backup does not
      list the membership itself. */
  predicate MembershipLost(t: Tables, f: File, o: RestoreOptions, g: string, n: string) {
    && o.replacePeers && !o.replaceGroups && Names(f.peers, n)
    && InGroup(t, g, n) && !t.users[n].wireguard && !Puts(f.groups, g, n)
  }

  lemma MemberTwiceExactly(t: Tables, f: File, o: RestoreOptions, g: string, n: string)
    requires WellFormed(t)
    ensures var once := Restore(t, f, o);
            (InGroup(Restore(once, f, o), g, n) <==> InGroup(once, g, n)) <==> !MembershipLost(t, f, o, g, n)
  {
    hide WellFormed, TrimSpace, Cleared, UserAfter, Restore, LastKey, LastEntry, Names, Puts, NullStr, InGroup;
    var once := Restore(t, f, o);
    RestoredView(t, f, o, n, g);
    RestoredView(once, f, o, n, g);
    ClearedUser(t, o, n);
    ClearedUser(once, o, n);
    ClearedGroup(t, o, g, n);
    ClearedGroup(once, o, g, n);
    UserAfterIs(f.peers, n, NoId(Find(Cleared(t, o).users, n)));
    assert InGroup(t, g, n) ==> n in t.users by { MemberExists(t, g, n); }
    assert InGroup(once, g, n) ==> n in once.users by { MemberExists(once, g, n); }
  }

  lemma MemberExists(t: Tables, g: string, n: string)
    ensures InGroup(t, g, n) ==> n in t.users
  {
  }

  lemma GroupTwice(t: Tables, f: File, o: RestoreOptions, g: string)
    requires WellFormed(t)
    ensures var once := Restore(t, f, o);
            var twice := Restore(once, f, o);
            Description(twice, g) == Description(once, g) && PresetUnder(twice, g) == PresetUnder(once, g)
  {
    hide WellFormed, TrimSpace, Cleared, Restore, DescriptionAfter, PresetAfter, Description, PresetUnder, Names, Puts,
         UserAfter;
    var once := Restore(t, f, o);
    RestoredView(t, f, o, "", g);
    RestoredView(once, f, o, "", g);
    ClearedGroup(t, o, g, "");
    ClearedGroup(once, o, g, "");
    GroupsAfterTwice(f.groups, g, Description(Cleared(t, o), g), PresetUnder(Cleared(t, o), g));
  }

  /** Restoring a backup twice is restoring it once, exactly when no takeover of another server's
      user loses its key or a membership; so always when every user is on the one server. */
  lemma RestoreTwice(t: Tables, f: File, o: RestoreOptions)
    requires WellFormed(t)
    ensures SameContent(Restore(Restore(t, f, o), f, o), Restore(t, f, o)) <==>
            (forall n :: !KeyLost(t, f, o, n)) && (forall g, n :: !MembershipLost(t, f, o, g, n))
  {
    hide WellFormed, Restore, InGroup, Description, PresetUnder, NoId, Find, KeyLost, MembershipLost;
    var once := Restore(t, f, o);
    var twice := Restore(once, f, o);
    forall n ensures NoId(Find(twice.users, n)) == NoId(Find(once.users, n)) <==> !KeyLost(t, f, o, n) {
      UserTwiceExactly(t, f, o, n);
    }
    forall g ensures Description(twice, g) == Description(once, g) && PresetUnder(twice, g) == PresetUnder(once, g) {
      GroupTwice(t, f, o, g);
    }
    forall g, n ensures (InGroup(twice, g, n) <==> InGroup(once, g, n)) <==> !MembershipLost(t, f, o, g, n) {
      MemberTwiceExactly(t, f, o, g, n);
    }
  }

  /* ---------- what a restore leaves alone ---------- */

  predicate NamesGroup(gs: seq<BackupGroup>, g: string) {
    exists b :: b in gs && TrimSpace(b.name) == g && g != ""
  }

  lemma {:induction false} UnnamedGroup(gs: seq<BackupGroup>, g: string, d: Option<string>, p: Option<Preset>)
    requires !NamesGroup(gs, g)
    ensures DescriptionAfter(gs, g, d) == d && PresetAfter(gs, g, p) == p
  {
    hide TrimSpace;
    if gs != [] {
      var init, b := gs[..|gs| - 1], gs[|gs| - 1];
      assert b in gs && forall c :: c in init ==> c in gs;
      UnnamedGroup(init, g, d, p);
    }
  }

  const MERGE := RestoreOptions(false, false)

  /** Without the replace options: users and groups the backup does not name stay as they are,
      and no membership is lost. */
  lemma MergeFrames(t: Tables, f: File, n: string, g: string)
    requires WellFormed(t)
    ensures var r := Restore(t, f, MERGE);
            && (!Names(f.peers, n) ==> Find(r.users, n) == Find(t.users, n))
            && (!NamesGroup(f.groups, g) ==>
                  Description(r, g) == Description(t, g) && PresetUnder(r, g) == PresetUnder(t, g))
            && (InGroup(t, g, n) ==> InGroup(r, g, n))
            && (InGroup(r, g, n) ==> InGroup(t, g, n) || Puts(f.groups, g, n))
  {
    hide WellFormed, TrimSpace, UserAfter, Names, NamesGroup, DescriptionAfter, PresetAfter, Puts, RestorePeers,
         RestoreGroups, InGroup;
    RestoredView(t, f, MERGE, n, g);
    RestorePeersKeeps(t, f.peers);
    RestoreGroupsKeeps(RestorePeers(t, f.peers), f.groups);
    if !Names(f.peers, n) { UnnamedUser(t, f.peers, n); }
    if !NamesGroup(f.groups, g) { UnnamedGroup(f.groups, g, Description(t, g), PresetUnder(t, g)); }
  }

  /* ---------- the columns a restore writes ---------- */

  /** A blank text is stored as NULL, any other without the blanks around it. */
  predicate Holds(column: Option<string>, text: string) {
    column == if TrimSpace(text) == "" then None else Some(TrimSpace(text))
  }

  /** One peer of the backup: nothing without a key or addresses; otherwise the row under its name, or under
      its key when it has no name, has the backup's columns, and keeps its id and a private key the backup
      does not have. No other row changes. */
  lemma RestoredPeerColumns(t: Tables, p: BackupPeer)
    ensures var d := RestorePeer(t, p);
            var name := if TrimSpace(p.username) == "" then TrimSpace(p.publicKey) else TrimSpace(p.username);
            if TrimSpace(p.publicKey) == "" || TrimSpace(p.allowedIPs) == "" then d == t
            else
              && name in d.users && d == t.(users := t.users[name := d.users[name]], next := t.next + 1)
              && var u := d.users[name];
                 && u.id == (if name in t.users then t.users[name].id else t.next)
                 && u.wireguard && u.counters == p.counters
                 && Holds(u.publicKey, p.publicKey) && Holds(u.allowedIPs, p.allowedIPs)
                 && Holds(u.presharedKey, p.presharedKey) && Holds(u.endpoint, p.endpoint)
                 && Holds(u.lastHandshake, p.lastHandshake) && Holds(u.connectedAt, p.connectedAt)
                 && (if TrimSpace(p.privateKey) == "" && name in t.users then u.privateKey == t.users[name].privateKey
                     else Holds(u.privateKey, p.privateKey))
  {
    hide TrimSpace;
  }

  /** One group of the backup: nothing without a name; otherwise its description, its listed members that
      are users, and its preset, whose classifier is "dual" when the backup has none. */
  lemma RestoredGroupColumns(t: Tables, b: BackupGroup)
    requires WellFormed(t)
    ensures var d, name := RestoreGroup(t, b), TrimSpace(b.name);
            if name == "" then d == t
            else
              && name in d.groups && d.users == t.users
              && var id := d.groups[name].id;
                 && id == (if name in t.groups then t.groups[name].id else t.next)
                 && d.groups == t.groups[name := Group(id, Some(TrimSpace(b.description)))]
                 && d.members == t.members + (set u | u in t.users && Lists(b.members, u) :: (id, t.users[u].id))
                 && d.presets ==
                    (match b.preset
                     case None => t.presets
                     case Some(p) =>
                       t.presets[id := p.(classifier := if TrimSpace(p.classifier) == "" then "dual"
                                                        else TrimSpace(p.classifier))])
  {
    hide TrimSpace, Lists, AddMembers, WellFormed;
    var name := TrimSpace(b.name);
    if name != "" {
      var named := UpsertGroup(t, name, TrimSpace(b.description));
      UpsertGroupKeeps(t, name, TrimSpace(b.description));
      assert HasGroupId(named, named.groups[name].id);
      AddMembersKeeps(named, named.groups[name].id, b.members);
      AddedMembers(named, named.groups[name].id, b.members);
    }
  }

  /** What is deleted first: the users of this server with their memberships, and groups with all of theirs,
      each only when it is to be replaced. */
  lemma ClearedColumns(t: Tables, o: RestoreOptions)
    ensures var c := Cleared(t, o);
            && c.next == t.next
            && (forall n :: n in c.users <==> n in t.users && !(o.replacePeers && t.users[n].wireguard))
            && (forall n :: n in c.users ==> c.users[n] == t.users[n])
            && (if o.replaceGroups then c.groups == map[] && c.presets == map[] && c.members == {}
                else
                  && c.groups == t.groups && c.presets == t.presets
                  && forall m :: m in c.members <==>
                       m in t.members && !(o.replacePeers
                                           && exists n :: n in t.users && t.users[n].wireguard && t.users[n].id == m.1))
  {
    if o.replacePeers {
      forall m: (Id, Id) ensures m.1 in (set n | n in OnServer(t) :: t.users[n].id) <==>
                       exists n :: n in t.users && t.users[n].wireguard && t.users[n].id == m.1 {
        if n :| n in t.users && t.users[n].wireguard && t.users[n].id == m.1 { assert n in OnServer(t); }
      }
    }
  }
}
