/** Restoring an export with both replace options gives back what was exported. */
module BackupRoundTrip {
  import opened Text
  import opened Backup
  import opened BackupLaws

  /** A name as the user interface stores it. */
  predicate NormalName(n: string) { n != "" && Trimmed(n) }

  /** A row whose texts are stored trimmed, with a key and addresses. */
  predicate NormalUser(u: User) {
    && u.publicKey.Some? && NormalName(u.publicKey.value)
    && u.allowedIPs.Some? && NormalName(u.allowedIPs.value)
    && Trimmed(TextOf(u.privateKey)) && Trimmed(TextOf(u.presharedKey)) && Trimmed(TextOf(u.endpoint))
    && Trimmed(TextOf(u.lastHandshake)) && Trimmed(TextOf(u.connectedAt))
  }

  /** All names are normal, and so are the rows of the users that are exported. */
  predicate NormalUsers(t: Tables) {
    forall n :: n in t.users ==> NormalName(n) && (t.users[n].wireguard ==> NormalUser(t.users[n]))
  }

  predicate NormalGroups(t: Tables) {
    && (forall g :: g in t.groups ==> NormalName(g) && Trimmed(TextOf(t.groups[g].description)))
    && (forall id :: id in t.presets ==> NormalName(t.presets[id].classifier))
  }

  /** The export succeeds exactly when every group has a member. */
  lemma ExportSucceeds(t: Tables)
    ensures Export(t).Some? <==> forall g :: g in t.groups ==> exists u :: InGroup(t, g, u)
  {
    forall g | g in t.groups ensures MembersOf(t, g) != {} <==> exists u :: InGroup(t, g, u) {
      if u :| InGroup(t, g, u) { assert u in MembersOf(t, g); }
      if MembersOf(t, g) != {} {
        var u :| u in MembersOf(t, g);
      }
    }
  }

  /* ---------- peers ---------- */

  lemma ColumnRoundTrip(c: Option<string>)
    requires Trimmed(TextOf(c))
    ensures TextOf(NullStr(TextOf(c))) == TextOf(c)
  {
    hide TrimSpace;
    TrimFixed(TextOf(c));
  }

  lemma ExportedEntry(n: string, u: User)
    requires NormalName(n) && NormalUser(u)
    ensures var p := ExportUser(n, u); !Skipped(p) && NameOf(p) == n
  {
    hide TrimSpace;
    TrimFixed(n);
    TrimFixed(u.publicKey.value);
    TrimFixed(u.allowedIPs.value);
  }

  /** Storing an exported user gives a row with the same exported columns. */
  lemma StoredAsExported(n: string, u: User, id: Id)
    requires NormalName(n) && NormalUser(u)
    ensures ExportUser(n, RowOf(ExportUser(n, u), id, NullStr(TextOf(u.privateKey)))) == ExportUser(n, u)
  {
    hide TrimSpace, NullStr;
    TrimFixed(u.publicKey.value);
    TrimFixed(u.allowedIPs.value);
    ColumnRoundTrip(u.privateKey);
    ColumnRoundTrip(u.presharedKey);
    ColumnRoundTrip(u.endpoint);
    ColumnRoundTrip(u.lastHandshake);
    ColumnRoundTrip(u.connectedAt);
  }

  lemma {:induction false} ExportedEntries(t: Tables, names: seq<string>, n: string)
    requires NormalUsers(t) && Ascending(names) && forall m :: m in names ==> m in t.users && t.users[m].wireguard
    ensures var ps := ExportNamed(t, names);
            && LastEntry(ps, n) == (if n in names then Some(ExportUser(n, t.users[n])) else None)
            && LastKey(ps, n) == (if n in names then NullStr(TextOf(t.users[n].privateKey)) else None)
  {
    hide TrimSpace, NullStr, ExportUser, Skipped, NameOf, NormalUser, NormalName, Less;
    if names != [] {
      var k := |names| - 1;
      var init, last := names[..k], names[k];
      ExportedEntries(t, init, n);
      assert ExportNamed(t, names)[..k] == ExportNamed(t, init);
      assert names == init + [last];
      ExportedEntry(last, t.users[last]);
      NotBefore(names);
      KeyColumn(last, t.users[last]);
      CoalesceNone(NullStr(TextOf(t.users[last].privateKey)));
    }
  }

  lemma NotBefore(names: seq<string>)
    requires Ascending(names) && names != []
    ensures names[|names| - 1] !in names[..|names| - 1]
  {
    LessIrreflexive(names[|names| - 1]);
  }

  lemma KeyColumn(n: string, u: User)
    ensures ExportUser(n, u).privateKey == TextOf(u.privateKey)
  {
  }

  lemma CoalesceNone(a: Option<string>)
    ensures Coalesce(a, None) == a
  {
  }

  const REPLACE := RestoreOptions(true, true)

  /** Restoring keeps a private key the backup does not have: that of a user of another server who has
      the name of an exported user without a key. */
  predicate KeyKept(src: Tables, dst: Tables, n: string) {
    && n in OnServer(src) && TextOf(src.users[n].privateKey) == ""
    && n in dst.users && !dst.users[n].wireguard && TextOf(dst.users[n].privateKey) != ""
  }

  /** An exported user is on the server again, with the exported columns exactly unless a key is kept. */
  lemma UserComesBack(src: Tables, dst: Tables, n: string)
    requires WellFormed(dst) && NormalUsers(src) && Export(src).Some?
    ensures var r := Restore(dst, Export(src).value, REPLACE);
            && (n in OnServer(r) <==> n in OnServer(src))
            && (n in r.users <==> n in OnServer(src) || (n in dst.users && !dst.users[n].wireguard))
            && (n in OnServer(src) ==>
                  (ExportUser(n, r.users[n]) == ExportUser(n, src.users[n]) <==> !KeyKept(src, dst, n)))
  {
    hide TrimSpace, NullStr, Restore, WellFormed, LastEntry, LastKey, UserAfter, Cleared, NormalUser, NormalName,
         ExportNamed;
    var f := Export(src).value;
    var names := Sorted(OnServer(src));
    var r := Restore(dst, f, REPLACE);
    RestoredView(dst, f, REPLACE, n, "");
    ClearedUser(dst, REPLACE, n);
    SortedAscending(OnServer(src));
    ExportedEntries(src, names, n);
    var cur := NoId(Find(Cleared(dst, REPLACE).users, n));
    UserAfterIs(f.peers, n, cur);
    if n in OnServer(src) {
      var u := src.users[n];
      KeyAfter(n, u, KeyOf(cur));
      SameColumns(n, r.users[n], RowOf(ExportUser(n, u), 0, Coalesce(NullStr(TextOf(u.privateKey)), KeyOf(cur))));
    }
  }

  /** The stored row is the exported one exactly when the key is: the backup's, or an empty one. */
  lemma KeyAfter(n: string, u: User, kept: Option<string>)
    requires NormalName(n) && NormalUser(u)
    ensures var row := RowOf(ExportUser(n, u), 0, Coalesce(NullStr(TextOf(u.privateKey)), kept));
            ExportUser(n, row) == ExportUser(n, u) <==> TextOf(u.privateKey) != "" || TextOf(kept) == ""
  {
    hide TrimSpace;
    StoredAsExported(n, u, 0);
    TrimFixed(TextOf(u.privateKey));
    var row := RowOf(ExportUser(n, u), 0, Coalesce(NullStr(TextOf(u.privateKey)), kept));
    assert ExportUser(n, row).privateKey == TextOf(row.privateKey);
    assert ExportUser(n, row) ==
           ExportUser(n, RowOf(ExportUser(n, u), 0,
                               NullStr(TextOf(u.privateKey)))).(privateKey := TextOf(row.privateKey));
  }

  lemma SameColumns(n: string, a: User, b: User)
    ensures a.(id := 0) == b ==> ExportUser(n, a) == ExportUser(n, b)
  {
  }

  /* ---------- groups ---------- */

  lemma {:induction false} NotBlankAll(names: seq<string>)
    requires forall n :: n in names ==> NormalName(n)
    ensures NotBlank(names) == names
  {
    hide TrimSpace;
    if names != [] {
      var k := |names| - 1;
      NotBlankAll(names[..k]);
      assert names[k] in names;
      TrimFixed(names[k]);
    }
  }

  lemma ExportedMembers(t: Tables, g: string, u: string)
    requires NormalUsers(t) && g in t.groups
    ensures Lists(ExportGroup(t, g).members, u) <==> InGroup(t, g, u)
  {
    hide TrimSpace, InGroup, NormalUser;
    var who := Sorted(MembersOf(t, g));
    forall n | n in who ensures NormalName(n) { assert n in MembersOf(t, g); }
    NotBlankAll(who);
    forall n | n in who ensures TrimSpace(n) == n { TrimFixed(n); }
    if InGroup(t, g, u) {
      MemberExists(t, g, u);
      assert u in who;
    }
  }

  lemma ExportedGroup(t: Tables, g: string)
    requires NormalGroups(t) && g in t.groups
    ensures var b := ExportGroup(t, g);
            && TrimSpace(b.name) == g && g != ""
            && TrimSpace(b.description) == TextOf(t.groups[g].description)
            && b.preset == PresetOf(t, g)
            && (b.preset.Some? ==> Stored(b.preset.value) == b.preset.value)
  {
    hide TrimSpace, MembersOf, NotBlank;
    TrimFixed(g);
    TrimFixed(TextOf(t.groups[g].description));
    if PresetOf(t, g).Some? { TrimFixed(PresetOf(t, g).value.classifier); }
  }

  lemma {:induction false} ExportedGroups(t: Tables, names: seq<string>, g: string, u: string)
    requires NormalUsers(t) && NormalGroups(t) && Ascending(names) && forall h :: h in names ==> h in t.groups
    ensures var gs := ExportGroups(t, names);
            && DescriptionAfter(gs, g, None) == (if g in names then Some(TextOf(t.groups[g].description)) else None)
            && PresetAfter(gs, g, None) == (if g in names then PresetOf(t, g) else None)
            && (Puts(gs, g, u) <==> g in names && InGroup(t, g, u))
  {
    hide TrimSpace, ExportGroup, InGroup, Lists, PresetOf, TextOf, Stored, Less, NormalUsers, NormalGroups, Puts;
    var gs := ExportGroups(t, names);
    if names == [] {
      assert gs == [] && !Puts([], g, u) by { NothingPut(g, u); }
    } else {
      var k := |names| - 1;
      var init, last := names[..k], names[k];
      var before, b := ExportGroups(t, init), ExportGroup(t, last);
      ExportedGroups(t, init, g, u);
      assert gs[..k] == before && gs == before + [b] && names == init + [last];
      NotBefore(names);
      PutsSnoc(before, b, g, u);
      ExportedGroup(t, last);
      ExportedMembers(t, last, u);
    }
  }

  lemma NothingPut(g: string, u: string)
    ensures !Puts([], g, u)
  {
  }

  lemma GroupComesBack(src: Tables, dst: Tables, g: string, u: string)
    requires WellFormed(dst) && NormalUsers(src) && NormalGroups(src) && Export(src).Some?
    ensures var r := Restore(dst, Export(src).value, REPLACE);
            && Description(r, g) == Description(src, g) && PresetUnder(r, g) == PresetUnder(src, g)
            && (InGroup(r, g, u) <==> InGroup(src, g, u) && u in r.users)
  {
    hide TrimSpace, Restore, WellFormed, UserAfter, Cleared, DescriptionAfter, PresetAfter, Puts, InGroup, Names,
         NormalUsers, NormalGroups, ExportGroups, ExportPeers, OnServer, ExportUser;
    var f := Export(src).value;
    RestoredView(dst, f, REPLACE, u, g);
    ClearedGroup(dst, REPLACE, g, u);
    SortedAscending(src.groups.Keys);
    ExportedGroups(src, Sorted(src.groups.Keys), g, u);
    NoGroup(src, g, u);
  }

  lemma NoGroup(t: Tables, g: string, u: string)
    ensures InGroup(t, g, u) ==> g in t.groups
  {
  }

  /** Restore undoes export. For a database whose rows are stored trimmed, whose exported users have a
      key and addresses and whose groups have members, restoring its export with both replace options
      into any sound database gives the same users on the server, the same groups, descriptions and
      presets, and the same memberships as far as their users are there (those on the server always
      are). Every exported column is the same, for each user exactly unless the target has a user of
      that name on another server whose private key is kept for want of an exported one. */
  lemma RestoreUndoesExport(src: Tables, dst: Tables)
    requires NormalUsers(src) && NormalGroups(src) && WellFormed(dst)
    requires forall g :: g in src.groups ==> exists u :: InGroup(src, g, u)
    ensures Export(src).Some?
    ensures var r := Restore(dst, Export(src).value, REPLACE);
            && OnServer(r) == OnServer(src)
            && (forall n :: n in OnServer(src) ==>
                  (ExportUser(n, r.users[n]) == ExportUser(n, src.users[n]) <==> !KeyKept(src, dst, n)))
            && (forall g :: Description(r, g) == Description(src, g) && PresetUnder(r, g) == PresetUnder(src, g))
            && (forall g, u :: InGroup(r, g, u) <==> InGroup(src, g, u) && u in r.users)
            && (forall u :: u in r.users <==> u in OnServer(src) || (u in dst.users && !dst.users[u].wireguard))
  {
    hide Export, Restore, WellFormed, InGroup, Description, PresetUnder, NormalUsers, NormalGroups, ExportUser,
         KeyKept;
    ExportSucceeds(src);
    var r := Restore(dst, Export(src).value, REPLACE);
    forall n ensures (n in OnServer(r) <==> n in OnServer(src))
                     && (n in r.users <==> n in OnServer(src) || (n in dst.users && !dst.users[n].wireguard))
                     && (n in OnServer(src) ==>
                           (ExportUser(n, r.users[n]) == ExportUser(n, src.users[n]) <==> !KeyKept(src, dst, n))) {
      UserComesBack(src, dst, n);
    }
    forall g ensures Description(r, g) == Description(src, g) && PresetUnder(r, g) == PresetUnder(src, g) {
      GroupComesBack(src, dst, g, "");
    }
    forall g, u ensures InGroup(r, g, u) <==> InGroup(src, g, u) && u in r.users {
      GroupComesBack(src, dst, g, u);
    }
  }

  const IDLE := Counters(true, None, None, 0, 0, 0, 0, false)

  /** A user "ann" on this server without a private key, and one on another server with the key "k". */
  function Ann(wireguard: bool, key: Option<string>): User {
    User(0, wireguard, Some("10.0.0.2/32"), key, Some("p"), None, None, None, None, IDLE)
  }

  function OnlyAnn(u: User): Tables { Tables(map["ann" := u], map[], {}, map[], 1) }

  /** The case: the restored user of this server has the other one's private key. */
  lemma OtherKeyIsKept()
    ensures var src, dst := OnlyAnn(Ann(true, None)), OnlyAnn(Ann(false, Some("k")));
            && NormalUsers(src) && NormalGroups(src) && WellFormed(dst) && Export(src).Some?
            && var r := Restore(dst, Export(src).value, REPLACE);
               "ann" in OnServer(r) && ExportUser("ann", r.users["ann"]) != ExportUser("ann", src.users["ann"])
  {
    hide Restore, Export, ExportUser;
    RestoreUndoesExport(OnlyAnn(Ann(true, None)), OnlyAnn(Ann(false, Some("k"))));
  }

  /** A user of another server who is in a group of this database. */
  const TAKEN := Tables(map["ann" := Ann(false, Some("k"))], map["g" := Group(1, None)], {(1, 0)}, map[], 2)

  /** The same user on this server, without a private key. */
  const ANN_FILE := File([ExportUser("ann", Ann(true, None))], [])

  const REPLACE_USERS := RestoreOptions(true, false)

  /** The case of a second restore that changes something: the first one takes the user over with key and
      membership, the second deletes the user and has neither. */
  lemma SecondRestoreLoses()
    ensures WellFormed(TAKEN)
    ensures var once := Restore(TAKEN, ANN_FILE, REPLACE_USERS);
            var twice := Restore(once, ANN_FILE, REPLACE_USERS);
            && "ann" in once.users && once.users["ann"].privateKey == Some("k") && InGroup(once, "g", "ann")
            && "ann" in twice.users && twice.users["ann"].privateKey == None && !InGroup(twice, "g", "ann")
  {
    hide Restore, WellFormed;
    TakenWellFormed();
    AnnRestored(TAKEN);
    AnnRestored(Restore(TAKEN, ANN_FILE, REPLACE_USERS));
  }

  lemma TakenWellFormed()
    ensures WellFormed(TAKEN)
  {
    assert "ann" in TAKEN.users && TAKEN.users["ann"].id == 0;
    assert "g" in TAKEN.groups && TAKEN.groups["g"].id == 1;
  }

  /** Restoring the file: a row of the name on another server gives its id and key, any other row goes
      first, and its memberships with it. */
  lemma AnnRestored(t: Tables)
    ensures var d := Restore(t, ANN_FILE, REPLACE_USERS);
            var kept := "ann" in t.users && !t.users["ann"].wireguard;
            && "ann" in d.users && d.users["ann"].wireguard
            && d.users["ann"].privateKey == (if kept then t.users["ann"].privateKey else None)
            && d.users["ann"].id == (if kept then t.users["ann"].id else t.next)
            && d.groups == t.groups && d.members == DeletePeers(t).members && d.next == t.next + 1
  {
    hide TrimSpace;
    TrimFixed("ann");
    TrimFixed("p");
    TrimFixed("10.0.0.2/32");
    TrimFixed("");
    assert ANN_FILE.peers[..0] == [];
    assert RestorePeers(DeletePeers(t), ANN_FILE.peers) == RestorePeer(DeletePeers(t), ANN_FILE.peers[0]);
  }

  /* ---------- what an export holds ---------- */

  /** A NULL column is an empty text. */
  predicate Tells(text: string, column: Option<string>) {
    text == match column case Some(v) => v case None => ""
  }

  /** The peer of the backup has the columns of the user. */
  predicate Exports(p: BackupPeer, n: string, u: User) {
    && p.username == n && p.counters == u.counters
    && Tells(p.allowedIPs, u.allowedIPs) && Tells(p.privateKey, u.privateKey) && Tells(p.publicKey, u.publicKey)
    && Tells(p.presharedKey, u.presharedKey) && Tells(p.endpoint, u.endpoint)
    && Tells(p.lastHandshake, u.lastHandshake) && Tells(p.connectedAt, u.connectedAt)
  }

  lemma ExportsExactly(p: BackupPeer, n: string, u: User)
    ensures Exports(p, n, u) <==> p == ExportUser(n, u)
  {
  }

  predicate AscendingPeers(peers: seq<BackupPeer>) {
    forall i, j :: 0 <= i < j < |peers| ==> Less(peers[i].username, peers[j].username)
  }

  /** An export has one peer for each user of this server, with its columns, in the order of the names. */
  lemma ExportedPeers(t: Tables)
    requires Export(t).Some?
    ensures AscendingPeers(Export(t).value.peers)
    ensures forall p :: p in Export(t).value.peers <==>
              exists n :: n in t.users && t.users[n].wireguard && Exports(p, n, t.users[n])
  {
    hide Less, Exports, MembersOf, ExportGroups, ExportNamed, AscendingPeers, Sorted;
    var names := Sorted(OnServer(t));
    SortedAscending(OnServer(t));
    assert forall n :: n in names ==> n in OnServer(t);
    NamedPeers(t, names);
    forall p ensures p in ExportNamed(t, names) <==>
                     exists n :: n in t.users && t.users[n].wireguard && Exports(p, n, t.users[n]) {
      if n :| n in t.users && t.users[n].wireguard && Exports(p, n, t.users[n]) { assert n in OnServer(t); }
    }
  }

  lemma NamedPeers(t: Tables, names: seq<string>)
    requires Ascending(names) && forall n :: n in names ==> n in t.users
    ensures AscendingPeers(ExportNamed(t, names))
    ensures forall p :: p in ExportNamed(t, names) <==> exists n :: n in names && Exports(p, n, t.users[n])
  {
    hide Less, ExportUser, Exports;
    var peers := ExportNamed(t, names);
    forall i | 0 <= i < |names|
      ensures names[i] in t.users && peers[i].username == names[i] && Exports(peers[i], names[i], t.users[names[i]])
    {
      assert names[i] in names;
      ExportsExactly(peers[i], names[i], t.users[names[i]]);
      ExportedName(names[i], t.users[names[i]]);
    }
    forall p ensures p in peers <==> exists n :: n in names && Exports(p, n, t.users[n]) {
      if p in peers {
        var i :| 0 <= i < |peers| && peers[i] == p;
        assert names[i] in names;
      }
      if n :| n in names && Exports(p, n, t.users[n]) {
        ExportsExactly(p, n, t.users[n]);
        var i :| 0 <= i < |names| && names[i] == n;
        assert peers[i] == p;
      }
    }
  }

  lemma ExportedName(n: string, u: User)
    ensures ExportUser(n, u).username == n
  {
  }

  /** The group of the backup has the description and the preset of the group, and the names of its members
      that are not blank, in order. */
  predicate ExportsGroup(b: BackupGroup, g: string, t: Tables) {
    && g in t.groups && b.name == g && Tells(b.description, t.groups[g].description)
    && b.preset == (if t.groups[g].id in t.presets then Some(t.presets[t.groups[g].id]) else None)
    && Ascending(b.members)
    && forall u :: u in b.members ==> InGroup(t, g, u) && TrimSpace(u) != ""
  }

  /** An export has one group for each group, in the order of the names, with exactly its members. */
  lemma ExportedGroupColumns(t: Tables, i: nat)
    requires Export(t).Some? && i < |Export(t).value.groups|
    ensures var groups := Export(t).value.groups;
            && |groups| == |Sorted(t.groups.Keys)| && ExportsGroup(groups[i], Sorted(t.groups.Keys)[i], t)
            && forall u :: InGroup(t, groups[i].name, u) && TrimSpace(u) != "" ==> u in groups[i].members
  {
    hide Less, TrimSpace, InGroup, NotBlank, ExportPeers, Sorted;
    var g := Sorted(t.groups.Keys)[i];
    SortedAscending(t.groups.Keys);
    assert g in Sorted(t.groups.Keys);
    SortedAscending(MembersOf(t, g));
    NotBlankExactly(Sorted(MembersOf(t, g)));
    forall u ensures InGroup(t, g, u) ==> u in MembersOf(t, g) { MemberExists(t, g, u); }
  }

  lemma {:induction false} NotBlankExactly(names: seq<string>)
    ensures forall n :: n in NotBlank(names) <==> n in names && TrimSpace(n) != ""
    ensures Ascending(names) ==> Ascending(NotBlank(names))
  {
    hide TrimSpace, Less;
    if names != [] {
      var k := |names| - 1;
      NotBlankExactly(names[..k]);
      assert names == names[..k] + [names[k]];
      var before := NotBlank(names[..k]);
      if Ascending(names) {
        forall i | 0 <= i < |before| ensures Less(before[i], names[k]) {
          assert before[i] in before;
          var j :| 0 <= j < k && names[j] == before[i];
        }
      }
    }
  }

  /** The columns in which a restored user and the exported one agree are all of them. */
  lemma SameExport(n: string, a: User, b: User)
    ensures ExportUser(n, a) == ExportUser(n, b) <==>
            && TextOf(a.allowedIPs) == TextOf(b.allowedIPs) && TextOf(a.privateKey) == TextOf(b.privateKey)
            && TextOf(a.publicKey) == TextOf(b.publicKey) && TextOf(a.presharedKey) == TextOf(b.presharedKey)
            && TextOf(a.endpoint) == TextOf(b.endpoint) && TextOf(a.lastHandshake) == TextOf(b.lastHandshake)
            && TextOf(a.connectedAt) == TextOf(b.connectedAt) && a.counters == b.counters
  {
  }
}
