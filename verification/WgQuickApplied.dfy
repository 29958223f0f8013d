/** That the file and the interface agree: the peers of the written configuration are the keys an apply
    leaves on the interface. */
module WgQuickApplied {
  import opened Text
  import opened Accounting
  import opened AccountingRuns
  import opened WgQuickParse
  import opened WgQuickWrite
  import opened WgQuickRoundTrip

  /** The same users, seen by the accountant and by the writer of the file. */
  ghost predicate SameUsers(accounts: seq<Account>, rows: seq<PeerRow>) {
    && |accounts| == |rows|
    && forall i :: 0 <= i < |rows| ==>
         && rows[i].wireguard && rows[i].isEnabled == accounts[i].isEnabled
         && rows[i].publicKey == accounts[i].publicKey && rows[i].allowedIPs == accounts[i].allowedIPs
  }

  lemma ReportsEnabled(a: Account, r: PeerRow, k: string, keepalive: int)
    requires r.wireguard && r.isEnabled == a.isEnabled && r.publicKey == a.publicKey && r.allowedIPs == a.allowedIPs
    ensures EnabledWith(a, k) <==> exists p: Peer :: p.publicKey == k && Reports(p, r, keepalive)
  {
    hide TrimSpace, Itoa;
    if EnabledWith(a, k) {
      var p := PeerOf(r, keepalive);
      ReportedOf(p, r, keepalive);
      assert p.publicKey == k;
    }
  }

  /** A key is on the interface after an apply exactly when the file names it as a peer. */
  lemma FileIsInterface(sys: System, s: Settings, rows: seq<PeerRow>, isIP: string -> bool, k: string)
    requires SameUsers(sys.accounts, rows) && DistinctNames(rows)
    ensures k in Next(sys, ApplyConfig).kernel <==>
            exists p :: p in Expected(s, rows, isIP).peers && p.publicKey == k
  {
    hide Next, Expected, EnabledWith, Reports, DistinctNames;
    AppliedInterface(sys, k);
    ExactlyTheEnabledUsers(s, rows, isIP);
    forall i | 0 <= i < |rows|
      ensures EnabledWith(sys.accounts[i], k) <==>
              exists p: Peer :: p.publicKey == k && Reports(p, rows[i], s.keepalive)
    {
      ReportsEnabled(sys.accounts[i], rows[i], k, s.keepalive);
    }
    if p :| p in Expected(s, rows, isIP).peers && p.publicKey == k {
      var r :| r in rows && Reports(p, r, s.keepalive);
      var i :| 0 <= i < |rows| && rows[i] == r;
      assert EnabledWith(sys.accounts[i], k);
    }
    if i :| 0 <= i < |sys.accounts| && EnabledWith(sys.accounts[i], k) {
      var p: Peer :| p.publicKey == k && Reports(p, rows[i], s.keepalive);
      assert rows[i] in rows;
    }
  }
}
