# NetPlug in Dafny

NetPlug manages a WireGuard server: it polls traffic and charges quotas, shapes traffic with `tc`,
writes and reads the wg-quick configuration, exports and restores backups, gives out client
addresses, runs a CoreDNS process, and writes the blocklist and zone files that process serves.
This project models those algorithms and proves what they guarantee. `dafny verify dfyconfig.toml`
checks everything.

Code that works by changing things step by step is modelled by methods, loops and classes. Each
method is proved equal to a specification function, and the theorems are about those functions and
about runs of them. Lemmas named after what they say of columns, texts and numbers (`PolledConnection`,
`RestoredPeerColumns`, `SplitExactly` and others) state the same functions without using their parts.

| files | what they model |
|---|---|
| `Text`, `Lines`, `IPv4` | Go's string, number and sorting functions, lines and buffers, dotted addresses |
| `WgDump` | the output of `wg show dump` |
| `Accounting`, `AccountingRuns` | one poll of the accountant; runs of traffic, counter restarts, polls, toggles and applies |
| `PcqLoad`, `PcqJoin`, `PcqPlan`, `Tc`, `PcqMeaning`, `PcqEffect` | folding group presets into caps, the join they come from, compiling caps to `tc` commands, a `tc` interpreter, and what packets meet afterwards |
| `Quoting`, `PcqPreview` | printing commands as shell lines, a shell reader, and the printed plan |
| `WgQuickParse`, `WgQuickWrite`, `WgQuickRoundTrip`, `WgQuickApplied` | the wg-quick parser and writer, their round trip, and that the file agrees with the interface |
| `Backup`, `BackupLaws`, `BackupRoundTrip` | export and restore over tables with upserts and cascades |
| `Allocator` | the choice of the next client address |
| `DnsManager` | Start, Stop, process exits and watcher goroutines as interleaved steps |
| `Bandwidth` | totals, daily bars and chart buckets from rate snapshots |
| `DnsNames`, `Blocklist` | domain rules, the hosts file and the blocklist reader |
| `DnsZones`, `DnsStrings`, `DnsTxt`, `DnsZoneMeaning`, `DnsValidate`, `DnsFiles` | custom records: grouping and zone files, quoted strings and TXT data, a zone-file reader, validation, and when a whole file says what is stored |

## What the code does where one might expect more

Each of these is a lemma with the exact condition.

- Days bought by a renewal are charged for the time since the old stamp (`RenewalChargesStaleDays`).
- A user switched off without applying the configuration is switched on again by the next poll
  that sees the user, exactly when each quota that is set exceeds what that poll charges
  (`ToggleWithoutApply`).
- A poll that finds a quota used up switches the account off in the database only: its key stays on
  the interface until the configuration is applied for another reason (`CutOffAtNextApply`).
- Download classes stop after 65181 peers, and an apply fails when more than 65526 sources need a
  policer (`CappedDownload`, `UncappedDownload`, `PlanRuns`).
- An unquoted backslash, tab, parenthesis or pattern character, or a leading `#` or `~`, does not
  survive printing as a shell line (`QuotingExact`, `BackslashDropped`). No command of a plan has one
  (`PlanLinesReadBack`).
- A backup with an empty group cannot be exported (`ExportSucceeds`).
- Restoring twice differs from restoring once when the backup takes over a user of another server
  whose private key or memberships it does not carry (`RestoreTwice`, `SecondRestoreLoses`). In the
  same way restoring an export gives a user exported without a private key that of a user of another
  server with the same name (`RestoreUndoesExport`, `OtherKeyIsKept`).
- Normalizing a domain is not idempotent for names like `a.b..` (`NormalizeTwiceExactly`). Such a
  name can be blocked in spite of a rule that allows what it is written as: allowing more domains is
  always respected exactly when every blocked domain is a stored name or not written at all
  (`AllowedNeverWritten`, `AllowedNameWritten`).
- A blocklist line of 64 KiB ends the reading of its list without an error: the domains from that
  line on are missing, exactly when there are any (`AllHostsRead`).
- The validator leaves three openings: a PTR target with a dot may hold any character; a text may
  hold quotes, backslashes and line feeds anywhere; and a target such as `mail.`, absolute by section
  5.1 of RFC 1035, is written as a name in the zone. The files of accepted records say what is stored
  exactly when no record uses one of them (`FilesFaithfulExactly`, `FileFaithfulExactly`). A record
  that does may make its zone's whole file unreadable (`UnreadableSpoilsFile`, `PtrBlankLost`,
  `LoneQuoteSpoils`), add a record nobody stored (`LineFeedAddsRecord`), or be read as another name
  (`AbsoluteLabelMoved`).
- A text the program quotes is read back exactly when each of its backslashes stands right before a
  quote; a text that begins and ends with a quote is written as it is, so it must be a sequence of
  quoted strings (`TxtExactly`, `QuotedExactly`, `BetweenQuotesExactly`; `LoneQuoteLost`,
  `LoneBackslashLost`, `CommentLost`).

## Model

| member | source | states |
|---|---|---|
| Accounting.DayStep | internal/wireguard/syncer.go:211-236 | the values given to COALESCE amount to the day charge: full days since a readable stamp are taken off, never below zero, and the stamp moves only when days are charged or it was unreadable |
| Accounting.QuotaStep | internal/wireguard/syncer.go:238-274 | the remaining traffic is the old one less the growth of the recorded usage, not below zero; the account is off exactly when a set quota is used up, otherwise on |
| Accounting.UpdateRow | internal/wireguard/syncer.go:153-302 | the row written for a listed account: connection by handshake age, since when, endpoint and handshake, totals rolled on a counter reset, rates, charges, enablement |
| Accounting.PollRows | internal/wireguard/syncer.go:142-325 | every stored row becomes its polled row, rows without a key or not listed included, and the running rate sums are those of the connected, enabled accounts |
| Accounting.Syncer.SyncOnce | internal/wireguard/syncer.go:97-341 | one pass over the printed dump replaces all accounts by their polled rows, adds one snapshot of the summed rates and drops those older than 35 days; output that does not parse changes nothing |
| Accounting.KeptAreRecent | internal/wireguard/syncer.go:335-338 | exactly the snapshots of the last 35 days stay |
| Accounting.BuildTable | internal/wireguard/syncer.go:109-112 | the table of the dump holds the last line of each key |
| Accounting.LastLineWins | internal/wireguard/syncer.go:109-112 | a line of the dump counts when no later one has its key |
| Accounting.PolledConnection | internal/wireguard/syncer.go:147-190 | a listed account is connected exactly when its handshake is under 120 seconds old, since now when it was not before, with endpoint and handshake of the line; one that is no longer listed is off and loses both |
| Accounting.PolledCounters | internal/wireguard/syncer.go:194-200 | counters become those of the line, and totals take in the stored bytes exactly when a counter went down |
| Accounting.PolledRates | internal/wireguard/syncer.go:202-209 | rates are the growth over the interval rounded down, or both zero when a counter went down |
| Accounting.PolledTraffic | internal/wireguard/syncer.go:243-253 | a traffic quota loses exactly the bytes the line adds, and not more than it has |
| Accounting.PolledDays | internal/wireguard/syncer.go:211-236 | a day quota loses exactly the full days since its stamp, which then moves to now; an absent or unreadable stamp is set first |
| Accounting.SumsAreStored | internal/wireguard/syncer.go:276-280 | the snapshot sums the rates stored for the accounts that are online and enabled after the poll, sent bytes as download |
| Accounting.KeptInOrder | internal/wireguard/syncer.go:335-338 | dropping old snapshots keeps the order and number of the others |
| Accounting.EnabledIffNotExhausted | internal/wireguard/syncer.go:255-274 | a poll that sees an account leaves it enabled exactly when no set quota is exhausted, whatever it was before; an unseen account keeps its state |
| Accounting.ExhaustedExactly | internal/wireguard/syncer.go:211-258 | a poll leaves a quota used up exactly when the row's traffic is no more than the bytes the line adds, or its days no more than the full days since the stamp |
| Accounting.RatesWithinTraffic | internal/wireguard/syncer.go:202-209 | the summed rates times the interval never exceed the bytes the kernel counted since the last poll |
| Accounting.RenewalChargesStaleDays | internal/app/handlers.go:1351-1363 | after a renewal the next poll charges every full day since the old stamp; the renewal stays whole exactly when the stamp is under a day old |
| AccountingRuns.NeverOvercharged | internal/wireguard/syncer.go:194-200 | after any run of traffic, counter restarts, polls, toggles and applies, totals plus current bytes grew by no more than was truly sent, in each direction |
| AccountingRuns.ExactWithoutReset | internal/wireguard/syncer.go:194-200 | when the key's counters never restarted, a final poll has recorded exactly what was sent |
| AccountingRuns.QuotaTelescopes | internal/wireguard/syncer.go:243-253 | over any run the remaining traffic is max(0, quota less the usage gained), and usage never decreases |
| AccountingRuns.ExhaustionAbsorbs | internal/wireguard/syncer.go:243-274 | zero remaining traffic stays zero over any run, and every later poll that sees the account leaves it off |
| AccountingRuns.QuotaNeverOvercharged | internal/wireguard/syncer.go:194-253 | over any run no more quota is used up than bytes were truly sent and received |
| AccountingRuns.ChargeRunBounds | internal/wireguard/syncer.go:211-236 | the induction behind the day bound: charged days and the drift of the stamp stay within 86400 and 86400 plus the poll gap per charged day |
| AccountingRuns.DaysProject | internal/wireguard/syncer.go:211-236 | in a run of the whole system only the polls that see the account change its days and stamp |
| AccountingRuns.DayChargeBounds | internal/wireguard/syncer.go:211-236 | from the first stamp on, without a renewal and with polls at most d seconds apart, C charged days satisfy 86400*C <= elapsed, and elapsed < C*(86400+d)+86400 while days remain |
| AccountingRuns.SwitchedOffStaysOff | internal/app/handlers.go:1584-1607 | with distinct keys, a user switched off and applied stays off, and off the interface, through any traffic, restarts, polls, applies and toggles of others |
| AccountingRuns.SwitchedOnAppears | internal/app/handlers.go:1584-1607 | a user switched on and applied is enabled and on the interface, and no other user changes |
| AccountingRuns.AppliedInterface | internal/wireguard/config.go:109-137 | an apply leaves exactly the keys of enabled users with addresses, old ones with their counters and new ones at zero |
| AccountingRuns.ToggleWithoutApply | internal/wireguard/syncer.go:260-274 | a toggle that was not applied is undone by the next poll that sees the account, exactly when the stored quotas exceed the bytes and days that poll charges |
| AccountingRuns.CutOffAtNextApply | internal/wireguard/syncer.go:238-302 | after a poll that charges as much as is left of a quota, through any run without a toggle of the account, it stays off, and its key is on the interface exactly until the next apply |
| AccountingRuns.PrintedDumpIsPolled | internal/wireguard/syncer.go:97-112 | the text `wg` prints for the peers of the kernel, in any order, is polled as the poll step of a run |
| WgDump.ParseDump | internal/wireguard/syncer.go:375-404 | the peers of the non-blank lines after the first, an empty dump and a line with fewer than eight fields being errors |
| WgDump.DumpFailsExactly | internal/wireguard/syncer.go:375-390 | parsing fails exactly on blank output and on a line after the first, not blank, with fewer than eight fields |
| WgDump.ParsedNumber | internal/wireguard/syncer.go:413-416 | numbers out of range become the nearest 64-bit end |
| WgDump.NoNumber | internal/wireguard/syncer.go:413-416 | what is no number becomes 0 |
| WgDump.DumpReadsBack | internal/wireguard/syncer.go:375-416 | parsing what `wg` prints for a list of peers, each with its preshared key, gives exactly those peers in order, with "(none)" as no endpoint and "off" as no keepalive |
| PcqLoad.LoadPeerLimits | internal/pcq/load.go:45-94 | the row loop computes the fold of the rows |
| PcqLoad.LoadPeerLimitsForGroup | internal/pcq/load.go:98-151 | the same over one group's rows, and nothing for a blank group |
| PcqLoad.ClassifyRowCaps | internal/pcq/load.go:17-33 | the caps of a row are its positive stored limits of the directions its classifier names, and there are no others |
| PcqLoad.FoldIsLeast | internal/pcq/load.go:24-94 | per address and knob the fold is the least positive value over the contributing rows, 0 when there is none, and an address has an entry exactly when a row contributes to it |
| PcqLoad.EntryExactly | internal/pcq/load.go:71-82 | an address has an entry exactly when a row with it sets a positive limit its classifier uses; a burst alone does not count |
| PcqLoad.GroupIdTrimmed | internal/pcq/load.go:98-116 | blanks around a group id do not matter, and only its rows count |
| PcqLoad.OrderIndependent | internal/pcq/load.go:64-89 | the fold depends only on which rows there are, not on order or repetition |
| PcqLoad.LiveMergesGroups | internal/pcq/load.go:45-151 | the live caps are the per-group results merged, for any list of the groups |
| PcqLoad.PreviewNotBelowLive | internal/pcq/load.go:96-151 | a cap in a group's preview is never below the live cap |
| PcqJoin.LeastOfJoin | internal/pcq/load.go:45-62 | in whatever order the join is returned, the least cap or burst over its rows is the least that a membership of an enabled WireGuard user in a group with a preset that is not switched off sets |
| PcqJoin.TrimmedBlanks | internal/pcq/load.go:53 | the classifier is taken without the blanks around it |
| PcqPlan.AppendDownloads | internal/pcq/plan.go:81-113 | a class and a filter per download-capped peer in key order, with minors from 100 and prios from 50, stopping after minor 0xff00 |
| PcqPlan.AppendUploads | internal/pcq/plan.go:117-137 | a policer per upload-capped peer in key order with prios from 10 |
| PcqPlan.Plan | internal/pcq/plan.go:142-159 | the argument vectors of teardown and shaping; teardown alone when there is no interface or no peer |
| PcqPlan.PlanForPeers | internal/pcq/plan.go:162-164 | the shaping commands of a plan without the teardown |
| PcqPlan.RateAccuracy | internal/pcq/plan.go:12-19 | the rate is within half a bit of kbps*10^6/1024, exact for whole Mbps, and 8000 bits exactly for caps of at most 8 kb/s |
| PcqPlan.BurstAccuracy | internal/pcq/plan.go:21-41 | a burst is within half a byte of a twentieth of a second at the smaller of the configured value and the rate, or 1600 bytes when that is more; at the one that is given when the other is not, and 12500 when neither is |
| PcqPlan.RateMonotone | internal/pcq/plan.go:12-19 | a smaller cap never gets the larger rate |
| PcqMeaning.ReadClassName | internal/pcq/plan.go:88 | a printed class name reads back as its minor, so different minors have different names |
| PcqMeaning.ReadStep | internal/pcq/plan.go:71-135 | every emitted argument vector is accepted by the `tc` grammar and read as the command intended, with the intended ids, rates, prios and addresses |
| PcqEffect.RunIsSteps | internal/pcq/plan.go:44-159 | running the texts in the interpreter is executing the commands they stand for |
| PcqEffect.PlanRuns | internal/pcq/plan.go:142-159 | from any prior tables a plan ends in the same tables, so running it twice changes nothing; it fails exactly when more sources are upload-capped than there are prios |
| PcqEffect.CappedDownload | internal/pcq/plan.go:81-113 | a packet to one of the first 65181 download-capped peers is in a class of that peer's own, with rate and ceiling its cap in numbers, and the burst of the smaller of the configured one and the cap |
| PcqEffect.UncappedDownload | internal/pcq/plan.go:71-113 | any other packet is in default class 1:30 at 100 Gbit/s, or unshaped when nobody has a download cap |
| PcqEffect.UploadVerdict | internal/pcq/plan.go:115-137 | a packet meets a policer exactly when its source has an upload cap, at that cap's rate, and with the burst of the smaller of the configured one, if any, and the cap |
| PcqEffect.FilterNumbers | internal/pcq/plan.go:81-137 | filters are numbered in address order, downloads from 50 and uploads from 10, for the first 65181 and for all |
| PcqEffect.CapsReachPackets | internal/pcq/load.go:45-94 | from stored users, memberships and presets to packets: after an apply with at most 65181 capped peers each packet is held to the least cap and burst any enabled preset of a group of an enabled user with the address sets in its direction, and to none when none does |
| Quoting.QuotedJoin | internal/pcq/plan.go:222-237 | the builder loop prints the arguments joined by blanks, quoted where needed |
| Quoting.FormatPlan | internal/pcq/plan.go:213-220 | one printed line per command |
| Quoting.ReadEscaped | internal/pcq/plan.go:230-232 | inside single quotes the escaped text is read as the argument, quotes included |
| Quoting.QuotingReadsBack | internal/pcq/plan.go:222-237 | a shell reader gives back the arguments of a printed line when each is quoted or free of characters it treats specially |
| Quoting.QuotingExact | internal/pcq/plan.go:222-237 | and only then: a list comes back exactly when all its arguments are of that kind |
| Quoting.QuotedWhen | internal/pcq/plan.go:228-234 | an argument is quoted exactly when it is empty or holds a blank, a quote or one of the listed characters |
| Quoting.SafeExactly | internal/pcq/plan.go:222-237 | the arguments that come back, told by their characters |
| Quoting.BackslashDropped | internal/pcq/plan.go:222-237 | the case: an argument `a\b` is shown as it is and read as `ab` |
| PcqPreview.PreviewMeansPlan | internal/pcq/plan.go:213-237 | a printed command, read by a shell and handed to `tc`, is the command it stands for |
| PcqPreview.PlanLinesReadBack | internal/pcq/plan.go:142-237 | a shell reads a shown plan, line by line, as its argument vectors, so running what is shown has the one outcome of applying |
| WgQuickParse.ParseWGQuickConfig | internal/wireguard/wgquick_parse.go:41-132 | the line loop computes the fold of the lines; a line of 1 MiB and a blank private key are errors |
| WgQuickParse.ParseFailsExactly | internal/wireguard/wgquick_parse.go:45-131 | parsing fails exactly on a line of a MiB or more, and otherwise exactly without a private key |
| WgQuickParse.CommentLine | internal/wireguard/wgquick_parse.go:63-70 | a line that begins with a sharp or a semicolon sets nothing but, at most, the next peer's name |
| WgQuickParse.HeaderLine | internal/wireguard/wgquick_parse.go:72-94 | a header closes the open peer, and one named `peer` opens another under the pending name |
| WgQuickParse.InterfaceColumns | internal/wireguard/wgquick_parse.go:165-224 | what a key does in the interface section, column by column: numbers only in range, hooks line by line, other keys kept |
| WgQuickParse.PeerColumns | internal/wireguard/wgquick_parse.go:197-213 | what a key does in a peer section |
| WgQuickParse.KeyAndValue | internal/wireguard/wgquick_parse.go:152-163 | a line is cut at its first equals sign, the key lowered, and both parts trimmed |
| WgQuickParse.OtherSections | internal/wireguard/wgquick_parse.go:96-119 | keys of other sections change nothing |
| WgQuickParse.UserComment | internal/wireguard/wgquick_parse.go:134-149 | a comment with `user:` in any letter case names the user |
| WgQuickParse.UserNamedBy | internal/wireguard/wgquick_parse.go:134-149 | and no other comment does |
| WgQuickParse.PeerWhileInSection | internal/wireguard/wgquick_parse.go:50-122 | on any text a current peer exists exactly while the section is `peer` |
| WgQuickParse.OnePeerPerHeader | internal/wireguard/wgquick_parse.go:72-92 | on any text that parses, there is one peer per peer header, named by the nearest user comment since the header before, so a comment names at most one peer |
| WgQuickParse.PeersCountHeaders | internal/wireguard/wgquick_parse.go:81-129 | the number of peers is the number of peer headers |
| WgQuickWrite.WriteHook | internal/wireguard/config.go:163-177 | one line per trimmed non-empty line of the hook is appended to the buffer |
| WgQuickWrite.WriteWireGuardConfig | internal/wireguard/config.go:39-149 | the text of the file, or nothing when WireGuard is not enabled |
| WgQuickWrite.PeerSection | internal/wireguard/config.go:132-146 | the text of a peer's section |
| WgQuickWrite.SettingsText | internal/wireguard/config.go:91-100 | the text of the settings |
| WgQuickWrite.PeersHeadText | internal/wireguard/config.go:105-131 | the text above the peers |
| WgQuickWrite.FileHead | internal/wireguard/config.go:84-90 | the text the file begins with |
| WgQuickRoundTrip.PrintThenParse | internal/wireguard/config.go:70-149 | for values that stay on their line, a private key and a port in 1..65535, parsing the written text gives the settings (hooks as their tidy lines) and the written peers, and fails exactly when a written line is too long for the scanner |
| WgQuickRoundTrip.ExactlyTheEnabledUsers | internal/wireguard/config.go:109-146 | the peers read back are exactly the rows of this server that are enabled, have a key, and have addresses that are not blank, each with its own columns (no preshared key when that is blank), in username order |
| WgQuickRoundTrip.ReportedInterface | internal/wireguard/config.go:53-99 | the interface read back: the server's port or else the configured one, "/24" behind a bare address with three dots, DNS unless blank, MTU when positive |
| WgQuickRoundTrip.ReportedHook | internal/wireguard/config.go:163-177 | a hook is read back as its lines that are not blank, trimmed and in order |
| WgQuickRoundTrip.WrittenFile | internal/wireguard/config.go:39-149 | the same of the text itself, parsed |
| WgQuickApplied.FileIsInterface | internal/wireguard/config.go:109-137 | a key is on the interface after an apply exactly when the file names it |
| WgQuickRoundTrip.RewriteIsStable | internal/wireguard/wgquick_parse.go:41-224 | writing the parsed settings and peers again gives the same file |
| Backup.Database.RestoreOne | internal/wireguard/backup.go:456-502 | the upsert of one peer: blank key or addresses skip it, a conflict keeps the id and a private key the backup lacks |
| Backup.Database.RestoreOneGroup | internal/wireguard/backup.go:504-572 | the upsert of one group, its memberships among existing users, and its preset |
| Backup.Database.RestoreBackup | internal/wireguard/backup.go:380-411 | deletions with their cascades, then peers, then groups, in order |
| Backup.Database.ExportBackup | internal/wireguard/backup.go:186-303 | users by name and groups by name with members and preset, or failure |
| BackupRoundTrip.ExportedPeers | internal/wireguard/backup.go:186-252 | an export has one peer for each user of this server, column by column, in name order |
| BackupRoundTrip.ExportedGroupColumns | internal/wireguard/backup.go:255-303 | and one group for each group in name order, with description, preset, and its members that have names, in order |
| BackupRoundTrip.SameExport | internal/wireguard/backup.go:186-252 | two users are exported alike exactly when all their columns agree |
| BackupLaws.RestoredPeerColumns | internal/wireguard/backup.go:456-502 | the row one peer of the backup leaves, column by column, or none without key or addresses; no other row changes |
| BackupLaws.RestoredGroupColumns | internal/wireguard/backup.go:504-572 | the row, memberships and preset one group leaves, `dual` standing for a blank classifier |
| BackupLaws.ClearedColumns | internal/wireguard/backup.go:380-396 | what the replace options delete: users of this server with their memberships, and groups with all of theirs |
| BackupLaws.IntegrityAtEveryStep | internal/db/schema_patches.go:19-43 | after the deletions and after every restored peer and group, memberships and presets refer to existing rows and ids stay unique |
| BackupLaws.RestoredView | internal/wireguard/backup.go:380-572 | what a restore does to one user name, group name and membership, as a function of the backup entries for them |
| BackupLaws.UserTwiceExactly | internal/wireguard/backup.go:479-496 | a second restore changes a user exactly when it was taken over from another server and the backup has no key for it |
| BackupLaws.MemberTwiceExactly | internal/wireguard/backup.go:526-546 | a second restore changes a membership exactly in the same takeover, when groups are kept and the backup does not list it |
| BackupLaws.RestoreTwice | internal/wireguard/backup.go:380-572 | restoring twice equals restoring once, ids aside, exactly when neither of those happens |
| BackupRoundTrip.SecondRestoreLoses | internal/wireguard/backup.go:380-502 | the case: a user taken over from another server keeps key and membership after one restore and has neither after the second |
| BackupLaws.MergeFrames | internal/wireguard/backup.go:397-411 | without the replace options, users and groups the backup does not name are unchanged and memberships only grow, by what the backup lists |
| BackupRoundTrip.ExportSucceeds | internal/wireguard/backup.go:255-287 | the export succeeds exactly when every group has a member |
| BackupRoundTrip.RestoreUndoesExport | internal/wireguard/backup.go:186-303 | restoring an export with both replace options into any sound database gives the same users on the server, groups, presets, and memberships of users that are there; a user has the same exported columns exactly unless the private key of another server's user of that name is kept |
| BackupRoundTrip.OtherKeyIsKept | internal/wireguard/backup.go:479-496 | the case: a user exported without a private key comes back with another one's |
| IPv4.DottedRoundTrip | internal/wireguard/peers.go:76 | a printed address reads back as itself, so different addresses print differently |
| IPv4.DottedBytes | internal/wireguard/peers.go:76 | the bytes are printed from the highest to the lowest |
| Allocator.AddToIPv4 | internal/wireguard/peers.go:151-158 | the four bytes in place become those of the sum modulo 2^32 |
| Allocator.AllHostsIPv4 | internal/wireguard/peers.go:124-149 | for prefixes 16 to 31, exactly the addresses strictly between network and broadcast, ascending; otherwise none |
| Allocator.NetworkExactly | internal/wireguard/peers.go:124-149 | the network starts at a multiple of 2^(32 - prefix) and holds the configured address |
| Allocator.CollectUsed | internal/wireguard/peers.go:55-65 | an address counts as used exactly when it is the first IPv4 address of some stored row |
| Allocator.UsedExactly | internal/wireguard/peers.go:105-122 | the address a row uses is that of its first part, between commas, that stands for one |
| Allocator.PartIs | internal/wireguard/peers.go:107-118 | a part stands for an address with blanks around it and anything behind a slash |
| Allocator.NextClientAllowedIP | internal/wireguard/peers.go:44-78 | the least host that is neither the server nor used, and failure exactly when there is none |
| Allocator.FreeExactly | internal/wireguard/peers.go:44-78 | a free address is in the network of 16 to 31 leading bits, not its first or last one, not the server's, and not used |
| Allocator.ContainsExactly | internal/wireguard/peers.go:141-145 | an address is in the network exactly between its first and last one |
| Allocator.AllowedReadsBack | internal/wireguard/peers.go:105-122 | a stored allocation is read back as the address given out |
| Allocator.AllowedText | internal/wireguard/peers.go:76 | an allocation is stored with the full prefix |
| Allocator.StoreTakesOne | internal/wireguard/peers.go:51-79 | storing an allocation removes exactly that address from the free ones |
| Allocator.AllocationsAreExact | internal/wireguard/peers.go:25-79 | repeated allocate-and-store gives pairwise different addresses, each free at the start, and succeeds exactly as often as there were free hosts |
| DnsManager.Manager.BeginStop | internal/dns/manager.go:185-198 | the start of `stopLocked` is the Lock step |
| DnsManager.Manager.FinishStop | internal/dns/manager.go:199-208 | the end of `stopLocked` is the StopReturns step |
| DnsManager.Manager.FailStart | internal/dns/manager.go:98-152 | an error return of `Start` is the StartFails step |
| DnsManager.Manager.RecordStart | internal/dns/manager.go:154-162 | the end of `Start` is the StartRecords step |
| DnsManager.Manager.Watched | internal/dns/manager.go:211-223 | `watchProcess` past its wait is the WatcherActs step |
| DnsManager.SoundStep | internal/dns/manager.go:83-223 | every step keeps the invariant that only the tracked process lives, `running` mirrors the record, and the recorded process has an unfinished watcher |
| DnsManager.AtMostOneProcess | internal/dns/manager.go:83-223 | in every interleaving at most one process is alive, with the lock free it is the recorded one, and `running` holds exactly when one is recorded |
| DnsManager.OldWatchersNeverDisturb | internal/dns/manager.go:215-222 | leaving all steps of watchers of processes no longer recorded out of a run gives a run with the same fields, lock and processes |
| DnsManager.RecordDroppedAfterExit | internal/dns/manager.go:185-223 | a process loses its record only after it exited, to its own watcher or to a call that waited for it |
| DnsManager.StopLeavesNothing | internal/dns/manager.go:165-183 | when Stop returns nothing is alive |
| DnsManager.SettledStatusIsTrue | internal/dns/manager.go:60-74 | with the lock free and the watchers caught up, `running` holds exactly when a process is alive |
| DnsManager.StatusTold | internal/dns/manager.go:60-74 | in every run the status shows the error of the latest failed start or exit, none since a start that went well, and the address of the latest start |
| DnsManager.ExitIsNoticed | internal/dns/manager.go:211-223 | an exit of the recorded process can be noticed by its watcher in at most two steps |
| Bandwidth.IntegrateBandwidthBytes | internal/app/handlers.go:2387-2402 | the loop computes the integral of the rates over the covered seconds |
| Bandwidth.NextInterval | internal/app/handlers.go:2387-2402 | one more snapshot adds its gap at the rates before it, the limit for a longer gap, and nothing when time did not move on |
| Bandwidth.WholeSpan | internal/app/handlers.go:2388-2397 | without a gap above the limit exactly the time from first to last is covered |
| Bandwidth.LongGaps | internal/app/handlers.go:2388-2397 | longer gaps count exactly the limit each, and falling times nothing |
| Bandwidth.ConstantOverSpan | internal/app/handlers.go:2387-2402 | constant rates give exactly the rates times the span |
| Bandwidth.ByDay | internal/app/handlers.go:2516-2531 | the two tables hold, for every day, the bytes of the intervals that start on it |
| Bandwidth.NextOfDay | internal/app/handlers.go:2516-2531 | the seconds and bytes of an interval go to the day on which it starts, and to no other |
| Bandwidth.DailyHistory | internal/app/handlers.go:2533-2558 | one bar per day so far with that day's bytes, peaks that are attained, and sums equal to the integral over the same snapshots when all are of the month so far |
| Bandwidth.DaysAddUp | internal/app/handlers.go:2387-2402 | when every snapshot is of the month so far, the daily totals add up to the integral over the same snapshots |
| Bandwidth.BytesBounded | internal/app/handlers.go:2387-2402 | the integral lies between the lowest and the highest rate times the covered seconds |
| Bandwidth.DayBytesBounded | internal/app/handlers.go:2516-2531 | in both directions the bytes of a day lie between that day's lowest and highest rate times its covered seconds |
| Bandwidth.SecondsBounded | internal/app/handlers.go:2388-2397 | the covered seconds are at most the time between the first and last snapshot, and at most the gap limit per interval |
| Bandwidth.BucketBandwidthRates | internal/app/handlers.go:2404-2443 | one point per bucket that has snapshots, strictly ascending in time, with the averages of exactly its snapshots |
| Bandwidth.KeyExactly | internal/app/handlers.go:2414-2415 | a bucket starts at a multiple of its length and holds the times up to the next; those of 15 minutes start at quarter hours |
| Bandwidth.SumsAdd | internal/app/handlers.go:2422-2423 | the sums behind the averages add up |
| Bandwidth.AverageExactly | internal/app/handlers.go:2437-2440 | an average is the sum divided by the number, rounded down |
| Bandwidth.BucketsPartition | internal/app/handlers.go:2413-2424 | every snapshot is in exactly one bucket |
| Bandwidth.AverageBetween | internal/app/handlers.go:2437-2440 | a bucket's averages lie between the smallest and largest of its rates |
| Bandwidth.PeakFromBucketed | internal/app/handlers.go:2445-2457 | the peaks bound all points and are attained, or are zero |
| Bandwidth.PeakWithinRaw | internal/app/handlers.go:2404-2457 | no point of the chart exceeds the highest raw rate |
| Bandwidth.HourlyHistory | internal/app/handlers.go:2585-2588 | the hourly answer: the integral, points whose buckets share out the snapshots exactly, and peaks within any bound on the raw rates |
| DnsNames.FixedExactly | internal/db/dns_records.go:36-39 | normalizing leaves a lower-case text alone exactly when it is trimmed and has no trailing dot, and shortens any other |
| DnsNames.NormalizedExactly | internal/db/dns_records.go:36-39 | surrounding blanks, one trailing dot and the letter case do not matter, and nothing else is changed |
| DnsNames.NormalizeTwiceExactly | internal/db/dns_records.go:36-39 | normalizing twice is normalizing once exactly when no second dot and no blank stands before a trailing dot |
| Blocklist.WriteBlockHostsFile | internal/dns/blocklist.go:20-39 | one line for each distinct non-empty normalized name, in order, for the sink address or its default |
| Blocklist.HostsFileText | internal/dns/blocklist.go:20-39 | a name stands on its own line behind the sink address, 0.0.0.0 when none is configured |
| Blocklist.DistinctGrows | internal/dns/blocklist.go:25-36 | names are written in the order in which they are first met |
| Blocklist.BlockedExactly | internal/dns/blocklist.go:46-83 | a domain is blocked exactly when an enabled block rule or a wanted list names it and no enabled allow rule does |
| Blocklist.CollectBlockedDomains | internal/dns/blocklist.go:42-84 | the result lists, each once, the blocked or fetched domains less every allowed one; it fails exactly when a wanted list cannot be fetched |
| Blocklist.LoadBlocklistDomains | internal/dns/blocklist.go:86-102 | the union of the lists' domains, or failure when one list is missing |
| Blocklist.ParseHostsDomains | internal/dns/blocklist.go:152-179 | the dotted names of the lines that start with a sink address, up to the first line the scanner cannot hold |
| Blocklist.LineHostsExactly | internal/dns/blocklist.go:155-176 | a line gives a domain exactly when it begins with one of four addresses and another word, not `localhost`, normalizes to it and has a dot |
| Blocklist.ScannedUpTo | internal/dns/blocklist.go:152-155 | a line of 64 KiB or more ends the list: exactly the lines before it are read |
| Blocklist.AllHostsRead | internal/dns/blocklist.go:152-179 | a list gives the domains of all its lines exactly when none stands in the first line that is too long or after it |
| Blocklist.RuleOrder | internal/dns/blocklist.go:46-61 | reordering the rules changes nothing |
| Blocklist.HostsFileReadsBack | internal/dns/blocklist.go:20-39 | for blank-free names that settle and fit a line, parsing the written file gives exactly the dotted names, each once and in order, for a sink address, and nothing for another |
| Blocklist.PrepareBlockHosts | internal/dns/rewrites.go:32-43 | from rules and lists to file: when the domains of the enabled block rules and the host words of the lists settle, are free of blanks and fit a line, the file read back holds exactly the dotted blocked names and no allowed one |
| Blocklist.AllowedNeverWritten | internal/dns/blocklist.go:26-83 | whatever domains are allowed in addition, none of the allowed ones is written: exactly when each blocked domain is a stored name or is not written at all |
| Blocklist.AllowedNameWritten | internal/dns/blocklist.go:63-83 | one list line and one allow rule: the list's `a.b..` is collected as `a.b.`, survives the rule for `a.b`, and the hosts file read back blocks `a.b` |
| Blocklist.WrittenAsCollected | internal/dns/blocklist.go:26-38 | the written names are the collected ones exactly when each is a stored name |
| DnsZones.GroupByZone | internal/dns/rewrites.go:69-83 | the table has exactly the zones of the eligible records and, for each, its records in stored order under their owner names |
| DnsZones.KindExactly | internal/db/dns_records.go:57-67 | the seven record types by name, in any letter case, and no other text |
| DnsFiles.EligibleExactly | internal/dns/rewrites.go:70-81 | enabled records of any type but the two address types go to zone files |
| DnsZones.PrepareRewriteZones | internal/dns/rewrites.go:69-103 | one file per zone, zones ascending; failure exactly when some zone's file cannot be written |
| DnsZones.WriteZoneFile | internal/dns/zonefile.go:14-40 | origin, default TTL and a line per enabled record, or a SOA line when there is none; failure when a record has no line |
| DnsZones.LineBegins | internal/dns/zonefile.go:42-57 | a line begins with the name without a trailing dot, or "@", and the TTL, the default for none |
| DnsZones.FileBegins | internal/dns/zonefile.go:18-22 | every file begins with its origin and the default TTL of 300 |
| DnsZones.NobodyWritten | internal/dns/zonefile.go:36-38 | without an enabled record there is an authority record instead |
| DnsZoneMeaning.SplitCompletes | internal/db/dns_records.go:42-55 | completing the owner by the zone gives the full name back |
| DnsZoneMeaning.SplitExactly | internal/db/dns_records.go:42-55 | a name of two or more labels is cut after the first, so the owner is a single label and the zone the rest; a name of one label is its own zone |
| DnsZoneMeaning.SplitOf | internal/db/dns_records.go:42-55 | a label in front of a valid name belongs to that zone |
| DnsZoneMeaning.HostReadsBackExactly | internal/dns/zonefile.go:117-127 | a written target is read as the target meant (one with a trailing or inner dot absolute, other single labels and "@" relative to the zone) exactly when it holds no blank or special character and is not a single label with a trailing dot |
| DnsZoneMeaning.TxtShape | internal/dns/zonefile.go:95-102 | a text is written on one line exactly when it is one line |
| DnsZoneMeaning.MxReadsBackExactly | internal/dns/zonefile.go:104-115 | an MX value is read back as its priority and the host meant exactly when that is not a single label with a trailing dot |
| DnsZoneMeaning.RecordReadsBack | internal/dns/zonefile.go:42-82 | the line of a valid record is read as that record under its full name, with its TTL, type and the data it stores, texts included |
| DnsZoneMeaning.FileMeansRecords | internal/dns/zonefile.go:14-40 | a zone's file is read as exactly the zone's records in stored order |
| DnsZoneMeaning.ZonesPartition | internal/dns/rewrites.go:69-83 | over all zones each eligible record occurs exactly once |
| DnsZoneMeaning.RewritesMeanRecords | internal/dns/rewrites.go:69-103 | the zone files together denote exactly the stored records, each in exactly one zone |
| DnsValidate.ValidateDNSLabel | internal/db/dns_records.go:182-196 | a label of letters, digits and inner hyphens, at most 63 bytes |
| DnsValidate.LabelExactly | internal/db/dns_records.go:182-196 | the same in other words: 1 to 63 bytes, beginning and ending with a letter or digit |
| DnsValidate.ValidateDNSHostname | internal/db/dns_records.go:147-180 | the validator's rule for targets, with its exception for reverse names |
| DnsValidate.HostnameExactly | internal/db/dns_records.go:147-180 | a target is "@", or made of labels, or a reverse name without empty pieces |
| DnsValidate.ValidateDNSRewrite | internal/db/dns_records.go:69-124 | a record is accepted exactly when name, type, value and TTL meet the rules of its type |
| DnsValidate.AcceptedExactly | internal/db/dns_records.go:69-124 | the whole rule by type names, with its limits on TTL and text length |
| DnsValidate.MxValueExactly | internal/db/dns_records.go:136-145 | an MX value is a number from 0 to 65535, blanks and a target |
| DnsValidate.PassedIsValid | internal/db/dns_records.go:69-196 | an accepted record is valid exactly when it uses none of three openings: a PTR target with a special character, a text that is not one readable line, a target that is a single label with a trailing dot |
| DnsValidate.FirstLineExactly | internal/dns/zonefile.go:42-127 | the written data of an accepted record, up to its first line feed, is read as what is stored exactly when none of the openings is used |
| DnsValidate.RecordRecoveredExactly | internal/dns/zonefile.go:42-127 | the line of an accepted record is read as what the record stores exactly when it uses none of the openings |
| DnsValidate.AcceptedRewritesMeanRecords | internal/dns/rewrites.go:69-103 | when all records were accepted and none uses an opening, the zone files denote exactly the stored records, each in exactly one zone |
| DnsFiles.FileFaithfulExactly | internal/dns/rewrites.go:69-103 | the file of a zone of accepted records is read as one matching resource for each of its records, in stored order, and nothing else, exactly when none of them uses an opening |
| DnsFiles.FilesFaithfulExactly | internal/dns/rewrites.go:69-103 | all files of accepted records say what is stored exactly when no record uses an opening |
| DnsFiles.UnreadableSpoilsFile | internal/dns/zonefile.go:14-40 | among any records, one whose first written line cannot be read makes its zone's whole file unreadable |
| DnsFiles.PtrBlankLost | internal/db/dns_records.go:153-161 | an accepted PTR record with a blank in its target makes the file of its zone unreadable |
| DnsFiles.LoneQuoteSpoils | internal/db/dns_records.go:112-115 | so does an accepted text that is a single quote |
| DnsFiles.LineFeedAddsRecord | internal/db/dns_records.go:112-115 | the file of an accepted text with a line feed is read as that zone with a record nobody stored |
| DnsFiles.AbsoluteLabelMoved | internal/dns/zonefile.go:117-127 | an accepted target `mail.` is read as `mail.y.` in the file of zone `y` |
| DnsStrings.ReadsExactlyWhatItSays | internal/dns/zonefile.go:95-102 | the reader of quoted strings follows the grammar of section 5.1 of RFC 1035: exactly the texts of quoted strings are read without a comment, as what they say |
| DnsTxt.QuotedExactly | internal/dns/zonefile.go:95-102 | a text the formatter quotes is read as itself exactly when each of its backslashes stands right before a quote |
| DnsTxt.TxtExactly | internal/dns/zonefile.go:95-102 | for every text: the written text is read as what the stored one says exactly when it is of the kind `QuotedExactly` names, or already quoted and a sequence of quoted strings |
| DnsTxt.BetweenQuotesExactly | internal/dns/zonefile.go:95-102 | a text between quotes and without backslashes is readable exactly when the pieces between its quotes are, in turn, texts and blanks |
| DnsTxt.FirstLineNeverSays | internal/dns/zonefile.go:95-102 | the first written line of a text with a line feed is never read as what the text says |
| DnsTxt.LoneQuoteLost | internal/dns/zonefile.go:95-102 | a single quote is written as it is and cannot be read |
| DnsTxt.LoneBackslashLost | internal/dns/zonefile.go:95-102 | a single backslash takes the closing quote with it |
| DnsTxt.CommentLost | internal/dns/zonefile.go:95-102 | a semicolon after an inner quote starts a comment, and the rest of the text is lost |

## Left out

- HTTP handlers, sessions, templates, SQL text, transactions, JSON, UUIDs, backup encryption and key generation: tables are maps and sequences of rows, and the handlers appear only as the steps they cause.
- Running `wg`, `tc`, `ip` and CoreDNS, writing files, and fetching and caching blocklists: their results are parameters, and only the effect on counters, `tc` tables and processes is modelled.
- Accounting.Syncer.SyncOnce: does not model database errors, the ticker, or interface discovery; one clock reading serves the whole pass, and time is in whole seconds.
- Integer width: byte counters, rates and sums are unbounded integers; only `ParseI64` and `Atoi` have the 64-bit range.
- PcqPlan.RateAccuracy: does not model floating-point rounding; rates are exact rationals rounded half up. (The quotient by 1024 and the product with 10^6 are exact in binary64 for caps below 9*10^9 kb/s.)
- PcqPlan.BurstAccuracy: bursts are exact rationals rounded half up, while the program multiplies with the binary64 number nearest to 0.05.
- PcqPlan.AppendDownloads: does not have the branch for an empty rate text, which a positive cap never reaches.
- Tc: the grammar is the part the planner uses, the teardown line is one fixed shell line, and the interface name is a plain word; other qdiscs, other filters and token-bucket timing are not modelled.
- PcqLoad.LoadPeerLimits: starts from joined rows, which `PcqJoin` ties to the tables, with the tunnel address already parsed; parsing in `internal/pcq/tunnel.go` belongs to Go's `net` package.
- Allocator.NextClientAllowedIP: takes the parsed network and server address as arguments, reads addresses in the dotted form only (an IPv4 address written in IPv6 form is not recognised), and leaves out the sort, since the hosts come out ascending.
- Text: upper and lower case are modelled for ASCII and for the few other characters that map to ASCII; texts are sequences of Unicode characters, so malformed UTF-8 does not occur.
- WgQuickWrite.WriteWireGuardConfig: whether a text is an IP address is a parameter, and so is the time stamp.
- Backup.Database.ExportBackup: walks the outer join group by group instead of row by row.
- Backup.Database.RestoreBackup: leaves out the version check, the server and configuration rows, and rewriting and restarting the interface afterwards.
- BackupRoundTrip.RestoreUndoesExport: asks that texts are stored trimmed, that exported users have a key and addresses (restore skips the others), and that groups have members (export fails otherwise).
- DnsManager: takes `Wait` to return only after the process exited, and leaves out the kill after five seconds, the status view and the rendering of the Corefile.
- Bandwidth.ByDay: the day of a time stamp is a parameter, so time zones are not modelled.
- Bandwidth.BucketBandwidthRates: does not model the text labels of the points.
- Quoting.Read: makes no use of the environment: substitutions, operators and pattern characters make a line unreadable, and reserved words, aliases and assignments are not treated.
- DnsZones.WriteZoneFile: canonical address texts are a parameter; the hosts file for A and AAAA records is not modelled.
- DnsZoneMeaning.ReadZone: reads line by line the record types the program writes: a quoted string that runs on over a line end, which section 5.1 of RFC 1035 allows, is not read, nor are parenthesised lines; of character strings only quoted ones, without the limit of 255 octets for each.
- DnsValidate.ValidateDNSRewrite: says whether a record is accepted, without the messages; letters and digits beyond ASCII are a parameter.
