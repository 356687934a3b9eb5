# f2b_tui core, modelled in Dafny

f2b_tui is a terminal monitor for an SSH server protected by fail2ban. It
follows two logs: the sshd auth log and the fail2ban log. It turns their
lines into `FAIL`, `OK`, `BAN` and `UNBAN` events and counts them per
address in memory. It also does four more things:

- it keeps a SQLite cache of cumulative per-address and per-subnet
  figures;
- it imports the ban history of fail2ban's own database;
- it polls `fail2ban-client` for the current ban list;
- it asks Team Cymru's bulk WHOIS service which network (ASN) each
  address belongs to.

A curses interface shows the result in four tabs, with a details overlay.

This project models that core and proves properties of it:

- **Address helpers**, `utils.dfy` (module `Utils`):
  - the IPv4 literal grammar of Python's `ipaddress`, with its round trip;
  - `ip_to_subnet`, as the network address under a `/prefix` mask (section 3.1 of RFC 4632);
  - `clamp`, `human_int`, and the `None` case of `fmt_epoch_utc`.
- **Log parsers**, `parsers.dfy` (module `Parsers`):
  - the regular expressions of `parsers.py`, modelled position by position for ASCII text;
  - `parse_ssh_line` and `parse_f2b_line`.
- **Tail follower**, `tailer.dfy` (module `Tailer`):
  - the `TailFile` class, with its handle, inode, offset and first-open flag;
  - the file system appears as a `Disk` value: the inode the path names now, the text of each inode, and any error `stat` or `open()` raises.
- **Bulk WHOIS client**, `asn.dfy` (module `Asn`):
  - the query `cymru_bulk_lookup_nc` sends, and the loop that reads the reply;
  - `nc` is a function parameter from the query to an exit code and a text.
- **Cache**, `cachedb.dfy` (module `CacheDb`):
  - class `CacheDB` holds the five tables as maps, plus the tables as of the last commit;
  - every upsert is a method proved against a function of the old tables.
- **fail2ban history**, `history.dfy` (module `History`):
  - `import_bips_aggregates`, `fetch_ip_history_bips` and `fetch_top_bips`;
  - each is a function over an abstract `bips` or `bans` table, given as its column set and its rows.
- **Application**, in four modules:
  - `app_state.dfy` (`AppState`): the in-memory fields of `App` as a record, and the specification function of each operation;
  - `app.dfy` (`App`): class `App`, whose methods change its fields and the cache and are proved against those functions;
  - `app_props.dfy`, `persist_props.dfy`, `query_props.dfy` and `refresh_props.dfy`: what the operations promise.
- **Interface logic**, `tui.dfy` (module `Tui`):
  - the layout arithmetic;
  - the cursor and offset clamp of the list panel and the details overlay;
  - the escape-sequence decoder;
  - the search prompt;
  - what Enter opens.
- **Shared definitions**:
  - `text.dfy` holds Python's string built-ins;
  - `sorting.dfy` holds a stable sort and `sorted()` on strings;
  - `records.dfy` holds the event records of `model.py`;
  - `wrappers.dfy` holds `Option` and `Result`.

Time appears in two forms, both as integer parameters:

- `time.time()` gates the poll, the ASN refresh and the commit; the model counts it in milliseconds;
- `now_ts()` stamps rows and events; the model counts it in seconds.

An exception the source catches becomes a `Result`, an `Option`, or the error text of a logged `ERR` event.

Where the monitor's written design and its code disagree, the model follows
the code:

- Rotation is detected by a change of inode only. A file truncated in place keeps its offset (`Tailer.TruncationNotDetected`).
- A final line without a newline is returned as it is, and the offset moves past it; it is not held back as a partial line.
- A live event overwrites `last_seen_ts` in `ip_cache` with the event's time, even a smaller one, rather than keeping the maximum.
- Only IPv4 is handled.
- Event times come from the clock, not from the log line.

Two behaviours of the code are proved as they are, without a correction:

- The jail of a fail2ban line is the first bracketed token. In the standard line layout that token is the process id, so the sample line in the comment at `parsers.py:17` has jail `1234`, not `sshd` (`Parsers.SampleLineJail`).
- A key that follows a lone ESC other than `[` is consumed with it and lost (`Tui.DecodeKeyDropsAfterEsc`).

## Model

| member | source | states |
|---|---|---|
| Utils.Clamp | utils.py:29-34 | `lo` below the range, `hi` above it, `n` inside it; with `lo <= hi` the result lies in `[lo, hi]` |
| Utils.ClampIdempotent | utils.py:29-34 | clamping a clamped value again changes nothing |
| Utils.ParseIPv4 | utils.py:45-50 | a literal `ip_address` accepts denotes an address below 2^32 |
| Utils.ParseFormat | utils.py:45-50 | formatting any address as a dotted quad and parsing it gives the address back |
| Utils.FormatParse | utils.py:45-50 | a literal that parses is exactly the canonical dotted quad of its address |
| Utils.PlausibleIffCanonical | utils.py:45-50 | `ip_plausible_ipv4(s)` holds exactly when `s` is the canonical dotted quad of some address; failures yield false, never an exception |
| Utils.MaskBlock | utils.py:41 | an address lies in its own `/prefix` block, and another address has the same network address exactly when it lies in that block |
| Utils.IpToSubnet | utils.py:37-42 | succeeds exactly for a plausible IPv4 literal and a prefix in 0..32; otherwise it is the `ValueError` |
| Utils.IpToSubnetDenotes | utils.py:37-42 | the text is `<network>/<prefix>`: the network is the masked address, the input lies in its block, and the block's addresses are exactly those with the same network |
| Utils.IpToSubnetIdempotent | utils.py:37-42 | the subnet of a network address under the same prefix is the same text |
| Utils.HumanIntDigits | utils.py:53-54 | deleting the spaces of `human_int(n)` gives `str(n)` |
| Utils.HumanIntGroups | utils.py:53-54 | for `n >= 0` the space-separated groups are digit runs: 1 to 3 digits first, exactly 3 after |
| Utils.FmtEpochUtcAsWritten | utils.py:20-26 | `None` gives the literal placeholder; a time the formatter rejects gives `str(ts)` |
| Utils.PlaceholderIsMojibake | utils.py:22 | the placeholder as written is three characters, not one em dash |
| Utils.FmtEpochUtc | utils.py:20-26 | the corrected formatter: `None` gives the single em dash; a rejected time gives `str(ts)` |
| Text.Strip | asn.py:29 | `strip()` leaves no white space at either end |
| Text.RStripChar | tailer.py:62 | `rstrip("\n")` removes exactly the trailing run of newlines and leaves a prefix |
| Text.SplitWs | tui.py:341 | `split()` gives non-empty words without white space |
| Text.SplitOn | asn.py:63 | `split("\|")` gives at least one piece, none holding the separator |
| Text.SplitLines | asn.py:54 | `splitlines()` gives lines without line boundaries |
| Text.JoinSplit | asn.py:63 | joining the pieces of a split with the separator restores the text |
| Text.SplitJoin | asn.py:36 | splitting a join on its separator gives the parts back when no part holds it |
| Text.Lower | app.py:309-310 | ASCII-only folding: no capital letter is left, and every other character is kept |
| Text.LowerKeepsUncased | app.py:309-310 | text without capitals is its own lower case |
| Text.LowerIdempotent | app.py:309-310 | lower-casing twice is lower-casing once |
| Sorting.SortBy | app.py:312 | the sort is a permutation of its input |
| Sorting.SortBySorted | app.py:312 | under a total preorder the sorted sequence is ordered |
| Sorting.SortedSetSpec | app.py:243-245 | `sorted(s)` lists every member of `s` exactly once, strictly ascending |
| Parsers.IpAt | parsers.py:11 | a match of `IP_RE` is 7 to 15 characters long |
| Parsers.IpAtQuad | parsers.py:11 | `IP_RE` matches exactly a dotted quad in the line that no digit follows |
| Parsers.WordIpAtQuad | parsers.py:20-21 | the word-bounded address pattern matches exactly a dotted quad that no word character follows |
| Parsers.Search | parsers.py:32 | `re.search` finds something exactly when some position matches, and returns the leftmost match |
| Parsers.ParseSshLine | parsers.py:28-42 | there is a result exactly when the first dotted quad is a plausible address and a phrase matches; the address is that quad; the kind is `FAIL` exactly when a failure phrase occurs, otherwise `OK` |
| Parsers.FirstQuadDecides | parsers.py:32-37 | when the first dotted quad is not a valid address the line gives nothing, whatever quads follow |
| Parsers.JailAt | parsers.py:19 | a jail match is a non-empty run of `[A-Za-z0-9_.:-]` |
| Parsers.ParseF2bLine | parsers.py:45-63 | the kind is `BAN` or `UNBAN` and the address is plausible; a plausible `Ban` address wins; failing that, a plausible `Unban` address; otherwise nothing; the jail is the first bracket token |
| Parsers.FirstBracketIsJail | parsers.py:49-52 | the first bracket token is the jail, whatever brackets follow it |
| Parsers.WordThenQuad | parsers.py:20-21 | `\b<word>\s+<ip>\b` matches where the line holds the word, a run of spaces and a dotted quad |
| Parsers.BanOfLine | parsers.py:53-57 | a `Ban <address>` with no `B` before it is the ban the line reports |
| Parsers.SampleLineJail | parsers.py:17-19 | in the sample line the jail is the process id `1234` |
| Parsers.SampleLineParse | parsers.py:17-21 | the sample line parses as a ban of `1.2.3.4` in jail `1234` |
| Tailer.TailFile.constructor | tailer.py:16-23 | no handle, no inode, offset 0, not yet opened |
| Tailer.TailFile.TryOpen | tailer.py:25-50 | the new state is the `_try_open` step of the old one; a `stat` error other than a missing file, or a failing `open()`, is returned and leaves the state as it was |
| Tailer.TailFile.ReadAvailableLines | tailer.py:52-72 | the new state, the returned lines and any exception from `_try_open` are one `read_available_lines` step of the old state |
| Tailer.OpenErrorRaises | tailer.py:25-53 | a call raises exactly when `stat` fails other than on a missing file, or when it must open the path and `open()` fails; it then returns nothing and changes nothing |
| Tailer.ReadLines | tailer.py:56-63 | the loop gathers what the specification function gathers, or stops at the `readline()` that raises |
| Tailer.ReadLine | tailer.py:59 | `readline()` is empty exactly at or past the end of the text |
| Tailer.ReadLineSpec | tailer.py:59 | the line is the text at the offset, with a newline only at its end, missing only at the end of the text |
| Tailer.ChompIsRStrip | tailer.py:62 | `rstrip("\n")` removes exactly the one newline `readline()` read |
| Tailer.AvailableBounds | tailer.py:58-63 | a call moves forward, stays within the text, and returns at most `max_lines` lines |
| Tailer.AvailableNoNewline | tailer.py:62 | no returned line holds a newline |
| Tailer.AvailableTiles | tailer.py:58-63 | the returned lines, with their newlines put back, are exactly the text between the old and the new offset |
| Tailer.ReadStepKeepsInv | tailer.py:25-72 | every call keeps the handle and the inode set or cleared together |
| Tailer.MissingBeforeOpen | tailer.py:25-55 | with no file and no handle, nothing is returned and nothing changes |
| Tailer.VanishedKeepsReading | tailer.py:26-31 | a path that vanished under an open handle: reading goes on from the old file |
| Tailer.FirstOpenSkipsExisting | tailer.py:34-37 | the first open with `start_at_end` lands at the end of the file, so nothing present at startup is returned |
| Tailer.ReopenResumes | tailer.py:38-39 | any later open without a handle resumes at the saved offset |
| Tailer.RotationRestarts | tailer.py:42-50 | a new inode at the path is read from offset 0 |
| Tailer.TruncationNotDetected | tailer.py:42 | a file cut short under the same inode keeps the offset and returns nothing until it grows past it |
| Tailer.ReadBounded | tailer.py:58-62 | at most `max_lines` lines, none holding a newline |
| Tailer.ReadAdvancesPastLines | tailer.py:63 | after a successful call the offset is just past the last line returned |
| Tailer.NextReadContinues | tailer.py:42-63 | with the same inode, the next call reads on from where this one stopped, so no line comes twice, and an `open()` error cannot strike it |
| Tailer.ErrorRedelivers | tailer.py:64-72 | a read error drops the handle and inode but keeps the offset, so the retry returns the same lines again |
| Asn.Ascii | asn.py:42 | encoding drops characters and never adds any |
| Asn.Fields | asn.py:63 | one stripped field per `\|`-separated piece |
| Asn.Rows | asn.py:57-77 | one entry per response line |
| Asn.CymruBulkLookup | asn.py:14-78 | the result is the lookup's specification; no process is started when every input is blank, and otherwise exactly the ASCII query is sent |
| Asn.ReadRows | asn.py:57-77 | the loop builds the dictionary the rows specify, a later row for an address replacing an earlier one |
| Asn.AskedConcat | asn.py:29 | blank entries are dropped and the rest keep their order |
| Asn.AskedTrimmed | asn.py:29 | every asked address is stripped and non-empty |
| Asn.AskedEmpty | asn.py:27-31 | nothing is asked exactly when every input strips to nothing |
| Asn.QueryRoundTrip | asn.py:33-36 | split on newlines, the query is `begin`, `verbose`, the addresses and `end`, with a trailing newline |
| Asn.AsciiKeeps | asn.py:42 | ASCII text is sent unchanged |
| Asn.MergeKeys | asn.py:76-77 | an address has an entry exactly when some row names it |
| Asn.MergeLastRowWins | asn.py:76-77 | the entry is the one from the last row naming the address |
| Asn.MergeFetched | asn.py:56-77 | every entry carries the one fetch time |
| Asn.LookupFetched | asn.py:56-77 | whatever `nc` answers, every entry of the lookup carries the fetch time |
| Asn.FieldsOfRow | asn.py:63 | stripping the pieces of a row padded by the server gives back its fields |
| Asn.RowNotSkipped | asn.py:59-60 | a well-formed data row is not taken for a header or a comment |
| Asn.VerboseRowRoundTrip | asn.py:66-71 | a 7-field row gives address field 1, ASN field 0, country field 3 and name field 6 |
| Asn.ShortRowRoundTrip | asn.py:72-75 | a 6-field row gives country field 2 and name field 5 |
| CacheDb.OneHot | cache_db.py:102-108 | one on the counter of the kind, none on the others, and none on `OK` unless `show_ok` is set |
| CacheDb.CacheDB.constructor | cache_db.py:72-82 | a file that already holds tables keeps their rows (all empty for a new file), and they start out committed |
| CacheDb.CacheDB.Commit | app.py:165 | the working tables become the committed ones |
| CacheDb.CacheDB.Rollback | app.py:171 | the working tables go back to the last commit |
| CacheDb.CacheDB.SetState | cache_db.py:90-94 | the key now holds the value; nothing else changes |
| CacheDb.CacheDB.GetState | cache_db.py:96-98 | the stored value, or `None` for a key never set |
| CacheDb.CacheDB.UpsertIpEvent | cache_db.py:100-142 | the new tables, and the exception `ip_to_subnet` raises, are those the specification gives |
| CacheDb.CacheDB.UpsertSubnetIp | cache_db.py:144-153 | only the `(subnet, ip)` row changes, as the merge function says |
| CacheDb.CacheDB.UpsertSubnetCounters | cache_db.py:155-169 | only the subnet's row changes, as the merge function says |
| CacheDb.CacheDB.UpsertImportedBips | cache_db.py:180-220 | the new tables, and the exception `ip_to_subnet` raises, are those the specification gives |
| CacheDb.CacheDB.RefreshSubnetUniqueCounts | cache_db.py:171-178 | every subnet is recounted from `subnet_ip` |
| CacheDb.CacheDB.UpsertAsnInfo | cache_db.py:222-251 | the ASN answers are applied, and it returns `(n, n)` for `n` entries |
| CacheDb.CacheDB.ListRealtimeSeedIps | cache_db.py:263-270 | nothing for `n <= 0`; otherwise `min(n, rows)` distinct cached addresses, latest `last_seen_ts` first, none left out that is later than one listed |
| CacheDb.Recount | cache_db.py:173-178 | the loop sets each subnet's `unique_ips` to its member count |
| CacheDb.WriteAsns | cache_db.py:229-250 | the loop overwrites `asn_cache` with the answers, sets the provider columns, and counts one write per entry |
| CacheDb.LatestFirst | cache_db.py:266-270 | `ORDER BY last_seen_ts DESC LIMIT n`: the `n` latest rows, in non-increasing order |
| CacheDb.StateRoundTrip | cache_db.py:90-98 | `get_state` returns what the last `set_state` of that key wrote, and other keys are undisturbed |
| CacheDb.IpEventRowWritten | cache_db.py:110-140 | the `ip_cache` row is written even when `ip_to_subnet` then raises |
| CacheDb.IpEventFirstSighting | cache_db.py:102-138 | a first event creates the row with both sightings at the event's time, one on the event's own counter and zero on the others (`OK` only when `show_ok`), its kind and jail as the last event, and no import or provider data |
| CacheDb.IpEventAgain | cache_db.py:114-121 | a later event adds one to its own counter and nothing to the others (`OK` only when `show_ok`), and overwrites `last_seen_ts`, `last_event` and `last_jail`; the first sighting, import and provider columns and other rows stay |
| CacheDb.IpEventSubnets | cache_db.py:139-169 | a bad address or prefix leaves the subnet tables alone; otherwise the pair is recorded and the subnet's counters grow by the delta |
| CacheDb.SeenKeepsExtremes | cache_db.py:144-153 | `subnet_ip` keeps the first sighting and the latest last sighting |
| CacheDb.ImportedMerge | cache_db.py:182-207 | NULL-aware maximum of `last_ban_ts` with the jail following a strict win; `ban_count_total` never goes down; `last_seen_ts` rises only to a later ban; live and provider columns stay |
| CacheDb.ImportedIdempotent | cache_db.py:187-199 | importing the same aggregate twice leaves the imported columns where the first import put them |
| CacheDb.ImportWithoutTime | cache_db.py:208-220 | a ban without a time touches only `ip_cache` |
| CacheDb.RecountedCounts | cache_db.py:171-178 | every subnet's `unique_ips` equals its number of `subnet_ip` rows, and a second recount changes nothing |
| CacheDb.AsnAppliedSpec | cache_db.py:222-251 | every answer overwrites `asn_cache`; `ip_cache` gains no rows, and an existing row gets only the provider columns of its answer |
| History.ImportBipsAggregates | fail2ban_sqlite.py:136-214 | the result is the import's specification |
| History.Collect | fail2ban_sqlite.py:164-181 | the loop fills one entry per address, or fails on a table without `bantime` that has rows |
| History.MaxOfSpec | fail2ban_sqlite.py:152 | SQL `MAX` is NULL only for an all-NULL group; otherwise it is one of the values and none exceeds it |
| History.LatestSpec | fail2ban_sqlite.py:170-175 | the latest row belongs to the group and carries the group's `MAX(timeofban)` |
| History.AggSpec | fail2ban_sqlite.py:165-181 | the total is `SUM(bancount)` or the row count; `last_ban_ts` is the latest time; the jail and ban time come from a row carrying it, defaulting to `""` and 0 |
| History.ImportSpec | fail2ban_sqlite.py:136-214 | the import fails exactly when neither table exists, when the chosen one (`bips` first) lacks a required column, or when it has rows but no `bantime`; otherwise there is exactly one entry per address |
| History.IpHistorySpec | fail2ban_sqlite.py:89-131 | only the address's rows, latest first, at most `limit`, with `bancount` 1 when the column is absent; `[]` when no table qualifies |
| History.DistinctSpec | fail2ban_sqlite.py:62 | `GROUP BY ip` forms one group per address, each once |
| History.TopBipsFails | fail2ban_sqlite.py:36-84 | the fetch fails exactly when neither table exists, or the one it reads lacks a required column or `bantime` |
| History.TopBipsSpec | fail2ban_sqlite.py:36-84 | at most `limit` rows, ordered by `bancount` then `timeofban`, both descending; raw `bips` rows or one grouped row per address |
| History.GroupedSpec | fail2ban_sqlite.py:59-83 | one grouped row per address, carrying that address's row count |
| AppState.PushSpec | app.py:90-96 | `deque(maxlen)` keeps at most `cap` elements, the new one last after the newest old ones |
| AppState.Bumped | app.py:199-200 | only the event's counter of its address goes up by one; no key is added or removed |
| AppState.IncrementsTotal | app.py:199-200 | the total grows by one exactly for a counted kind |
| AppState.FindFrom | app.py:232-234 | a reported occurrence of the marker is a real one |
| AppState.PollIncoming | app.py:243-246 | one event per new and per lifted address |
| AppState.RefreshedGated | app.py:250-254 | while disabled or within the interval the refresh changes nothing and returns `(0, 0)` |
| AppState.RefreshedPastGates | app.py:255-259 | past the gates the refresh stamps the clock and then scans |
| AppState.ScannedBatch | app.py:261-264 | the batch is looked up with the cursor the scan leaves |
| AppState.LookedUpFound | app.py:269-285 | the cursor moves to the last address of the batch; no answer returns `(len(need), 0)`; answers are stored, marked dirty, and counted |
| AppState.SeenOrdered | app.py:198 | `setdefault` appends a new address to the insertion order and leaves a known one alone |
| AppState.BumpedOrdered | app.py:199-200 | a bump keeps the insertion order listing the keys |
| AppState.CountedOrdered | app.py:198-200 | an event keeps the order listing each counted address once, and adds its address |
| AppState.CountedCounters | app.py:198-200 | an event bumps its own counter, from zeros for a new address, and no other |
| AppState.CountedKeeps | app.py:198-200 | counting touches only the counters and their order |
| App.App.constructor | app.py:48-65 | the fields `__init__` sets, the cache as stored, and fresh tails |
| App.App.LogSys | app.py:86-88 | the fields after `log_sys` are its specification |
| App.App.PushEvent | app.py:90-96 | the fields after `_push_event` are its specification |
| App.App.HandleEvent | app.py:195-209 | the cache tables follow the upsert's specification, and the fields follow `_handle_event`'s |
| App.App.Store | app.py:202-206 | the upsert, then marking dirty or logging what it raised |
| App.App.MarkSqlDirty | app.py:156-157 | `pending` goes up by one and nothing else changes |
| App.App.SetDefault | app.py:198 | `realtime.setdefault` with zero counters |
| App.App.Count | app.py:198-200 | `setdefault` then the increment |
| App.App.HandleAll | app.py:195-209 | the loop is `_handle_event` on each event in turn |
| App.App.HandleAuthLines | app.py:179-186 | the auth-log loop handles exactly the events its lines give |
| App.App.HandleAuthLine | app.py:180-186 | one auth line: its parse, unless it is an `OK` not shown |
| App.App.HandleF2bLines | app.py:188-193 | the fail2ban-log loop handles exactly the events its lines give |
| App.App.HandleF2bLine | app.py:189-193 | one fail2ban line: its parse, with its jail |
| App.App.ProcessLogTails | app.py:177-193 | both tails take one read step and their lines are handled, auth first; an open error in the auth tail passes out before anything changes, and one in the fail2ban tail after the auth lines are handled |
| App.App.BootstrapRealtimeFromCache | app.py:98-105 | seeds nothing for `n <= 0`, otherwise the `min(n, rows)` most recently seen cached addresses, distinct, latest first, none omitted later than one seeded; zero counters via `setdefault`; logs the count |
| App.App.PollFail2banBans | app.py:211-247 | the fields and tables after the poll are its specification |
| App.App.Diff | app.py:238-247 | the diff step's specification |
| App.App.RefreshAsn | app.py:249-288 | the refresh as evidently intended, returning `(asked, written)` |
| App.App.ScanAndLookUp | app.py:257-288 | the scan with one wrap-around, then the lookup |
| App.App.LookUp | app.py:269-288 | from the known batch onward |
| App.App.ApplyAsn | app.py:282-285 | `upsert_asn_info` then marking dirty; it returns `(n, n)` |
| App.App.RefreshAsnAsWritten | app.py:249-267 | as written, it returns `(0, 0)` and logs the scan error |
| App.App.MaybeCommit | app.py:159-175 | the fields, working tables and committed tables follow `_maybe_commit` |
| App.App.ImportLoop | app.py:127-140 | one upsert per address, a commit after every 2000th, stopping at the first that raises |
| App.App.ImportOne | app.py:129-140 | one pass of the loop is one import step: the upsert, the count when it does not raise, and the commit after every 2000th |
| App.App.ImportFail2banHistory | app.py:107-154 | the fields and both table versions follow `import_fail2ban_history` |
| App.App.FinishImport | app.py:141-147 | the recount, the five state keys, then a commit |
| AppProps.RecordedCounts | app.py:198-200 | the address is counted once under the event's kind, and no other counter moves |
| AppProps.PushedSpec | app.py:90-96 | the event becomes the newest in the global deque (cap 2000) and in its address's deque (cap 50) |
| AppProps.RecordedEvents | app.py:208-209 | `_handle_event` records the event last in both deques and leaves other addresses' deques alone |
| AppProps.RecordedPending | app.py:202-206 | the cache is marked dirty exactly when the write did not raise |
| AppProps.HandledAllOrdered | app.py:195-209 | a run of events keeps the order listing the counted addresses, adding exactly the events' addresses |
| AppProps.HandledAllTimers | app.py:195-209 | a run keeps the global deque within its cap, never lowers `pending`, and leaves the timers alone |
| AppProps.GatheredSpec | app.py:179-193 | an event is handled exactly when some line gives it, at most one per line |
| AppProps.AuthEventSpec | app.py:180-186 | an auth line gives its parse, unless that is an `OK` not shown |
| AppProps.F2bEventSpec | app.py:189-193 | a fail2ban line gives its parse with its jail |
| AppProps.AuthIncomingSpec | app.py:179-186 | auth events in line order, chunk by chunk |
| AppProps.F2bIncomingSpec | app.py:188-193 | fail2ban events in line order, chunk by chunk |
| AppProps.FindFromSpec | app.py:232-234 | `find` reports the first occurrence of the marker at or after the start, and none only when there is none |
| AppProps.BannedOnUnmarked | app.py:232 | a line without the marker lists nothing |
| AppProps.BannedOnWords | app.py:234-237 | every listed address is a non-empty word without white space |
| AppProps.BannedSpec | app.py:230-237 | an address is banned exactly when some output line lists it |
| AppProps.PollIncomingSpec | app.py:243-246 | one `BAN` per new address, then one `UNBAN` per lifted one, all for the polled jail |
| AppProps.PollIncomingCovers | app.py:243-246 | every new address gets its `BAN` and every lifted one its `UNBAN` |
| AppProps.PollIncomingOrder | app.py:243-246 | within each group the addresses come in ascending order |
| AppProps.PollIncomingIps | app.py:243-246 | the poll's events name exactly the new and the lifted addresses |
| AppProps.DiffedKnown | app.py:247 | after the diff the known addresses are those just seen banned |
| AppProps.DiffedSame | app.py:241-242 | an unchanged banned list handles nothing |
| AppProps.DiffedTwice | app.py:239-247 | the same list twice in a row: the second diff changes nothing |
| AppProps.DiffedRealtime | app.py:243-246 | the counted addresses gain exactly the new and the lifted ones |
| AppProps.PolledGated | app.py:212-216 | nothing happens while polling is off, no jail is set, or the interval has not passed |
| AppProps.PolledSpec | app.py:217-247 | past the gates the poll is stamped; a failed run logs `ERR`, a non-zero exit changes nothing else, and a clean run makes the known set equal to the listed one |
| AppProps.PolledTwice | app.py:211-247 | two clean polls with the same output: the second only moves the stamp |
| PersistProps.CommittedGated | app.py:160-163 | no pending work, or the interval not yet passed: nothing changes |
| PersistProps.CommittedSaved | app.py:164-167 | a successful commit makes the working tables durable, clears `pending` and stamps the clock |
| PersistProps.CommittedRolledBack | app.py:168-175 | a failed commit logs, rolls back, and still clears `pending` and stamps the clock |
| PersistProps.CommittedSettles | app.py:159-175 | after a commit nothing is uncommitted, and the next call changes nothing |
| PersistProps.ImportStepSpec | app.py:129-140 | after an exception nothing more happens; the count grows exactly when the upsert does not raise |
| PersistProps.ImportAllCount | app.py:127-140 | every address is imported unless an upsert raises, and the count is the number before the first that does |
| PersistProps.ImportAllDurable | app.py:138-140 | commits happen only at multiples of 2000 |
| PersistProps.ImportedEarly | app.py:108-125 | an unreadable source or an unchanged fingerprint leaves the tables alone; only a failure logs, and it logs `ERR` |
| PersistProps.FinishedFingerprinted | app.py:141-147 | a complete import records its fingerprint |
| PersistProps.ImportedSettles | app.py:127-154 | once the aggregates are read, the import ends with nothing uncommitted |
| PersistProps.ImportedLogs | app.py:148-154 | the import logs `INFO` after completing, or the `ERR` of the upsert that raised |
| PersistProps.ImportedRecords | app.py:144-148 | an import that logs `INFO` has stored its fingerprint |
| PersistProps.LoggedLast | app.py:86-88 | `log_sys` appends its event and changes nothing else |
| PersistProps.ImportedTwice | app.py:115-119 | unless it failed, importing the same source again changes nothing |
| PersistProps.ImportedRecorded | app.py:144-145 | after an import that did not fail, the stored fingerprint is the current one |
| PersistProps.SeededOrdered | app.py:101-102 | seeding keeps each counted address listed once and counts exactly the old and the given ones |
| PersistProps.SeededKeeps | app.py:101-102 | new addresses get zero counters after the old ones; existing counters and other fields stay |
| QueryProps.FilterSpec | app.py:303-310 | a filtering comprehension keeps exactly the passing elements, never more often than they occur |
| QueryProps.ItemsSpec | app.py:300 | `items()` pairs every address with its counters |
| QueryProps.RealtimeRowsSorted | app.py:311-312 | rows sorted by `(BAN, FAIL, total)`, highest first |
| QueryProps.RealtimeRowsSound | app.py:299-313 | every row is a counted address with activity whose lower-cased text contains the search, with its counters |
| QueryProps.MatchingAddress | app.py:309-310 | an address of digits and dots matches exactly when it contains the lower-cased search |
| QueryProps.RealtimeRowsComplete | app.py:299-313 | every counted address with activity that contains the search is listed |
| QueryProps.RealtimeRowsDistinct | app.py:299-313 | no address is listed twice, and each row holds the address's own counters |
| QueryProps.EventsLinesSpec | app.py:495-503 | the lines of `events[-max_lines:]` as Python slices it, oldest first, one per event |
| RefreshProps.NeedingRefreshSound | app.py:261 | the scan returns at most `batch` stale addresses past the cursor, strictly ascending |
| RefreshProps.NeedingRefreshComplete | app.py:261 | no stale address past the cursor is missed unless the batch is full, and then every missed one sorts after all returned |
| RefreshProps.ScanWraps | app.py:261-264 | an empty scan from a cursor restarts from the start, and the cursor is kept or dropped |
| RefreshProps.ScanFinds | app.py:261-264 | with a stale row and a non-zero batch the scan finds something |
| RefreshProps.LookedUpSpec | app.py:269-285 | the cursor is the batch's last address; `(len(need), 0)` without answers; answered rows get fresh provider columns and other rows stay |
| RefreshProps.LookedUpFresh | app.py:272-285 | an answered address is no longer stale up to the lookup time |
| RefreshProps.ScanAdvances | app.py:261-272 | a kept cursor lies before the whole batch, and it is dropped only when nothing stale lies past it |
| RefreshProps.ScannedAdvances | app.py:257-272 | the cursor moves strictly forward unless nothing stale lies past it |
| RefreshProps.RefreshedAsks | app.py:249-285 | past the gates, with a stale row and a non-zero batch, the intended refresh asks about something |
| RefreshProps.RefreshedAsWrittenNeverAsks | app.py:260-267 | as written, past the gates it only stamps the clock and logs the `AttributeError` |
| Tui.CalcLayout | tui.py:56-67 | list at least 1 row, events at least 3, footer 1; from 6 rows on the panels and bars fill the screen; from 11 rows the events panel is a third of the usable rows |
| Tui.DetailsPageSize | tui.py:133-135 | at least 3, and exactly the rows the overlay shows |
| Tui.Viewport | tui.py:145-151 | cursor on a row, offset with no row past the last, and the cursor inside the window |
| Tui.ViewportStable | tui.py:145-151 | a view already in range with the cursor visible is left alone |
| Tui.ViewportIdempotent | tui.py:145-151 | clamping twice is clamping once |
| Tui.ViewportScrollsMinimally | tui.py:146-151 | a cursor above the window becomes its top row, one below becomes its bottom row, and one inside moves nothing |
| Tui.ListState.constructor | model.py:48-53 | a new tab view starts at row 0 with no search |
| Tui.ListState.ClampToPanel | tui.py:143-151 | the cursor and offset after the clamp of `draw_list_panel`, for `max(0, h - 1)` rows |
| Tui.DetailsState.constructor | model.py:56-63 | a closed, empty overlay |
| Tui.DetailsState.ClampToOverlay | tui.py:180-200 | the cursor and offset after the clamp of `draw_details_overlay`, for its inner height |
| Tui.DetailsState.Enter | tui.py:335-362 | without rows nothing changes; a blank row raises and nothing changes; otherwise the report on the target opens at its top; corrected on the ASN tab, see ## Findings |
| Tui.DetailsState.Show | tui.py:342-346 | the overlay opens on the title and lines, scrolled to the top |
| Tui.FirstToken | tui.py:341 | `split()[0]` succeeds exactly on a non-blank row, giving a non-empty word |
| Tui.SelectedIndex | tui.py:338 | the index is on a row, and is the cursor when the cursor is on a row |
| Tui.EnterTarget | tui.py:336-357 | `None` exactly without rows; a target exactly when the selected row's key text is not blank; corrected on the ASN tab, see ## Findings |
| Tui.EnterOpensHighlighted | tui.py:335-341 | Enter opens the row the redraw's clamp highlights, whatever the offset and the height |
| Tui.IpRowTarget | tui.py:339-346 | Enter on an address row (`tui.py:233`, `tui.py:239`) opens that address |
| Tui.SubnetRowTarget | tui.py:347-353 | Enter on a subnet row (`tui.py:247`) opens that subnet |
| Tui.AsnRowTarget | tui.py:354-362 | corrected: Enter on an ASN row (`tui.py:252`) opens that ASN, whatever its length |
| Tui.AsnKeyAsWritten | tui.py:356-357 | as written: a key exactly for a non-blank row |
| Tui.AsnKeyAsWrittenLoses | tui.py:252 | as written: an ASN shorter than six characters is read as the empty ASN; six or more survive |
| Tui.AsnKeyAsWrittenExample | tui.py:252 | as written, Enter on AS13335 opens the empty ASN |
| Tui.FirstTokenPadded | tui.py:341 | the first word of a word padded on the left with spaces is that word |
| Tui.Keyboard.constructor | tui.py:214 | the given keys wait, oldest first |
| Tui.Keyboard.GetCh | tui.py:96 | `getch()` in no-delay mode: the oldest key, or -1 when none waits |
| Tui.DecodeKey | tui.py:95-130 | -1 on no input; a non-ESC key returns unchanged; one to four keys are consumed |
| Tui.DecodeKeyEscapes | tui.py:107-129 | each of the ten sequences reads as its key and consumes exactly itself |
| Tui.DecodeKeyTable | tui.py:95-130 | an ESC reads as another key exactly when the keys start with one of the ten sequences; otherwise it is 27 |
| Tui.DecodeKeyDropsAfterEsc | tui.py:99-103 | a key other than `[` after an ESC is consumed and lost |
| Tui.ReadKey | tui.py:95-130 | `_read_key` returns and consumes what the decoder specifies |
| Tui.Prompted | tui.py:70-92 | the prompt consumes a prefix of the keys, and all of them while no ESC or Enter has come |
| Tui.PromptSearch | tui.py:70-92 | the loop returns and consumes what the fold over the keys specifies |
| Tui.TypedAppends | tui.py:89-92 | printable text is appended to the buffer |
| Tui.TypedOne | tui.py:89-92 | one printable key appends its character |
| Tui.TypeThenEnter | tui.py:83-92 | typing printable text, then Enter, returns the search with the text appended |
| Tui.BackspacesDrop | tui.py:86-88 | as many backspaces as characters typed restore the buffer |
| Tui.TypeThenErase | tui.py:86-92 | typing and then erasing leaves the prompt as if nothing had been typed |
| Tui.EscapeKeepsSearch | tui.py:80-82 | ESC returns the old search, whatever was typed before it |

## Left out

- Drawing and the terminal (`safe_addnstr`, `draw_tabs`, `draw_footer`, `draw_events_panel`, the drawing in `draw_list_panel` and `draw_details_overlay`, `curs_set`, colours). These are rendering through curses.
- The rest of `run_tui` is not modelled: tab switching, the Up/Down/PgUp/PgDn/Home/End cursor moves, ESC clearing the search, and the render throttle. Only Enter, the clamps and the key and prompt helpers are modelled.
- Tui.PromptSearch: in no-delay mode the source keeps polling when no key is waiting. The model returns `None` once the waiting keys run out, because a busy wait on the terminal has no finite model.
- The detail reports `get_ip_details`, `get_subnet_details` and `get_asn_details`, and the listing queries `get_sqlite_rows`, `get_subnet_rows` and `get_asn_rows`. These are string rendering over SQL queries. Enter takes the reports as a function parameter.
- SQLite itself: connections, pragmas, the `LIKE` listing queries, and errors other than the `ip_to_subnet` exception inside an upsert. Commit and rollback are an all-or-nothing snapshot of the tables.
- App.App.BootstrapRealtimeFromCache: the `except` branch at app.py:104-105 is not modelled, since listing the in-memory tables cannot raise.
- App.App.ApplyAsn: the `except` branch at app.py:286-288 is not modelled, since applying answers to the in-memory tables cannot raise. The `except` at app.py:275-277 cannot fire either, because the lookup catches every exception itself.
- App.App.constructor: it sets the fields only. The start-up work of `__init__` at app.py:67-78 (import, bootstrap, first recount and commit) is the sequence of the corresponding methods.
- Tie orders SQL leaves open: rows with equal `last_seen_ts`, `timeofban` or `bancount`, the order of `GROUP BY` groups, and the bare `jail` column in the grouped `bips` query. The model picks the first row in table order.
- `source_fingerprint`, `_connect_ro`, `_table_exists` and `_columns` are file-system and SQLite introspection. The fingerprint is a parameter, and each table is given as its column set and rows.
- The `subprocess.run` of `nc` and of `fail2ban-client` are foreign processes. Each is a parameter returning an exception, or an exit code with a text.
- `time.time()`, `now_ts()` and `now_utc_str()` are clocks. The float intervals become integer milliseconds. App.App.ProcessLogTails and App.App.LogSys take one `ts` per call, so every event of one call carries the same time, where the source reads `now_ts()` for each event.
- The date formatting of `fmt_epoch_utc` is the `datetime` library, and is a function parameter.
- Text decoding is not modelled: UTF-8 with replacement, universal newlines, and Unicode classes in the regular expressions (`\d`, `\w` and `\b` are ASCII here).
- Tailer.TailFile.TryOpen: when `open()` fails after a rotation, the source has already closed the old handle; the model keeps the fields as they were and does not track that the handle is closed. The exception then ends the program, whose shutdown in main.py is not part of this model.
- Text.Lower: folds ASCII capitals only. Python's `lower()` folds all of Unicode and can change the length (`"\u0130".lower()` has two characters). The search compares addresses, which have no letters (QueryProps.MatchingAddress).
- `periodic` and `close` only chain the modelled operations or release resources.
- QueryProps.RealtimeRowsSorted: the rows are proved sorted and a permutation of the live, matching rows. That tied rows keep insertion order is not stated.

## Findings

| source | as written | input that shows it | evidently intended | confidence | as-written member | corrected member |
|---|---|---|---|---|---|---|
| tui.py:356-357 | the ASN row is `"AS" + asn.rjust(6)` (tui.py:252); Enter takes `split()[0]` and then strips `AS` | ASN `13335`: the row starts `AS 13335`, so the first word is `AS` and the report opens on the empty ASN | strip `AS` from the row, then take the first word, so any ASN is read back | not executed | Tui.AsnKeyAsWrittenLoses | Tui.AsnRowTarget |
| app.py:261-264 | `refresh_asn` calls `list_ips_needing_asn_refresh`, which `CacheDB` does not define | any call past the gates: an `AttributeError` is caught and logged, and `(0, 0)` is returned, so no address is ever looked up | scan `ip_cache` for rows with missing or expired provider columns past the cursor, in batches | not executed | RefreshProps.RefreshedAsWrittenNeverAsks | RefreshProps.RefreshedAsks |
| utils.py:22 | the placeholder literal is the three characters `â€”` | `fmt_epoch_utc(None)` | a single em dash, which those three characters encode as UTF-8 read as cp1252 | not executed | Utils.PlaceholderIsMojibake | Utils.FmtEpochUtc |
