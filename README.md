# MariaDB wsrep integration: verified model of its core

This project models the core of MariaDB's integration with the wsrep
replication API (Galera). It covers five parts:

- **Write-set construction** (`WriteSet`, sql/wsrep_binlog.cc). A
  transaction's binlog cache is drained incrementally, from a saved offset,
  into a growable buffer or straight into the replication provider, under
  the `wsrep_max_ws_size` limit. A failure inside the loop leaves the
  offset alone and runs the writer's cleanup; a failed first reposition
  returns 1 and changes nothing.
- **Group-commit ordering** (`GroupCommit`, sql/wsrep_binlog.cc). The
  process-wide `commit_order_tail`, the registering and unregistering of a
  session's `wait_for_commit` handle, and the decision whether a commit
  goes through the binlog.
- **Provider option names** (`ProviderOptions`, sql/wsrep_server_state.cc).
  Each provider system variable gets a plugin option name with the prefix
  `wsrep-provider-` and `_` rewritten to `-`. Such a name is turned back
  into the provider's option name, e.g. `wsrep-provider-repl-max-ws-size`
  becomes `repl.max_ws_size`. When an option is set, `;name=value` is
  appended to the extra provider options.
- **Certification-key audit** (`KeyCheck`, sql/wsrep_key_check.cc). Every
  granted table lock the session holds is checked for a matching shared
  `(db, table)` key, apart from the exempt schemas and tables. A missing key
  is reported as a warning.
- **Connection-monitor cache** (`ConnectionMonitor`,
  sql/wsrep_connection_monitor_plugin.cc). The list of open provider
  connections is keyed by address alone. Adding a known address changes
  nothing, and removing erases the first entry with that address.

Two small modules support them. `Common` holds the `Option` type.
`CString` models C strings (no NUL inside) and `strncmp(a, b, n) == 0`.

Pure code is modelled as functions with lemmas. Code that loops or mutates
in place takes two forms:

- a method with loop invariants, proved equal to a reference function;
- a class whose methods update its fields, proved against a value-level
  step function.

Where the code does something other than what it evidently means, the
model follows the code:

- The literal names in `check_key_for_ticket` suggest an exact-name test,
  but its `strncmp` is bounded by the length of the ticket's own name. So
  every schema whose name is a beginning of `performance_schema` is exempt,
  and so is every table whose name is a beginning of `gtid_slave_pos` (the
  empty name included). `Exempt`, `ExemptIsGuardChain` and `ShortTableNameNeverWarns` state this.
- `wsrep_connection_monitor_update` is not reproduced (see Left out).

## Model

| member | source | states |
|---|---|---|
| `CString.StrNCmpZero` | sql/wsrep_key_check.cc:22-28 | `strncmp(a, b, n) == 0` holds exactly when, at each of the first `n` indices not past a terminator of `a`, both strings hold the same character; `StrNCmpZeroIsTakeEqual` ties it to the first `n` characters |
| `CString.StrNCmpZeroIsTakeEqual` | sql/wsrep_key_check.cc:22-28 | over C strings, `strncmp(a, b, n) == 0` holds exactly when the first `n` characters of both strings are equal, so the comparison stops early at a shared terminator |
| `CString.StrNCmpZeroWhenPrefixOf` | sql/wsrep_key_check.cc:22-28 | `strncmp(a, b, strlen(b)) == 0` holds exactly when `b` is a prefix of `a`: a name that is a beginning of the literal (the empty name included) passes, and a name passes the prefix test of sql/wsrep_server_state.cc:151-152 exactly when it starts with the prefix |
| `WriteSet.CleanupAfterError` | sql/wsrep_binlog.cc:31-47 | the buffer writer's cleanup empties the buffer; the provider writer keeps the base class's empty hook and is unchanged; the kind of writer is kept |
| `WriteSet.Write` | sql/wsrep_binlog.cc:41-59 | an append answers the writer's next status (always 0 for the buffer, the provider's next status otherwise) and never changes the kind of writer |
| `WriteSet.WriteEffect` | sql/wsrep_binlog.cc:41-59 | the destination keeps the chunk, appended after what it held, exactly when the append answers 0, and is unchanged otherwise |
| `WriteSet.WriteShiftsReplies` | sql/wsrep_binlog.cc:56-59 | each append consumes one of the provider's answers |
| `WriteSet.AcceptsNextAfterWrite` | sql/wsrep_binlog.cc:109-113 | the writer accepts its next n+1 appends exactly when it accepts this one and, afterwards, the next n |
| `WriteSet.DrainStatus` | sql/wsrep_binlog.cc:90-115 | the reference drain loop `Drain` ends with status 0 or 1; `DrainSucceedsIff`, `DrainDeliversAll`, `DrainNeverExceedsLimit` and `DrainKeepsKind` state when it succeeds, what the writer receives and that the kind of writer is kept |
| `WriteSet.DrainSucceedsIff` | sql/wsrep_binlog.cc:90-115 | the drain loop ends with 0 exactly when the running total never exceeds the limit (reaching it is allowed) and every append is answered 0 |
| `WriteSet.DrainDeliversAll` | sql/wsrep_binlog.cc:90-115 | when the drain loop ends with 0, the writer has received every chunk, in order, exactly once |
| `WriteSet.DrainUnfold` | sql/wsrep_binlog.cc:94-114 | one turn of the loop: crossing the limit fails without writing, a failed append fails after it, and otherwise the loop goes on with the next refill |
| `WriteSet.DrainCache` | sql/wsrep_binlog.cc:88-119 | the do/while loop over the refills computes exactly the reference drain, a status of 0 or 1; on 0 the read position has reached the end of the cache, the saved position |
| `WriteSet.DrainNeverExceedsLimit` | sql/wsrep_binlog.cc:97-108 | whatever the outcome, the writer receives a prefix of the offered bytes and never more than the remaining limit; the chunk that crosses the limit is not written |
| `WriteSet.DrainKeepsStatuses` | sql/wsrep_binlog.cc:56-59 | draining into the provider leaves it a provider with the same list of answers, so a later drain gets the answers not yet consumed |
| `WriteSet.DrainKeepsKind` | sql/wsrep_binlog.cc:90-115 | the drain loop leaves a buffer writer a buffer writer and a provider writer a provider writer |
| `WriteSet.WriteCacheInc` | sql/wsrep_binlog.cc:75-133 | a failed first reposition returns 1 with nothing written, cleaned or moved. Otherwise the result is 0 exactly when the unread bytes fit the limit and every append succeeds; then the offset moves to the saved end position and the writer holds exactly the unread bytes. On failure the offset stays and the writer's cleanup has run (an emptied buffer). The cache is left write-ready at its end |
| `WriteSet.WriteCacheBuf` | sql/wsrep_binlog.cc:135-140 | draining the whole cache into a buffer succeeds exactly when it fits the limit, appending the cache's contents; on a failure inside the loop the buffer is emptied; a failed first reposition leaves the buffer and the cache as they were |
| `WriteSet.WriteCache` | sql/wsrep_binlog.cc:142-146 | draining into the provider succeeds exactly when the bytes fit and the provider accepts every append; the provider only ever gains a prefix of the unread bytes, at most the limit, and the offset moves to the end only on success; a failed first reposition leaves the provider and the cache as they were; the provider's list of answers is kept |
| `GroupCommit.RegisterStep` | sql/wsrep_binlog.cc:360-388 | registration keeps every link inside the arena of handles |
| `GroupCommit.UnregisterStep` | sql/wsrep_binlog.cc:390-408 | unregistration keeps every link inside the arena of handles |
| `GroupCommit.RegisterAll` | sql/wsrep_binlog.cc:371-379 | a series of registrations keeps every link inside the arena |
| `GroupCommit.CommitWillWriteBinlog` | sql/wsrep_binlog.cc:347-353 | never true with the binlog emulated; with the binlog on, true for a local session and for an applier with `log_slave_updates`; false for a session that is neither |
| `GroupCommit.WillWriteBinlogRegisters` | sql/wsrep_binlog.cc:360-379 | when the commit will write the binlog, registering makes the session's handle the tail and its `wait_for_commit_ptr` |
| `GroupCommit.EmulatedRegistersNothing` | sql/wsrep_binlog.cc:363-367 | with the binlog emulated, any number of registrations leave the whole state unchanged |
| `GroupCommit.RegisterAllSnoc` | sql/wsrep_binlog.cc:360-388 | a run of registrations is the run without its last one followed by the last one |
| `GroupCommit.RegisterAllTail` | sql/wsrep_binlog.cc:378 | after registrations in order, the tail is the handle of the last session registered |
| `GroupCommit.RegisterAllWaitPtr` | sql/wsrep_binlog.cc:371 | every registered session points at its own handle; every other session's pointer is unchanged |
| `GroupCommit.RegisterAllPriorOthers` | sql/wsrep_binlog.cc:373-376 | the handles of sessions that did not register are not touched |
| `GroupCommit.RegisterAllPriorChain` | sql/wsrep_binlog.cc:373-378 | with distinct sessions, each registered handle waits for the one registered just before it, and the first waits for the old tail if there was one |
| `GroupCommit.RegisterChain` | sql/wsrep_binlog.cc:371-379 | registering distinct sessions in order chains each handle to the one registered before it, the first to the old tail, and leaves the last as the tail; no other handle or session changes |
| `GroupCommit.TailClearedOnlyByLast` | sql/wsrep_binlog.cc:400-403 | after an in-order registration, unregistering any session but the last leaves the tail on the last; unregistering the last clears it |
| `GroupCommit.UnregisterTwiceIsUnregisterOnce` | sql/wsrep_binlog.cc:390-408 | unregistration is idempotent, because the session's pointer is cleared |
| `GroupCommit.ThreeInOrder` | sql/wsrep_binlog.cc:360-408 | sessions A, B, C registered on an empty tail form the chain C→B→A; the commits of A and B leave the tail on C, and C's commit clears it |
| `GroupCommit.GroupCommitOrder.constructor` | sql/wsrep_binlog.cc:358 | the tail starts null and no handle waits for any other |
| `GroupCommit.GroupCommitOrder.Register` | sql/wsrep_binlog.cc:360-388 | the fields change as the register step says. Emulated: nothing changes. Otherwise the session points at its own handle, the handle waits for the old tail if there is one, and the handle becomes the tail |
| `GroupCommit.GroupCommitOrder.Unregister` | sql/wsrep_binlog.cc:390-408 | the fields change as the unregister step says. With a null pointer nothing changes. Otherwise the handle stops waiting, the tail is cleared only if it is that handle, and the pointer becomes null |
| `ProviderOptions.PrefixLengthMatches` | sql/wsrep_server_state.cc:39-40 | the separately declared prefix length 15 is the length of `wsrep-provider-` |
| `ProviderOptions.Find` | sql/wsrep_server_state.cc:158-159 | `find('-')` gives the first index holding the character, or the length when it is absent |
| `ProviderOptions.Replace` | sql/wsrep_server_state.cc:166-172 | every occurrence of one character is replaced and nothing else changes |
| `ProviderOptions.MangledUnique` | sql/wsrep_server_state.cc:166-172 | the dash rewriting determines its result |
| `ProviderOptions.ProviderName` | sql/wsrep_server_state.cc:146-175 | without the prefix, or with no `-` after it, the result is empty. Otherwise the part after the prefix has its first `-` made `.` and every later `-` made `_`; no `-` is left and the length is the name's minus 15 |
| `ProviderOptions.MangleAt` | sql/wsrep_server_state.cc:158-172 | splitting the remainder at its first `-` into the part before, a `.`, and the part after with `-` made `_` obeys the rewriting rule and leaves no `-` |
| `ProviderOptions.ProviderNameIsMangled` | sql/wsrep_server_state.cc:158-174 | any string rewritten from the name's remainder by that rule is the provider name |
| `ProviderOptions.OptionNameToProviderName` | sql/wsrep_server_state.cc:146-175 | the `strncmp`, `find` and in-place loop of the source compute exactly `ProviderName` |
| `ProviderOptions.RewriteDashes` | sql/wsrep_server_state.cc:166-172 | the loop turns the first `-` into `.`, every later `-` into `_`, and keeps every other character |
| `ProviderOptions.ProviderOptionString` | sql/wsrep_server_state.cc:177-183 | for an option name without `=`, `name=value` splits back at its first `=` into the provider name and the value, whatever the value holds |
| `ProviderOptions.OptionNameFor` | sql/wsrep_server_state.cc:106-115 | the option name of a variable carries the prefix, is 15 characters longer than the variable name and has no `_`; `ProviderNameOfOptionName` turns it back into the provider's name |
| `ProviderOptions.MyOptionName` | sql/wsrep_server_state.cc:106-115 | the option name is the prefix followed by the variable name with `_` rewritten to `-`; it has no `_` and keeps the prefix |
| `ProviderOptions.ProviderNameOfOptionName` | sql/wsrep_server_state.cc:106-175 | a variable name without `-` whose parts are joined by `_` is turned back by `option_name_to_provider_name` into the variable name with only its first `_` made `.` |
| `ProviderOptions.OptionNameRest` | sql/wsrep_server_state.cc:110-114 | an option name starts with the prefix, followed by the variable name with `_` made `-` |
| `ProviderOptions.FindAfterReplace` | sql/wsrep_server_state.cc:158-159 | for a variable name without `-`, the first `-` of its rewritten form is where its first `_` was |
| `ProviderOptions.MangledOfVarName` | sql/wsrep_server_state.cc:161-172 | rewriting the option name of such a variable back by the provider rule gives the variable name with its first `_` made `.` |
| `ProviderOptions.ProviderNameOfGroup` | sql/wsrep_server_state.cc:158-172 | prefix, group, `-`, rest becomes group, `.`, then rest with `-` made `_` |
| `ProviderOptions.ReplaceAppend` | sql/wsrep_server_state.cc:166-172 | character replacement distributes over concatenation |
| `ProviderOptions.ReplaceAbsent` | sql/wsrep_server_state.cc:166-172 | replacing an absent character changes nothing |
| `ProviderOptions.ProviderNameExample` | sql/wsrep_server_state.cc:146-149 | `wsrep-provider-repl-max-ws-size` becomes `repl.max_ws_size` |
| `ProviderOptions.OptionsFor` | sql/wsrep_server_state.cc:134-140 | at most one option per variable, each with a name that carries the prefix |
| `ProviderOptions.OptionsForAppend` | sql/wsrep_server_state.cc:134-140 | options for two runs of variables are the options for each run, in order |
| `ProviderOptions.OptionsForSingle` | sql/wsrep_server_state.cc:135-139 | a null variable gives no option; any other gives the option named after it |
| `ProviderOptions.MakeMyOptions` | sql/wsrep_server_state.cc:130-144 | the options already present, one named option per non-null variable in order, then one terminator with a null name |
| `ProviderOptions.ExtraOptions.constructor` | sql/wsrep_server_state.cc:188 | the extra options string starts as given |
| `ProviderOptions.OptionChanged` | sql/wsrep_server_state.cc:185-193 | appends `;` plus `name=value` under the provider name to the extra options, keeps what was there as a prefix, and answers 0 |
| `KeyCheck.KeyFor` | sql/wsrep_key_check.cc:30-32 | the key a table lock calls for is shared and has the two parts `db`, `name` |
| `KeyCheck.ExemptIsGuardChain` | sql/wsrep_key_check.cc:13-28 | for names without NUL, the prefix form of the exemption is exactly the source's guard chain: not granted, another namespace, another session, or a `strncmp` bounded by the ticket's name length that answers 0 |
| `KeyCheck.CheckKeyForTicket` | sql/wsrep_key_check.cc:6-43 | always answers 0; warns exactly when the lock is not exempt (granted, table namespace, own session, neither exempt name) and its key is missing; the warning carries db, name, lock type and query |
| `KeyCheck.CheckKeys` | sql/wsrep_key_check.cc:45-48 | visiting the tickets in order logs exactly the warnings of the offending tickets, in order; at most one per ticket |
| `KeyCheck.OffendingWarningsExact` | sql/wsrep_key_check.cc:34-40 | every offending lock is reported, and every report names an offending lock |
| `KeyCheck.ExemptSchemaNeverWarns` | sql/wsrep_key_check.cc:22-24 | a lock in `performance_schema` never draws a warning, whatever the keys |
| `KeyCheck.ShortTableNameNeverWarns` | sql/wsrep_key_check.cc:26-28 | because the comparison is bounded by the table name's length, a table named `gtid` in any schema never draws a warning |
| `KeyCheck.KeyedLockNeverWarns` | sql/wsrep_key_check.cc:30-40 | a lock whose shared `(db, name)` key is held draws no warning |
| `KeyCheck.MoreKeysFewerWarnings` | sql/wsrep_key_check.cc:34-40 | more keys never add a warning: the warnings are fewer and each was drawn before |
| `ConnectionMonitor.FindAddress` | sql/wsrep_connection_monitor_plugin.cc:235-246 | the search stops at the first entry with the address, or at the end when none has it |
| `ConnectionMonitor.FindAddressFound` | sql/wsrep_connection_monitor_plugin.cc:249 | the search stops before the end exactly when some entry has the address |
| `ConnectionMonitor.CountAddressAppend` | sql/wsrep_connection_monitor_plugin.cc:47 | entries with an address are counted additively over concatenation |
| `ConnectionMonitor.Removed` | sql/wsrep_connection_monitor_plugin.cc:205-222 | removal drops one entry when the address is present and nothing otherwise, and never adds one; `RemovedCount`, `RemovedKeepsOrder` and `RemoveUndoesAdd` state which entry and in what order |
| `ConnectionMonitor.Added` | sql/wsrep_connection_monitor_plugin.cc:224-258 | adding keeps the list as a prefix, grows it by at most one entry, and leaves the address known; `AddedNewOrKnown` and `AddedIdempotent` state when it grows |
| `ConnectionMonitor.RemovedCount` | sql/wsrep_connection_monitor_plugin.cc:205-222 | removal erases exactly one entry with the address when there is one, and none otherwise |
| `ConnectionMonitor.RemovedKeepsOrder` | sql/wsrep_connection_monitor_plugin.cc:215-218 | the entries before and after the erased one keep their order |
| `ConnectionMonitor.RemovedLeavesNone` | sql/wsrep_connection_monitor_plugin.cc:205-222 | when addresses are unique, no entry with the address remains after removal |
| `ConnectionMonitor.AddedIdempotent` | sql/wsrep_connection_monitor_plugin.cc:224-258 | after adding, the address is known, and adding it again, under any scheme, changes nothing |
| `ConnectionMonitor.AddedNewOrKnown` | sql/wsrep_connection_monitor_plugin.cc:248-255 | a known address leaves the list unchanged; a new one appends `{"", scheme, addr}` at the back |
| `ConnectionMonitor.RemoveUndoesAdd` | sql/wsrep_connection_monitor_plugin.cc:205-258 | adding a new address and then removing it restores the list |
| `ConnectionMonitor.UniquePreserved` | sql/wsrep_connection_monitor_plugin.cc:205-258 | both operations keep the addresses of the list unique |
| `ConnectionMonitor.ConnectionCache.constructor` | sql/wsrep_connection_monitor_plugin.cc:47 | the cache starts empty |
| `ConnectionMonitor.ConnectionCache.Remove` | sql/wsrep_connection_monitor_plugin.cc:205-222 | the loop erases the first entry whose address matches, ignoring the scheme; the list shrinks by one when there is one and is unchanged otherwise |
| `ConnectionMonitor.ConnectionCache.Add` | sql/wsrep_connection_monitor_plugin.cc:224-258 | the loop appends a new entry only when no entry has the address; afterwards the address is known |

## Left out

- The IO_CACHE internals are not modelled. `reinit_io_cache`,
  `my_b_bytes_in_cache` and `my_b_fill` become a flag saying whether the
  first reposition fails, plus an arbitrary chunking of the unread bytes.
  The `cache->file >= 0` test of the loop is covered by the chunking,
  which may end after the in-memory part. A 0 from `my_b_fill` is taken to
  mean the end of the cache: the chunking covers every unread byte, where
  the source checks that total only in a debug assertion.
- The final reposition back to WRITE mode always succeeds in the model.
  In the source its failure is only logged and does not change the result.
- `uint length`, `size_t` and `my_off_t` are unbounded integers. Overflow
  of the running total is not modelled.
- The provider's `append_data` is a sequence of statuses. A failed append
  is taken to keep nothing, because the provider's behaviour is not part
  of this model.
- The growable buffer and the provider are values passed in and returned.
  The update in place through a reference is not modelled.
- `wsrep_write_cache_data`, the file and dummy-event helpers and the
  `prepare_*` wrappers of sql/wsrep_binlog.cc are not part of this model.
- `GroupCommit.GroupCommitOrder.Register` and
  `GroupCommit.GroupCommitOrder.Unregister` do not check the debug
  assertion that the transaction is ordered (sql/wsrep_binlog.cc:369 and
  sql/wsrep_binlog.cc:392). The caller's ordering is outside this model.
- `wakeup_subsequent_commits`, the waiting of a handle for its prior commit
  and `LOCK_wsrep_group_commit` are not modelled. All updates of the tail
  happen inside that one critical section.
- `ProviderOptions.OptionNameToProviderName` gives the empty string for the
  two cases the source flags with `assert(0)`, as a release build does.
  Debug-build aborts are not modelled.
- `my_option_init` is modelled only for the option name. Limits, value
  pointers, `app_type` and `my_strdup` are not part of this model.
- `ProviderOptions.OptionChanged` takes the extra-options string as an
  explicit object instead of reading it through `opt->app_type`. It has
  no `filename` parameter, since the source does not use it.
- The server-state lifecycle, `parse_config_params`, `handle_options`,
  `load_defaults` and the provider loading of sql/wsrep_server_state.cc are
  not part of this model.
- `KeyCheck.CheckKeys` stands for `mdl_iterate` by visiting a given sequence
  of tickets in order. The MDL subsystem, and the order in which it hands
  tickets out, are not part of this model.
- `wsrep_connection_monitor_update` is not reproduced. As written it does
  not compile: a `break` without its semicolon, and the same case label
  (`connection_disconnected`) twice. The second case would also fall
  through into the error branch. Its evident intent, routing a disconnect
  to `Remove` and a connect to `Add`, is what the two methods cover.
- The connection monitor's mutex, its `THD` and thread setup, its debug
  logging and the information-schema table fill are not modelled.
- Logging (`WSREP_WARN`, `WSREP_ERROR`, `WSREP_DEBUG`) is modelled only
  where the logged warning is the result, in `KeyCheck`.
