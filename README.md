# HappyBase on Cloud Bigtable: a Dafny model of the client core

This project models the core of the HappyBase-compatible layer over Google
Cloud Bigtable, and proves properties of that model:

- the mutation `Batch`: a buffer of row-mutation builders keyed by row, a
  mutation counter, automatic flushing once `batch_size` is reached, and
  sending on leaving a `with` block;
- the column-specifier parser `_get_column_pairs`, shared by put, delete,
  reads and scans;
- the `ConnectionPool`: a LIFO stack of connections, where each thread
  reuses the connection it already holds, plus the pool constructor's
  checks and instance lookup;
- the pure helpers of `Table`:
  - row-key successors for prefix scans;
  - filter chains for reads and scans;
  - read time ranges;
  - the dictionary view of garbage-collection rules;
  - the 64-bit big-endian counter encoding and the `counter_inc` result check;
- the name and option logic of `Connection`:
  - instance discovery;
  - constructor argument checks;
  - table-name prefixing and the table listing that strips the prefix;
  - the column-family options of `create_table`.

Modules:

| module | file | holds |
|---|---|---|
| `Common` | `common.dfy` | `Option`, `Result`, the error kinds and the exception class each is raised as, Python argument values |
| `Bigtable` | `bigtable.dfy` | the values the layer hands to Bigtable (mutations, filters, GC rules, timestamp ranges, instances) |
| `ColumnPairs` | `columns.dfy` | column-specifier parsing |
| `Batches` | `batch.dfy` | the `Batch` class and its buffer model |
| `TableHelpers` | `table.dfy` | the helpers of `Table` |
| `Connections` | `connection.dfy` | `Connection` name and option logic |
| `Pools` | `pool.dfy` | the `ConnectionPool` class and its step functions |

State the Python code changes in place is modelled as Dafny classes:

- `Batch` has its row map, row order and counter as fields.
- `LowLevelTable` records every `mutate_rows` call.
- `ConnectionPool` has its stack and per-thread records as fields.

Each method on these classes is proved against a pure step function:

- `Touch`, `Record` and `AutoFlush` for the batch;
- `EnterStep` and `ExitStep` for the pool.

The properties are then proved about those functions.

Times are whole milliseconds since the epoch, and byte strings are
sequences of bytes.

Four behaviours of the code that its documentation leaves unclear or
contradicts; the model follows the code:

- A specifier `cf::` parses to family `cf` with the empty qualifier. Only
  one trailing `:` is stripped before splitting.
- `delete(row, columns=[])` records no mutation but still runs
  `_try_send`.
- The pool returns a connection to its stack only when the `with` block
  ends normally. The generator has no `try/finally`.
- The docstrings of `rows`, `cells`, `scan` and `_filter_chain_helper` say
  a timestamp selects cells "before (or at)" it. `_convert_to_time_range` builds an
  exclusive end, so reads see only cells strictly before it
  (`ConvertToTimeRange`).

## Model

| member | source | states |
|---|---|---|
| ColumnPairs.StripTrailingColon | src/google/cloud/happybase/batch.py:322-324 | a specifier ending in `:` loses exactly that one `:`; any other specifier is unchanged |
| ColumnPairs.FirstColon | src/google/cloud/happybase/batch.py:333 | the index is that of a `:`, and no `:` comes before it |
| ColumnPairs.SplitPair | src/google/cloud/happybase/table.py:573 | splitting into two parts succeeds exactly when there is one `:`; both parts are `:`-free and re-join to the input; any other count is the unpacking ValueError, as at table.py:858 too |
| ColumnPairs.ParseColumn | src/google/cloud/happybase/batch.py:320-335 | after one trailing `:` is dropped: no separator names a whole family, which is refused when a qualifier is required; one separator gives family and qualifier; more are refused; a parsed pair renders back to the stripped specifier and holds no `:` |
| ColumnPairs.GetColumnPairs | src/google/cloud/happybase/batch.py:318-337 | succeeds exactly when every specifier parses; the result has one pair per specifier, in order, each that specifier's parse |
| ColumnPairs.GetColumnPairsFirstError | src/google/cloud/happybase/batch.py:319-335 | the error raised is that of the first malformed specifier |
| ColumnPairs.ParseRender | src/google/cloud/happybase/batch.py:320-335 | parsing the rendering of a pair gives the pair back (round trip), for every pair the parser can produce: `:`-free parts and a non-empty qualifier. The empty qualifier is the one exception, and it comes from the source itself: (`cf`, empty) renders as `cf:`, which parses back as the whole family `cf` |
| ColumnPairs.ParseIgnoresTrailingColon | src/google/cloud/happybase/batch.py:322-324 | `x:` parses like `x` for every `x` not already ending in `:` |
| ColumnPairs.SplitUnique | src/google/cloud/happybase/batch.py:333 | a string has only one split at a single `:` |
| Batches.BatchArgsError | src/google/cloud/happybase/batch.py:87-93 | a batch_size together with a transaction is refused as a TypeError, and a batch_size of 0 or less as a ValueError; nothing else is refused |
| Batches.DeleteRangeFor | src/google/cloud/happybase/batch.py:97-108 | with a timestamp, deletes cover exactly the times at or before it (the exclusive end is timestamp + 1 ms); without one there is no range |
| Batches.Touch | src/google/cloud/happybase/batch.py:141-145 | a known row keeps its builder and the buffer is unchanged; a new row gets an empty builder at the end of the insertion order; the counter never changes |
| Batches.Record | src/google/cloud/happybase/batch.py:172-178 | the row's mutations are extended by the new ones, the row order is kept and the counter rises by n; the buffer stays well formed |
| Batches.Contents | src/google/cloud/happybase/batch.py:119 | one builder per buffered row, in insertion order, each carrying that row's mutations |
| Batches.Flushes | src/google/cloud/happybase/batch.py:126 | a flush needs a set batch_size reached by the counter; with a positive batch_size, reaching it is enough |
| Batches.AutoFlush | src/google/cloud/happybase/batch.py:124-127 | either nothing is sent and the buffer is unchanged, or exactly one call sends every builder and the buffer is empty; the latter happens exactly when the threshold test holds |
| Batches.ContentsComplete | src/google/cloud/happybase/batch.py:118-119 | a send hands the table every buffered row exactly once, with all of its mutations |
| Batches.AutoFlushBelowThreshold | src/google/cloud/happybase/batch.py:124-127 | with a positive batch_size the counter is below it after `_try_send`, which sends exactly when the threshold was reached |
| Batches.DataKeys | src/google/cloud/happybase/batch.py:170 | the keys of `data`, in iteration order |
| Batches.Lookup | src/google/cloud/happybase/batch.py:173 | a value it finds is stored under that key in the dict (an entry `(key, value)` of its items), and it finds nothing only when no key of the dict equals the key |
| Batches.PutCell | src/google/cloud/happybase/batch.py:174-176 | a set_cell on the pair's family and qualifier, holding the given value at the batch timestamp |
| Batches.PutCells | src/google/cloud/happybase/batch.py:172-176 | one cell per parsed key, the i-th setting the i-th pair's column (its family, and its qualifier when it has one) to the i-th value at the batch timestamp |
| Batches.PutCellsAsWritten | src/google/cloud/happybase/batch.py:172-176 | when the lookups all succeed, one cell per parsed key |
| Batches.PutAsWrittenAgrees | src/google/cloud/happybase/batch.py:172-176 | for a dict whose keys are exactly the renderings of their pairs, the as-written put sets the same cells as the corrected one |
| Batches.PutTrailingColonKey | src/google/cloud/happybase/batch.py:170-176 | the key `f:q:` passes validation as column `f:q`; the as-written put then fails looking up `f:q`, while the corrected put writes the stored value to `f:q` |
| Batches.TrailingColonKeyValidates | src/google/cloud/happybase/batch.py:170 | a key `f:q:` is accepted by `_get_column_pairs` with a qualifier required, as column `f:q` |
| Batches.TrailingColonKeyMissing | src/google/cloud/happybase/batch.py:173 | the re-joined key is not a key of a dict that holds only `f:q:` |
| Batches.DeleteMutation | src/google/cloud/happybase/batch.py:200-213 | a whole family gives a family delete; a column gives a cell delete confined to the delete range |
| Batches.DeleteMutations | src/google/cloud/happybase/batch.py:199-213 | one delete mutation per parsed column |
| Batches.ColumnDeletes | src/google/cloud/happybase/batch.py:199-213 | fails exactly when a delete range is set and some column names a whole family; in that case the mutations made so far cover the columns before the first such column; otherwise every column gets its family or cell delete, in order |
| Batches.ColumnDeletesStop | src/google/cloud/happybase/batch.py:199-213 | the loop's stopping point (the first refused family delete, or the end) agrees with `ColumnDeletes` |
| Batches.Batch.constructor | src/google/cloud/happybase/batch.py:94-114 | an empty, valid batch whose delete range follows from the timestamp |
| Batches.NewBatch | src/google/cloud/happybase/batch.py:76-114 | fails exactly with the constructor's argument error; otherwise returns a fresh empty batch with the given table, threshold and mode |
| Batches.Batch.Send | src/google/cloud/happybase/batch.py:116-122 | one `mutate_rows` call gets all buffered builders in insertion order; afterwards the buffer is empty and the counter 0 |
| Batches.Batch.TrySend | src/google/cloud/happybase/batch.py:124-127 | the new buffer and the calls made are those of `AutoFlush`; the batch stays valid, with the counter below the threshold |
| Batches.Batch.GetRow | src/google/cloud/happybase/batch.py:141-145 | the buffer becomes `Touch` of the old buffer |
| Batches.Batch.Put | src/google/cloud/happybase/batch.py:167-179 | a malformed key leaves only the touched row and sends nothing; otherwise the row gains one cell per key (the value stored under that key), the counter rises by the number of keys, and `_try_send` runs, also for an empty dict |
| Batches.Batch.RecordAndTrySend | src/google/cloud/happybase/batch.py:172-179 | mutations appended to a row, the counter raised, then `_try_send` |
| Batches.Batch.DeleteColumns | src/google/cloud/happybase/batch.py:181-213 | a malformed specifier changes nothing; otherwise the row gains the mutations of `ColumnDeletes`, which may stop with an error partway through |
| Batches.Batch.RecordDeletes | src/google/cloud/happybase/batch.py:199-213 | the loop records each delete as it is made, so a refused family delete leaves the earlier deletes in the row |
| Batches.Batch.Delete | src/google/cloud/happybase/batch.py:242-258 | without columns: refused under a delete range, otherwise a row delete that counts 1; with columns: the column deletes, then the count grows by the number of specifiers; `_try_send` runs only after success; the row's builder exists afterwards unless that `_try_send` sent the batch, which empties it |
| Batches.Batch.DeleteColumnsAndSend | src/google/cloud/happybase/batch.py:254-258 | the column branch of delete: the error cases leave no send, and success counts every specifier and then runs `_try_send` |
| Batches.Batch.Exit | src/google/cloud/happybase/batch.py:282-287 | sends exactly unless a transactional batch is left through an exception; unsent, the buffer and the table are unchanged |
| TableHelpers.Successor | src/google/cloud/happybase/table.py:706-719 | empty exactly for an all-0xFF key; otherwise the key cut just after its last non-0xFF byte, with that byte raised by one |
| TableHelpers.StringSuccessor | src/google/cloud/happybase/table.py:706-719 | the backward loop computes `Successor` |
| TableHelpers.SuccessorDropsMax | src/google/cloud/happybase/table.py:711-714 | a trailing 0xFF byte does not change the successor |
| TableHelpers.SuccessorRaisesLast | src/google/cloud/happybase/table.py:719 | a last byte below 0xFF is raised and the rest kept |
| TableHelpers.PrefixNotBelow | src/google/cloud/happybase/table.py:896-901 | no key sorts below one of its prefixes |
| TableHelpers.NotBelowAllMax | src/google/cloud/happybase/table.py:896-901 | a key not below an all-0xFF key extends it |
| TableHelpers.RaisedCutRange | src/google/cloud/happybase/table.py:896-901 | the range from a key to its raised cut holds exactly the keys with that prefix |
| TableHelpers.PrefixRange | src/google/cloud/happybase/table.py:896-901 | a scan from `row_prefix` to its successor reads exactly the keys that start with the prefix, including the all-0xFF case where the stop key is empty |
| TableHelpers.SuccessorAbove | src/google/cloud/happybase/table.py:706-719 | a non-empty successor sorts above the key and above every extension of it |
| TableHelpers.ConvertToTimeRange | src/google/cloud/happybase/table.py:739-743 | a timestamp gives a range with an open start that holds exactly the earlier times; no timestamp gives no range |
| TableHelpers.Chained | src/google/cloud/happybase/table.py:868-874 | no filter is an error, one filter stands alone, and several form a chain |
| TableHelpers.FilterChainHelper | src/google/cloud/happybase/table.py:852-874 | the result is a filter exactly when the column, if given, is `fam:qual` and at least one filter is asked for; a column that is not `fam:qual` fails; nothing at all fails; on failure the caller's list is unchanged; otherwise the caller's filters stay first, then come the column's family and qualifier filters, the version limit at the index right after them, and the time range last; one filter stands alone and several are chained |
| TableHelpers.FilterChainWithoutColumn | src/google/cloud/happybase/table.py:862-874 | without a column, the result is the chain of the given filters, the version limit and the time range |
| TableHelpers.ColumnFilter | src/google/cloud/happybase/table.py:936-944 | a whole family gives the family filter; a column gives family and qualifier filters chained |
| TableHelpers.ColumnsFilter | src/google/cloud/happybase/table.py:935-952 | a malformed specifier fails with its parse error, and an empty list fails; one specifier gives its column filter, and several give the union of one column filter per specifier, in order |
| TableHelpers.ScanFilter | src/google/cloud/happybase/table.py:903-916 | the scan filter chains the caller's filter object, the columns filter, the one-version limit and the time range; it fails exactly when the columns fail |
| TableHelpers.ScanFilterHelper | src/google/cloud/happybase/table.py:880-917 | the legacy keywords `batch_size`, `scan_batching` and `sorted_columns` are dropped; then errors come in this order: any other keyword, a limit below 1, a prefix together with a start or stop key, a filter string, then the columns; a prefix becomes the range from the prefix to its successor; otherwise start and stop pass through |
| TableHelpers.RowsRequest | src/google/cloud/happybase/table.py:226-237 | no keys means no read at all; otherwise it fails exactly when the columns fail; a read asks for the given keys, and with no columns and no timestamp the filter is the one-version limit |
| TableHelpers.SimpleRuleDict | src/google/cloud/happybase/table.py:653-656 | a simple rule is a one-entry dictionary |
| TableHelpers.GcRuleToDict | src/google/cloud/happybase/table.py:650-668 | no rule is the empty dictionary; an age rule gives `time_to_live` and a versions rule `max_versions`, each with its value; an intersection of one age and one versions rule, in either order, gives both keys with their values; any other rule, including two rules of the same kind, is returned as itself |
| TableHelpers.GcRuleToDictOrderFree | src/google/cloud/happybase/table.py:657-667 | the two orders of an age and a versions rule read back as the same two-key dictionary |
| TableHelpers.PackI64 | src/google/cloud/happybase/table.py:44 | packing gives eight bytes |
| TableHelpers.UnpackI64 | src/google/cloud/happybase/table.py:45 | unpacking eight bytes gives a signed 64-bit value |
| TableHelpers.FromToBigEndian | src/google/cloud/happybase/table.py:44-45 | reading back the big-endian bytes of a value that fits gives the value |
| TableHelpers.ToFromBigEndian | src/google/cloud/happybase/table.py:44-45 | the big-endian bytes of a byte string's value are the string |
| TableHelpers.UnpackPack | src/google/cloud/happybase/table.py:44-45 | unpacking undoes packing for every 64-bit value |
| TableHelpers.PackUnpack | src/google/cloud/happybase/table.py:44-45 | packing undoes unpacking for every 8-byte string |
| TableHelpers.CounterInc | src/google/cloud/happybase/table.py:570-596 | a column that is not `fam:qual` sends no increment; otherwise the server is asked for exactly that increment; the answer fails if the column is missing, holds other than one cell, or that cell is not eight bytes; a present single eight-byte cell always succeeds, with the signed 64-bit value that packs to the cell |
| TableHelpers.CounterDec | src/google/cloud/happybase/table.py:619 | exactly `counter_inc` with the amount negated: the same increment column, the same errors in the same order (a column that is not `fam:qual`, a missing cell, other than one cell, a cell not eight bytes), and a success is the signed 64-bit value packed in the column's own cell |
| Connections.GetInstance | src/google/cloud/happybase/connection.py:65-99 | succeeds exactly with the single instance and no failed location; failed locations, no instance and several instances each have their own error, checked in that order, all raised as ValueError |
| Connections.HandleLegacyArgs | src/google/cloud/happybase/connection.py:188-200 | only the five legacy keywords are accepted, and they are dropped; any other keyword is refused, the error naming exactly the unexpected ones |
| Connections.NewConnection | src/google/cloud/happybase/connection.py:148-171 | the checks run in order: keywords, prefix type, then separator type, each failing as a TypeError; then the instance lookup, only when no instance was passed, whose own error comes through unchanged; success keeps the prefix, separator and instance |
| Connections.TableName | src/google/cloud/happybase/connection.py:224-227 | without a prefix the name is unchanged; with one, the full name is exactly the prefix, the separator and the short name: it starts with the first two, ends with the name, and is as long as all three together |
| Connections.TableNameInjective | src/google/cloud/happybase/connection.py:224-227 | distinct short names get distinct full names |
| Connections.Tables | src/google/cloud/happybase/connection.py:267-272 | without a prefix every table is listed; the listing is never longer than the instance's |
| Connections.TablesInverse | src/google/cloud/happybase/connection.py:224-272 | a short name is listed exactly when its prefixed full name is one of the instance's tables |
| Connections.TablesNamesExist | src/google/cloud/happybase/connection.py:267-272 | every listed name, prefixed again, is an instance table |
| Connections.ParseFamilyOption | src/google/cloud/happybase/connection.py:446-476 | a rule or None passes through; a dictionary with an explicit `time_to_live` of None fails; otherwise `max_versions` gives a versions rule and `time_to_live` an age rule, both together an intersection with age first, neither no rule |
| Connections.RuleDictRoundTrip | src/google/cloud/happybase/connection.py:446-476 | parsing the option dictionary of no rule, a simple rule, or an age-then-versions intersection gives the rule back; the versions-then-age order comes back reordered, age first |
| Connections.OptionsRoundTrip | src/google/cloud/happybase/connection.py:446-476 | reading back the rule parsed from an option dictionary gives the dictionary, for any dictionary of given integer values under the two supported keys (a `None` value is not covered: `max_versions` of None reads back as no key) |
| Connections.FamilyRules | src/google/cloud/happybase/connection.py:322-329 | succeeds exactly when every option parses; the families are the names with one trailing `:` stripped |
| Connections.FamilyRulesLastWins | src/google/cloud/happybase/connection.py:322-329 | each family gets the rule of the last option given under its name |
| Connections.FamilyRulesPrefixError | src/google/cloud/happybase/connection.py:322-329 | a failure among the first families is the failure of the whole |
| Connections.CreateTable | src/google/cloud/happybase/connection.py:314-333 | a non-dictionary is refused, and so is an empty dictionary; otherwise the loop's result is `FamilyRules` and the table name gets the connection's prefix |
| Pools.Conserved | src/google/cloud/happybase/pool.py:74-84 | the pool invariant the lemmas below preserve: free plus held is the size, no connection is free twice, none is both free and held, and no two threads hold the same one |
| Pools.EnterStep | src/google/cloud/happybase/pool.py:130-146 | a thread with a current connection reuses it and the state is unchanged; otherwise the top of the stack is popped and recorded for the thread; an empty stack fails with NoConnectionsAvailable |
| Pools.ExitStep | src/google/cloud/happybase/pool.py:154-156 | only a newly retrieved connection, left normally, is pushed back and the thread's record removed; other threads' records are untouched; any other exit changes nothing |
| Pools.EnterConserves | src/google/cloud/happybase/pool.py:130-146 | entering keeps every connection either free or held by exactly one thread, with free plus held equal to the size, and the thread holds the lease |
| Pools.ExitConserves | src/google/cloud/happybase/pool.py:154-156 | leaving with the lease that was taken keeps that conservation |
| Pools.ReentrantKeepsState | src/google/cloud/happybase/pool.py:130-133 | a nested block gets the thread's same connection, and leaving it changes nothing |
| Pools.FreshLeaseRoundTrip | src/google/cloud/happybase/pool.py:130-156 | entering and then leaving normally restores the stack and the records exactly |
| Pools.AbnormalExitKeepsLease | src/google/cloud/happybase/pool.py:150-156 | after an exception the connection stays off the stack and the thread reuses it next time |
| Pools.LastReturnedFirstLent | src/google/cloud/happybase/pool.py:74 | the connection returned last is the next one lent out (LIFO) |
| Pools.EmptyStackRefuses | src/google/cloud/happybase/pool.py:98-103 | with every connection on loan, a thread without one is refused |
| Pools.PoolSizeError | src/google/cloud/happybase/pool.py:67-71 | a non-integer size is a TypeError and a size below 1 a ValueError, in that order; every other size is accepted |
| Pools.SlotConnection | src/google/cloud/happybase/pool.py:77-83 | without an `instance` keyword, one looked-up instance is passed to the connection; an explicit instance or None is passed on as given |
| Pools.ConnectionPool.constructor | src/google/cloud/happybase/pool.py:73-84 | the stack holds the built connections in build order, the last on top, and none is on loan |
| Pools.ConnectionPool.AcquireConnection | src/google/cloud/happybase/pool.py:98-103 | pops the top of the stack, or fails with NoConnectionsAvailable and leaves the stack unchanged |
| Pools.ConnectionPool.Enter | src/google/cloud/happybase/pool.py:130-150 | the new state and the lease are those of `EnterStep`; conservation holds |
| Pools.ConnectionPool.Exit | src/google/cloud/happybase/pool.py:152-156 | the new state is that of `ExitStep`; conservation holds |
| Pools.NewPool | src/google/cloud/happybase/pool.py:66-84 | size errors come first, before any lookup; the pool is built exactly when the slot connection is; the stack holds `size` copies of that connection, none on loan; instance lookups are one without the keyword, one per connection for an explicit None, and none for a given instance |

## Left out

- Threads, the pool's lock and thread-local storage are not modelled. A thread is an explicit `ThreadId`, and each step is atomic.
- Blocking and timeouts in `_acquire_connection` are not modelled. An empty stack fails at once, which is what a timed-out wait does. Waiting forever is not modelled.
- The maximum size of the pool's LifoQueue is not modelled. Under the conservation invariant the stack never exceeds it.
- `Connection.open()` and `autoconnect` are not modelled. They are no-ops in this layer.
- Network calls to Bigtable are not modelled: `mutate_rows`, `read_rows`, `list_instances`, `list_tables`, the create and delete requests, and `AppendRow.commit`. A batch logs what it hands `mutate_rows`. The instance and table listings and the commit result are parameters. `mutate_rows` is assumed never to fail.
- The generators behind `scan` and `rows` are not modelled. Only the request they build is.
- Deprecation and legacy-argument warnings are not modelled. The keywords are dropped silently.
- Datetime handling is not modelled. Timestamps are integers in milliseconds, and `time_to_live` is whole seconds where the source uses `timedelta.total_seconds()`.
- Text/bytes conversion is not modelled. Row keys and values are byte sequences; column names and table names are strings. The keys of `put`'s `data` are taken to be the UTF-8 bytes that the value lookup re-encodes to. A dict with text keys is not modelled: its lookup would fail under Python 3.
- Batches.Batch.Put: changes to the row builder are modelled as a returned sequence of cells. As written, a key that fails the value lookup leaves the cells already set in the builder; the model uses the corrected lookup (see Findings).
- TableHelpers.FilterChainHelper: the caller's list, which the source extends in place, is returned as the first component of the result.
- TableHelpers.ScanFilter: a filter string is excluded by its precondition, because `ScanFilterHelper` refuses it before building any filter.
- `make_row`, `make_ordered_row` and the table's `regions`, `families` and `cells` readers are not modelled. They only convert what the network returns.

## Findings

| source | as written | input that shows it | evidently intended | confidence | as-written member | corrected member |
|---|---|---|---|---|---|---|
| src/google/cloud/happybase/batch.py:170-176 | `put` validates the keys of `data` (stripping one trailing `:`) and then looks each value up under the re-joined key `family:qualifier` | `put(row, {b"cf:q:": v})`: validation accepts column `cf:q`, then `data[b"cf:q"]` raises KeyError | set cell `cf:q` to `v`, the value stored under the key as given | not executed | Batches.PutTrailingColonKey | Batches.Batch.Put |
