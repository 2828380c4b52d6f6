/** The mutation batch of batch.py: a buffer from row key to row-mutation
    builder plus a mutation counter, flushed to the low-level table
    explicitly, automatically past a threshold, or on leaving a `with` block. */
module Batches {
  import opened Common
  import opened Bigtable
  import opened ColumnPairs

  /** The low-level table a batch submits to: the log of every
      mutate_rows call, each with the builders it was handed. */
  class LowLevelTable {
    var mutateRowsCalls: seq<seq<RowMutations>>

    constructor ()
      ensures mutateRowsCalls == []
    {
      mutateRowsCalls := [];
    }
  }

  /** The constructor's argument checks: a batch_size excludes a
      transactional batch and must be positive. */
  function BatchArgsError(batchSize: Option<int>, transaction: bool): (r: Option<Error>)
    ensures r.None? <==> batchSize.None? || (!transaction && batchSize.value > 0)
    ensures r == Some(TransactionWithBatchSize) <==> batchSize.Some? && transaction
    ensures r == Some(BatchSizeNotPositive) <==> batchSize.Some? && !transaction && batchSize.value <= 0
    ensures r.Some? ==> (r.value.Class() == TypeError <==> transaction)
  {
    if batchSize.None? then None
    else if transaction then Some(TransactionWithBatchSize)
    else if batchSize.value <= 0 then Some(BatchSizeNotPositive)
    else None
  }

  /** The range deletes are confined to: everything written at or before
      the batch timestamp, given Bigtable's exclusive range end and
      millisecond granularity. */
  function DeleteRangeFor(timestamp: Option<int>): (r: Option<TimestampRange>)
    ensures r.None? <==> timestamp.None?
    ensures r.Some? ==> r.value.start.None? && r.value.end == Some(timestamp.value + 1)
    ensures r.Some? ==> forall t :: InTimeRange(r.value, t) <==> t <= timestamp.value
  {
    if timestamp.None? then None else Some(TimestampRange(None, Some(timestamp.value + 1)))
  }

  /** The buffered state of a batch: builders by row key, the keys in
      insertion order (the order a dict iterates), and the mutation counter. */
  datatype Buffer = Buffer(rows: map<Bytes, seq<Mutation>>, order: seq<Bytes>, count: int)

  ghost predicate WellFormed(b: Buffer) {
    && (forall i, j | 0 <= i < j < |b.order| :: b.order[i] != b.order[j])
    && (forall k :: k in b.rows <==> k in b.order)
    && 0 <= b.count
  }

  const EmptyBuffer := Buffer(map[], [], 0)

  /** `_get_row`: the builder of a known key is kept; a new key gets an
      empty builder at the end of the order. */
  function Touch(b: Buffer, key: Bytes): (r: Buffer)
    requires WellFormed(b)
    ensures WellFormed(r) && key in r.rows && r.count == b.count
    ensures forall k | k in b.rows :: k in r.rows && r.rows[k] == b.rows[k]
    ensures key in b.rows ==> r == b
    ensures key !in b.rows ==> r.rows == b.rows[key := []] && r.order == b.order + [key]
  {
    if key in b.rows then b else Buffer(b.rows[key := []], b.order + [key], b.count)
  }

  /** Mutations appended to one buffered builder, the counter raised by n. */
  function Record(b: Buffer, key: Bytes, mutations: seq<Mutation>, n: nat): (r: Buffer)
    requires WellFormed(b) && key in b.rows
    ensures WellFormed(r)
    ensures r.rows == b.rows[key := b.rows[key] + mutations] && r.order == b.order && r.count == b.count + n
  {
    Buffer(b.rows[key := b.rows[key] + mutations], b.order, b.count + n)
  }

  /** `list(self._row_map.values())`: the builders in insertion order. */
  function Contents(b: Buffer): (c: seq<RowMutations>)
    requires WellFormed(b)
    ensures |c| == |b.order|
    ensures forall i | 0 <= i < |c| :: c[i].key == b.order[i] && c[i].key in b.rows && c[i].mutations == b.rows[c[i].key]
  {
    seq(|b.order|, i requires 0 <= i < |b.order| => RowMutations(b.order[i], b.rows[b.order[i]]))
  }

  /** `_try_send`'s test; a batch_size of 0 is falsy in Python. */
  predicate Flushes(batchSize: Option<int>, count: int)
    ensures Flushes(batchSize, count) ==> batchSize.Some? && count >= batchSize.value
    ensures batchSize.Some? && batchSize.value > 0 && count >= batchSize.value ==> Flushes(batchSize, count)
  {
    batchSize.Some? && batchSize.value != 0 && count >= batchSize.value
  }

  /** `_try_send`: the buffer afterwards and the mutate_rows calls made. */
  function AutoFlush(batchSize: Option<int>, b: Buffer): (r: (Buffer, seq<seq<RowMutations>>))
    requires WellFormed(b)
    ensures WellFormed(r.0)
    ensures r.1 == [] ==> r.0 == b
    ensures r.1 != [] ==> r.1 == [Contents(b)] && r.0 == EmptyBuffer
    ensures r.1 != [] <==> Flushes(batchSize, b.count)
  {
    if Flushes(batchSize, b.count) then (EmptyBuffer, [Contents(b)]) else (b, [])
  }

  /** A send hands every buffered row to the table exactly once, with all
      of its mutations. */
  lemma ContentsComplete(b: Buffer)
    requires WellFormed(b)
    ensures |Contents(b)| == |b.rows|
    ensures forall k | k in b.rows :: exists i | 0 <= i < |Contents(b)| :: Contents(b)[i] == RowMutations(k, b.rows[k])
    ensures forall i, j | 0 <= i < j < |Contents(b)| :: Contents(b)[i].key != Contents(b)[j].key
  {
    var c := Contents(b);
    forall k | k in b.rows
      ensures exists i | 0 <= i < |c| :: c[i] == RowMutations(k, b.rows[k])
    {
      var i :| 0 <= i < |b.order| && b.order[i] == k;
      assert c[i] == RowMutations(k, b.rows[k]);
    }
    assert b.rows.Keys == set i | 0 <= i < |b.order| :: b.order[i];
    DistinctCardinality(b.order);
  }

  /** A sequence without repetitions has as many distinct elements as entries. */
  lemma {:induction false} DistinctCardinality<T>(s: seq<T>)
    requires forall i, j | 0 <= i < j < |s| :: s[i] != s[j]
    ensures |set i | 0 <= i < |s| :: s[i]| == |s|
  {
    if s != [] {
      var init := s[..|s| - 1];
      DistinctCardinality(init);
      var initSet := set i | 0 <= i < |init| :: init[i];
      assert (set i | 0 <= i < |s| :: s[i]) == initSet + {s[|s| - 1]};
      assert s[|s| - 1] !in initSet;
    }
  }

  /** With a positive threshold the counter is below it after `_try_send`. */
  lemma AutoFlushBelowThreshold(batchSize: Option<int>, b: Buffer)
    requires WellFormed(b) && batchSize.Some? && batchSize.value > 0
    ensures AutoFlush(batchSize, b).0.count < batchSize.value
    ensures AutoFlush(batchSize, b).1 != [] <==> b.count >= batchSize.value
  {
  }

  // ---- put -------------------------------------------------------------

  /** The keys of a dict given as its items in iteration order. */
  function DataKeys(data: seq<(string, Bytes)>): (keys: seq<string>)
    ensures |keys| == |data| && forall i | 0 <= i < |data| :: keys[i] == data[i].0
  {
    seq(|data|, i requires 0 <= i < |data| => data[i].0)
  }

  ghost predicate DistinctKeys(data: seq<(string, Bytes)>) {
    forall i, j | 0 <= i < j < |data| :: data[i].0 != data[j].0
  }

  /** `data[key]` on a dict given as its items. */
  function Lookup(data: seq<(string, Bytes)>, key: string): (r: Option<Bytes>)
    ensures r.Some? ==> (key, r.value) in data
    ensures r.None? ==> forall i | 0 <= i < |data| :: data[i].0 != key
  {
    if data == [] then None
    else if data[0].0 == key then Some(data[0].1)
    else Lookup(data[1..], key)
  }

  /** The set_cell for one parsed column of put(). */
  function PutCell(pair: ColumnPair, value: Bytes, timestamp: Option<int>): (m: Mutation)
    ensures m.SetCell? && m.family == pair.family && m.value == value && m.timestamp == timestamp
    ensures pair.qualifier.Some? ==> m.qualifier == pair.qualifier.value
  {
    SetCell(pair.family, if pair.qualifier.Some? then pair.qualifier.value else "", value, timestamp)
  }

  /** The cells put() records: cell i goes to the column parsed from key i
      and holds the value stored under key i. */
  function PutCells(pairs: seq<ColumnPair>, data: seq<(string, Bytes)>, timestamp: Option<int>): (r: seq<Mutation>)
    requires |pairs| <= |data|
    ensures |r| == |pairs|
    ensures forall i | 0 <= i < |r| ::
      && r[i].SetCell? && r[i].family == pairs[i].family
      && r[i].value == data[i].1 && r[i].timestamp == timestamp
      && (pairs[i].qualifier.Some? ==> r[i].qualifier == pairs[i].qualifier.value)
  {
    seq(|pairs|, i requires 0 <= i < |pairs| => PutCell(pairs[i], data[i].1, timestamp))
  }

  lemma PutCellsSnoc(pairs: seq<ColumnPair>, data: seq<(string, Bytes)>, timestamp: Option<int>, i: nat)
    requires i < |pairs| <= |data|
    ensures PutCells(pairs[..i + 1], data, timestamp)
      == PutCells(pairs[..i], data, timestamp) + [PutCell(pairs[i], data[i].1, timestamp)]
  {
  }

  /** put() as written: each value is looked up under the key re-joined as
      family + ":" + qualifier, which is not always a key of the dict. */
  function PutCellsAsWritten(pairs: seq<ColumnPair>, data: seq<(string, Bytes)>, timestamp: Option<int>): (r: Result<seq<Mutation>>)
    ensures r.Ok? ==> |r.value| == |pairs|
  {
    if pairs == [] then Ok([])
    else
      var done :- PutCellsAsWritten(pairs[..|pairs| - 1], data, timestamp);
      var last := pairs[|pairs| - 1];
      var key := Render(last);
      match Lookup(data, key)
      case None => Err(MissingDataKey(key))
      case Some(v) => Ok(done + [PutCell(last, v, timestamp)])
  }

  /** Looking up a key of a dict finds its own value. */
  lemma {:induction false} LookupFinds(data: seq<(string, Bytes)>, i: nat)
    requires DistinctKeys(data) && i < |data|
    ensures Lookup(data, data[i].0) == Some(data[i].1)
  {
    if i > 0 {
      assert data[1..][i - 1] == data[i];
      LookupFinds(data[1..], i - 1);
    }
  }

  /** As written, put() is right for every dict whose keys carry no
      trailing `:`: the re-joined key is then the original key. */
  lemma {:induction false} PutAsWrittenAgrees(pairs: seq<ColumnPair>, data: seq<(string, Bytes)>, timestamp: Option<int>)
    requires DistinctKeys(data) && |pairs| <= |data|
    requires forall i | 0 <= i < |pairs| :: Render(pairs[i]) == data[i].0
    ensures PutCellsAsWritten(pairs, data, timestamp) == Ok(PutCells(pairs, data, timestamp))
  {
    if pairs != [] {
      var init := pairs[..|pairs| - 1];
      RendersPrefix(pairs, data, |pairs| - 1);
      PutAsWrittenAgrees(init, data, timestamp);
      PutAsWrittenExtend(pairs, data, timestamp);
    }
  }

  /** Keys that render their pairs still do so on a prefix of the pairs. */
  lemma RendersPrefix(pairs: seq<ColumnPair>, data: seq<(string, Bytes)>, n: nat)
    requires n <= |pairs| <= |data|
    requires forall i | 0 <= i < |pairs| :: Render(pairs[i]) == data[i].0
    ensures forall i | 0 <= i < |pairs[..n]| :: Render(pairs[..n][i]) == data[i].0
  {
    forall i | 0 <= i < n
      ensures Render(pairs[..n][i]) == data[i].0
    {
      assert pairs[..n][i] == pairs[i];
    }
  }

  /** The inductive step: agreement on all but the last pair extends to
      the last pair when its key is the rendering of that pair. */
  lemma PutAsWrittenExtend(pairs: seq<ColumnPair>, data: seq<(string, Bytes)>, timestamp: Option<int>)
    requires pairs != [] && DistinctKeys(data) && |pairs| <= |data|
    requires Render(pairs[|pairs| - 1]) == data[|pairs| - 1].0
    requires PutCellsAsWritten(pairs[..|pairs| - 1], data, timestamp) == Ok(PutCells(pairs[..|pairs| - 1], data, timestamp))
    ensures PutCellsAsWritten(pairs, data, timestamp) == Ok(PutCells(pairs, data, timestamp))
  {
    var n := |pairs| - 1;
    LookupFinds(data, n);
    PutAsWrittenStep(pairs, data, timestamp, PutCells(pairs[..n], data, timestamp), data[n].1);
    PutCellsSnoc(pairs, data, timestamp, n);
    assert pairs[..n + 1] == pairs;
  }

  /** One more pair whose key is found extends the as-written cells by one. */
  lemma PutAsWrittenStep(pairs: seq<ColumnPair>, data: seq<(string, Bytes)>, timestamp: Option<int>,
                         done: seq<Mutation>, v: Bytes)
    requires pairs != []
    requires PutCellsAsWritten(pairs[..|pairs| - 1], data, timestamp) == Ok(done)
    requires Lookup(data, Render(pairs[|pairs| - 1])) == Some(v)
    ensures PutCellsAsWritten(pairs, data, timestamp) == Ok(done + [PutCell(pairs[|pairs| - 1], v, timestamp)])
  {
  }

  /** A key `f:q:` passes put()'s validation, yet the code as written then
      looks up `f:q` and raises KeyError; the corrected put writes the value
      stored under `f:q:` to column f:q (for instance f = "cf", q = "q"). */
  lemma PutTrailingColonKey(f: string, q: string, v: Bytes, timestamp: Option<int>)
    requires ':' !in f && ':' !in q && q != ""
    ensures var data := [(f + ":" + q + ":", v)];
      && GetColumnPairs(DataKeys(data), true) == Ok([ColumnPair(f, Some(q))])
      && PutCellsAsWritten([ColumnPair(f, Some(q))], data, timestamp) == Err(MissingDataKey(f + ":" + q))
      && PutCells([ColumnPair(f, Some(q))], data, timestamp) == [SetCell(f, q, v, timestamp)]
  {
    var p := ColumnPair(f, Some(q));
    var data := [(f + ":" + q + ":", v)];
    assert DataKeys(data) == [f + ":" + q + ":"];
    TrailingColonKeyValidates(f, q);
    TrailingColonKeyMissing(p, v, timestamp);
    assert PutCells([p], data, timestamp)[0] == SetCell(f, q, v, timestamp);
  }

  /** `f:q:` alone is a valid list of qualified columns, parsed to (f, q). */
  lemma TrailingColonKeyValidates(f: string, q: string)
    requires ':' !in f && ':' !in q && q != ""
    ensures GetColumnPairs([f + ":" + q + ":"], true) == Ok([ColumnPair(f, Some(q))])
  {
    var p := ColumnPair(f, Some(q));
    var column := f + ":" + q;
    assert ParseColumn(column + ":", true) == Ok(p) by {
      ParseRender(p, true);
      assert column[|column| - 1] == q[|q| - 1] && q[|q| - 1] in q;
      ParseIgnoresTrailingColon(column, true);
    }
    var pairs := GetColumnPairs([column + ":"], true);
    assert [column + ":"][0] == column + ":";
    assert pairs.Ok? && pairs.value[0] == p;
    assert pairs.value == [p];
  }

  /** As written, put() looks the pair up under its rendering, which a
      single key with one more trailing `:` does not match. */
  lemma TrailingColonKeyMissing(p: ColumnPair, v: Bytes, timestamp: Option<int>)
    ensures PutCellsAsWritten([p], [(Render(p) + ":", v)], timestamp) == Err(MissingDataKey(Render(p)))
  {
    var data := [(Render(p) + ":", v)];
    assert [p][..0] == [];
    assert |data[0].0| != |Render(p)|;
    assert Lookup(data, Render(p)) == None;
  }

  // ---- delete ------------------------------------------------------------

  /** The mutation one parsed column adds in `_delete_columns`. */
  function DeleteMutation(pair: ColumnPair, deleteRange: Option<TimestampRange>): (m: Mutation)
    ensures pair.qualifier.None? ==> m == DeleteFamily(pair.family)
    ensures pair.qualifier.Some? ==> m == DeleteCell(pair.family, pair.qualifier.value, deleteRange)
  {
    match pair.qualifier
    case None => DeleteFamily(pair.family)
    case Some(q) => DeleteCell(pair.family, q, deleteRange)
  }

  /** The mutations of a run of parsed columns, in order. */
  function DeleteMutations(pairs: seq<ColumnPair>, deleteRange: Option<TimestampRange>): (r: seq<Mutation>)
    ensures |r| == |pairs|
  {
    seq(|pairs|, i requires 0 <= i < |pairs| => DeleteMutation(pairs[i], deleteRange))
  }

  lemma DeleteMutationsSnoc(pairs: seq<ColumnPair>, deleteRange: Option<TimestampRange>, i: nat)
    requires i < |pairs|
    ensures DeleteMutations(pairs[..i + 1], deleteRange)
      == DeleteMutations(pairs[..i], deleteRange) + [DeleteMutation(pairs[i], deleteRange)]
  {
  }

  /** `_delete_columns`: the mutations added before it stops and the error
      it stops with; a whole-family delete under a delete range raises
      after the columns before it were already recorded. */
  function ColumnDeletes(pairs: seq<ColumnPair>, deleteRange: Option<TimestampRange>): (r: (seq<Mutation>, Option<Error>))
    ensures r.1.Some? <==> deleteRange.Some? && exists i | 0 <= i < |pairs| :: pairs[i].qualifier.None?
    ensures r.1.Some? ==> r.1.value == FamilyDeleteWithTimestamp
    ensures r.1.None? ==> |r.0| == |pairs|
    ensures r.1.Some? ==>
      (|r.0| < |pairs| && pairs[|r.0|].qualifier.None? && forall i | 0 <= i < |r.0| :: pairs[i].qualifier.Some?)
    ensures |r.0| <= |pairs| && forall i | 0 <= i < |r.0| :: r.0[i] == DeleteMutation(pairs[i], deleteRange)
  {
    if pairs == [] then ([], None)
    else if pairs[0].qualifier.None? && deleteRange.Some? then ([], Some(FamilyDeleteWithTimestamp))
    else
      var rest := ColumnDeletes(pairs[1..], deleteRange);
      assert forall i | 1 <= i < |pairs| :: pairs[i] == pairs[1..][i - 1];
      ([DeleteMutation(pairs[0], deleteRange)] + rest.0, rest.1)
  }

  /** `_delete_columns` stops exactly at the first whole-family delete
      under a delete range, or at the end. */
  lemma ColumnDeletesStop(pairs: seq<ColumnPair>, deleteRange: Option<TimestampRange>, added: seq<Mutation>)
    requires |added| <= |pairs|
    requires added == DeleteMutations(pairs[..|added|], deleteRange)
    requires forall j | 0 <= j < |added| :: deleteRange.Some? ==> pairs[j].qualifier.Some?
    requires |added| == |pairs| || (pairs[|added|].qualifier.None? && deleteRange.Some?)
    ensures ColumnDeletes(pairs, deleteRange)
      == (added, if |added| == |pairs| then None else Some(FamilyDeleteWithTimestamp))
  {
    var r := ColumnDeletes(pairs, deleteRange);
    assert forall j | 0 <= j < |added| :: added[j] == DeleteMutation(pairs[j], deleteRange);
    if |added| < |pairs| {
      assert r.1.Some?;
      assert |r.0| == |added|;
    } else if deleteRange.Some? {
      assert forall j | 0 <= j < |pairs| :: pairs[j].qualifier.Some?;
    }
    assert r.0 == added;
  }

  // ---- the batch object --------------------------------------------------

  class Batch {
    const table: LowLevelTable
    const batchSize: Option<int>
    const transaction: bool
    const timestamp: Option<int>
    const deleteRange: Option<TimestampRange>
    var rowMap: map<Bytes, seq<Mutation>>
    var rowOrder: seq<Bytes>
    var mutationCount: int

    function Buffered(): Buffer
      reads this
    {
      Buffer(rowMap, rowOrder, mutationCount)
    }

    /** The state between calls, and inside them before `_try_send`. */
    ghost predicate Consistent()
      reads this
    {
      && BatchArgsError(batchSize, transaction).None?
      && deleteRange == DeleteRangeFor(timestamp)
      && WellFormed(Buffered())
    }

    /** Between calls the counter stays below a set threshold. */
    ghost predicate Valid()
      reads this
    {
      Consistent() && (batchSize.Some? ==> mutationCount < batchSize.value)
    }

    constructor (table: LowLevelTable, timestamp: Option<int>, batchSize: Option<int>, transaction: bool)
      requires BatchArgsError(batchSize, transaction).None?
      ensures Valid() && Buffered() == EmptyBuffer
      ensures this.table == table && this.timestamp == timestamp
      ensures this.batchSize == batchSize && this.transaction == transaction
    {
      this.table := table;
      this.batchSize := batchSize;
      this.transaction := transaction;
      this.timestamp := timestamp;
      this.deleteRange := DeleteRangeFor(timestamp);
      rowMap := map[];
      rowOrder := [];
      mutationCount := 0;
    }

    /** `send`: every builder goes to the table in one call, then the
        buffer is empty and the counter 0. */
    method Send()
      requires Consistent()
      modifies this, table
      ensures Valid() && Buffered() == EmptyBuffer
      ensures table.mutateRowsCalls == old(table.mutateRowsCalls) + [Contents(old(Buffered()))]
    {
      table.mutateRowsCalls := table.mutateRowsCalls + [Contents(Buffered())];
      rowMap := map[];
      rowOrder := [];
      mutationCount := 0;
    }

    /** `_try_send`: send only once a set threshold is reached. */
    method TrySend()
      requires Consistent()
      modifies this, table
      ensures Valid()
      ensures Buffered() == AutoFlush(batchSize, old(Buffered())).0
      ensures table.mutateRowsCalls == old(table.mutateRowsCalls) + AutoFlush(batchSize, old(Buffered())).1
    {
      if batchSize.Some? && batchSize.value != 0 && mutationCount >= batchSize.value {
        Send();
      }
    }

    /** `_get_row`. */
    method GetRow(key: Bytes)
      requires Valid()
      modifies this
      ensures Valid()
      ensures Buffered() == Touch(old(Buffered()), key)
    {
      if key !in rowMap {
        rowMap := rowMap[key := []];
        rowOrder := rowOrder + [key];
      }
    }

    /** `put`: the row's builder is fetched first, every key is parsed
        (a qualifier required) before any cell is set, then the counter
        rises by the number of entries and `_try_send` runs, also for an
        empty dict. */
    method Put(row: Bytes, data: seq<(string, Bytes)>) returns (err: Option<Error>)
      requires Valid() && DistinctKeys(data)
      modifies this, table
      ensures Valid()
      ensures var touched := Touch(old(Buffered()), row);
        var pairs := GetColumnPairs(DataKeys(data), true);
        if pairs.Err? then
          && err == Some(pairs.error)
          && Buffered() == touched
          && table.mutateRowsCalls == old(table.mutateRowsCalls)
        else
          var step := AutoFlush(batchSize, Record(touched, row, PutCells(pairs.value, data, timestamp), |data|));
          && err.None?
          && Buffered() == step.0
          && table.mutateRowsCalls == old(table.mutateRowsCalls) + step.1
    {
      GetRow(row);
      ghost var touched := Buffered();
      var pairs := GetColumnPairs(DataKeys(data), true);
      if pairs.Err? {
        return Some(pairs.error);
      }
      var cells: seq<Mutation> := [];
      var i := 0;
      while i < |pairs.value|
        invariant 0 <= i <= |pairs.value| == |data|
        invariant Buffered() == touched && row in rowMap
        invariant table.mutateRowsCalls == old(table.mutateRowsCalls)
        invariant cells == PutCells(pairs.value[..i], data, timestamp)
      {
        var cell := PutCell(pairs.value[i], data[i].1, timestamp);
        PutCellsSnoc(pairs.value, data, timestamp, i);
        cells := cells + [cell];
        i := i + 1;
      }
      assert pairs.value[..i] == pairs.value;
      ghost var step := AutoFlush(batchSize, Record(touched, row, cells, |data|));
      RecordAndTrySend(row, cells, |data|);
      assert table.mutateRowsCalls == old(table.mutateRowsCalls) + step.1;
      err := None;
    }

    /** Mutations appended to a buffered row, the counter raised by n, then
        `_try_send`: the common tail of put and delete. */
    method RecordAndTrySend(row: Bytes, mutations: seq<Mutation>, n: nat)
      requires Valid() && row in rowMap
      modifies this, table
      ensures Valid()
      ensures var step := AutoFlush(batchSize, Record(old(Buffered()), row, mutations, n));
        Buffered() == step.0 && table.mutateRowsCalls == old(table.mutateRowsCalls) + step.1
    {
      ghost var recorded := Record(Buffered(), row, mutations, n);
      rowMap := rowMap[row := rowMap[row] + mutations];
      mutationCount := mutationCount + n;
      assert Buffered() == recorded;
      TrySend();
    }

    /** `_delete_columns`: a family delete or a cell delete (confined to the
        delete range) per parsed column, in order. */
    method DeleteColumns(columns: seq<string>, row: Bytes) returns (err: Option<Error>)
      requires Valid() && row in rowMap
      modifies this
      ensures Valid()
      ensures var pairs := GetColumnPairs(columns, false);
        if pairs.Err? then err == Some(pairs.error) && Buffered() == old(Buffered())
        else
          var deletes := ColumnDeletes(pairs.value, deleteRange);
          err == deletes.1 && Buffered() == Record(old(Buffered()), row, deletes.0, 0)
    {
      var pairs := GetColumnPairs(columns, false);
      if pairs.Err? {
        return Some(pairs.error);
      }
      err := RecordDeletes(row, pairs.value);
    }

    /** The loop of `_delete_columns` over the parsed columns: each
        mutation is recorded as it is made, so a refused family delete
        leaves the ones before it in the row. */
    method RecordDeletes(row: Bytes, pairs: seq<ColumnPair>) returns (err: Option<Error>)
      requires Valid() && row in rowMap
      modifies this
      ensures Valid()
      ensures var deletes := ColumnDeletes(pairs, deleteRange);
        err == deletes.1 && Buffered() == Record(old(Buffered()), row, deletes.0, 0)
    {
      var base := rowMap[row];
      var added: seq<Mutation> := [];
      assert base + added == base;
      var i := 0;
      while i < |pairs|
        invariant 0 <= i <= |pairs|
        invariant added == DeleteMutations(pairs[..i], deleteRange)
        invariant forall j | 0 <= j < i :: deleteRange.Some? ==> pairs[j].qualifier.Some?
        invariant rowMap == old(rowMap)[row := base + added]
        invariant rowOrder == old(rowOrder) && mutationCount == old(mutationCount)
      {
        var pair := pairs[i];
        if pair.qualifier.None? && deleteRange.Some? {
          ColumnDeletesStop(pairs, deleteRange, added);
          assert Buffered() == Record(old(Buffered()), row, added, 0);
          return Some(FamilyDeleteWithTimestamp);
        }
        DeleteMutationsSnoc(pairs, deleteRange, i);
        added := added + [DeleteMutation(pair, deleteRange)];
        rowMap := rowMap[row := base + added];
        i := i + 1;
      }
      ColumnDeletesStop(pairs, deleteRange, added);
      assert Buffered() == Record(old(Buffered()), row, added, 0);
      err := None;
    }

    /** `delete`: without columns the whole row goes (refused under a
        delete range) and counts 1; with columns each listed column counts
        1 once all were recorded; `_try_send` runs after either. */
    method Delete(row: Bytes, columns: Option<seq<string>>) returns (err: Option<Error>)
      requires Valid()
      modifies this, table
      ensures Valid()
      ensures var touched := Touch(old(Buffered()), row);
        if columns.None? then
          if deleteRange.Some? then
            && err == Some(RowDeleteWithTimestamp)
            && Buffered() == touched
            && table.mutateRowsCalls == old(table.mutateRowsCalls)
          else
            var step := AutoFlush(batchSize, Record(touched, row, [DeleteRow], 1));
            && err.None?
            && Buffered() == step.0
            && table.mutateRowsCalls == old(table.mutateRowsCalls) + step.1
        else
          var pairs := GetColumnPairs(columns.value, false);
          if pairs.Err? then
            && err == Some(pairs.error)
            && Buffered() == touched
            && table.mutateRowsCalls == old(table.mutateRowsCalls)
          else
            var deletes := ColumnDeletes(pairs.value, deleteRange);
            if deletes.1.Some? then
              && err == deletes.1
              && Buffered() == Record(touched, row, deletes.0, 0)
              && table.mutateRowsCalls == old(table.mutateRowsCalls)
            else
              var step := AutoFlush(batchSize, Record(touched, row, deletes.0, |columns.value|));
              && err.None?
              && Buffered() == step.0
              && table.mutateRowsCalls == old(table.mutateRowsCalls) + step.1
    {
      GetRow(row);
      if columns.None? {
        if deleteRange.Some? {
          return Some(RowDeleteWithTimestamp);
        }
        RecordAndTrySend(row, [DeleteRow], 1);
      } else {
        err := DeleteColumnsAndSend(row, columns.value);
        return;
      }
      err := None;
    }

    /** The column branch of delete(): the column deletes, then the count
        grows by the number of specifiers and the batch may be sent. */
    method DeleteColumnsAndSend(row: Bytes, columns: seq<string>) returns (err: Option<Error>)
      requires Valid() && row in rowMap
      modifies this, table
      ensures Valid()
      ensures var pairs := GetColumnPairs(columns, false);
        if pairs.Err? then
          && err == Some(pairs.error)
          && Buffered() == old(Buffered())
          && table.mutateRowsCalls == old(table.mutateRowsCalls)
        else
          var deletes := ColumnDeletes(pairs.value, deleteRange);
          if deletes.1.Some? then
            && err == deletes.1
            && Buffered() == Record(old(Buffered()), row, deletes.0, 0)
            && table.mutateRowsCalls == old(table.mutateRowsCalls)
          else
            var step := AutoFlush(batchSize, Record(old(Buffered()), row, deletes.0, |columns|));
            && err.None?
            && Buffered() == step.0
            && table.mutateRowsCalls == old(table.mutateRowsCalls) + step.1
    {
      ghost var before := Buffered();
      err := DeleteColumns(columns, row);
      if err.Some? {
        return;
      }
      mutationCount := mutationCount + |columns|;
      assert Buffered() == Record(before, row, ColumnDeletes(GetColumnPairs(columns, false).value, deleteRange).0, |columns|);
      TrySend();
    }

    /** `__exit__`: a transactional batch left by an exception keeps its
        buffer unsent; every other exit sends. */
    method Exit(exceptionPending: bool) returns (sent: bool)
      requires Valid()
      modifies this, table
      ensures Valid()
      ensures sent <==> !(transaction && exceptionPending)
      ensures sent ==>
        (Buffered() == EmptyBuffer && table.mutateRowsCalls == old(table.mutateRowsCalls) + [Contents(old(Buffered()))])
      ensures !sent ==> Buffered() == old(Buffered()) && table.mutateRowsCalls == old(table.mutateRowsCalls)
    {
      if transaction && exceptionPending {
        return false;
      }
      Send();
      sent := true;
    }
  }

  /** `Batch(...)`: the argument checks, then an empty batch whose delete
      range follows from the timestamp. */
  method NewBatch(table: LowLevelTable, timestamp: Option<int>, batchSize: Option<int>, transaction: bool)
    returns (r: Result<Batch>)
    ensures r.Err? <==> BatchArgsError(batchSize, transaction).Some?
    ensures r.Err? ==> r.error == BatchArgsError(batchSize, transaction).value
    ensures r.Ok? ==> fresh(r.value) && r.value.Valid() && r.value.Buffered() == EmptyBuffer
    ensures r.Ok? ==> r.value.table == table && r.value.batchSize == batchSize && r.value.transaction == transaction
    ensures r.Ok? ==> r.value.deleteRange == DeleteRangeFor(timestamp)
  {
    var failure := BatchArgsError(batchSize, transaction);
    if failure.Some? {
      return Err(failure.value);
    }
    var batch := new Batch(table, timestamp, batchSize, transaction);
    r := Ok(batch);
  }
}
