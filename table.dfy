/** The pure helpers of table.py: row-key successors for prefix scans, the
    filter chains built for reads and scans, the dictionary view of garbage
    collection rules, read time ranges, and the counter result check. */
module TableHelpers {
  import opened Common
  import opened Bigtable
  import opened ColumnPairs

  // ---- row keys ------------------------------------------------------------

  /** Byte-string order as Python compares bytes: a proper prefix sorts
      first, otherwise the first differing byte decides. */
  predicate Below(a: Bytes, b: Bytes) {
    if a == [] then b != []
    else if b == [] then false
    else a[0] < b[0] || (a[0] == b[0] && Below(a[1..], b[1..]))
  }

  /** `t` starts with `s`. */
  predicate HasPrefix(t: Bytes, s: Bytes) {
    s <= t
  }

  /** A row key inside a scan range: from the start inclusive to the stop
      exclusive, an empty stop key meaning the end of the table. */
  predicate InScanRange(t: Bytes, start: Bytes, stop: Bytes) {
    !Below(t, start) && (stop == [] || Below(t, stop))
  }

  predicate AllMax(s: Bytes) {
    forall i | 0 <= i < |s| :: s[i] == 0xFF
  }

  /** `_string_successor`: the last byte below 0xFF is raised by one and
      everything after it dropped; with no such byte the result is empty. */
  function Successor(s: Bytes): (r: Bytes)
    ensures r == [] <==> AllMax(s)
    ensures r != [] ==> |r| <= |s| && r[..|r| - 1] == s[..|r| - 1] && r[|r| - 1] as int == s[|r| - 1] as int + 1
    ensures r != [] ==> forall j | |r| <= j < |s| :: s[j] == 0xFF
  {
    if s == [] then []
    else if s[|s| - 1] != 0xFF then s[..|s| - 1] + [s[|s| - 1] + 1]
    else
      var r := Successor(s[..|s| - 1]);
      assert forall i | 0 <= i < |s| - 1 :: s[..|s| - 1][i] == s[i];
      r
  }

  /** `_string_successor`, walking back from the last byte. */
  method StringSuccessor(s: Bytes) returns (r: Bytes)
    ensures r == Successor(s)
  {
    if s == [] {
      return [];
    }
    var index := |s| - 1;
    assert s[..index + 1] == s;
    while index >= 0
      invariant -1 <= index < |s|
      invariant Successor(s) == Successor(s[..index + 1])
    {
      if s[index] != 0xFF {
        break;
      }
      SuccessorDropsMax(s, index);
      index := index - 1;
    }
    if index == -1 {
      return [];
    }
    SuccessorRaisesLast(s, index);
    r := s[..index] + [s[index] + 1];
  }

  lemma SuccessorDropsMax(s: Bytes, i: nat)
    requires i < |s| && s[i] == 0xFF
    ensures Successor(s[..i + 1]) == Successor(s[..i])
  {
    assert s[..i + 1][..i] == s[..i];
  }

  lemma SuccessorRaisesLast(s: Bytes, i: nat)
    requires i < |s| && s[i] != 0xFF
    ensures Successor(s[..i + 1]) == s[..i] + [s[i] + 1]
  {
    assert s[..i + 1][..i] == s[..i];
  }

  /** No key sorts below one of its prefixes. */
  lemma {:induction false} PrefixNotBelow(s: Bytes, t: Bytes)
    requires HasPrefix(t, s)
    ensures !Below(t, s)
  {
    if s != [] {
      assert t[1..][..|s| - 1] == s[1..];
      PrefixNotBelow(s[1..], t[1..]);
    }
  }

  /** Against a key of 0xFF bytes only, not sorting below means extending it. */
  lemma {:induction false} NotBelowAllMax(s: Bytes, t: Bytes)
    requires AllMax(s) && !Below(t, s)
    ensures HasPrefix(t, s)
  {
    if s != [] {
      assert s[0] == 0xFF;
      NotBelowAllMax(s[1..], t[1..]);
      assert t == [t[0]] + t[1..];
    }
  }

  /** The range [s, u) with u the key cut at position k, that byte raised,
      holds exactly the keys with prefix s (the bytes of s after k being 0xFF). */
  lemma {:induction false} RaisedCutRange(s: Bytes, k: nat, t: Bytes)
    requires k < |s| && s[k] < 0xFF && forall j | k < j < |s| :: s[j] == 0xFF
    ensures InScanRange(t, s, s[..k] + [s[k] + 1]) <==> HasPrefix(t, s)
  {
    var u := s[..k] + [s[k] + 1];
    if HasPrefix(t, s) {
      PrefixNotBelow(s, t);
    }
    assert u[0] == if k == 0 then s[0] + 1 else s[0];
    if t == [] {
      assert Below(t, s);
    } else if t[0] != s[0] {
      assert !HasPrefix(t, s);
      if t[0] > s[0] {
        assert !Below(t, u);
      }
    } else {
      assert forall j | 0 <= j < |s| - 1 :: s[1..][j] == s[j + 1];
      assert Below(t, s) == Below(t[1..], s[1..]);
      assert HasPrefix(t, s) == HasPrefix(t[1..], s[1..]);
      if k == 0 {
        assert Below(t, u);
        if !Below(t, s) {
          NotBelowAllMax(s[1..], t[1..]);
          assert t == [t[0]] + t[1..];
        }
      } else {
        assert u[1..] == s[1..][..k - 1] + [s[1..][k - 1] + 1];
        assert Below(t, u) == Below(t[1..], u[1..]);
        RaisedCutRange(s[1..], k - 1, t[1..]);
      }
    }
  }

  /** A prefix scan reads exactly the keys with that prefix: the range from
      the prefix to its successor (unbounded when the successor is empty). */
  lemma PrefixRange(s: Bytes, t: Bytes)
    ensures InScanRange(t, s, Successor(s)) <==> HasPrefix(t, s)
  {
    var r := Successor(s);
    if r == [] {
      if HasPrefix(t, s) {
        PrefixNotBelow(s, t);
      }
      if !Below(t, s) {
        NotBelowAllMax(s, t);
      }
    } else {
      var k := |r| - 1;
      assert r == s[..k] + [s[k] + 1];
      RaisedCutRange(s, k, t);
    }
  }

  /** A non-empty successor sorts above the key and above every extension of it. */
  lemma SuccessorAbove(s: Bytes, t: Bytes)
    requires Successor(s) != [] && HasPrefix(t, s)
    ensures Below(t, Successor(s)) && Below(s, Successor(s))
  {
    PrefixRange(s, t);
    PrefixRange(s, s);
  }

  // ---- time ranges ---------------------------------------------------------

  /** `_convert_to_time_range`: reads see cells strictly before the timestamp. */
  function ConvertToTimeRange(timestamp: Option<int>): (r: Option<TimestampRange>)
    ensures r.None? <==> timestamp.None?
    ensures r.Some? ==> r.value.start.None? && r.value.end == Some(timestamp.value)
    ensures r.Some? ==> forall t :: InTimeRange(r.value, t) <==> t < timestamp.value
  {
    if timestamp.None? then None else Some(TimestampRange(None, Some(timestamp.value)))
  }

  // ---- filters -------------------------------------------------------------

  function Count(present: bool, n: nat): nat {
    if present then n else 0
  }

  /** A list of filters as one filter: none is an error, one stands alone,
      several are chained. */
  function Chained(filters: seq<Filter>): (r: Result<Filter>)
    ensures r.Err? <==> filters == []
    ensures r.Err? ==> r.error == NoFilters
    ensures |filters| == 1 ==> r == Ok(filters[0])
    ensures |filters| >= 2 ==> r == Ok(Chain(filters))
  {
    if |filters| == 0 then Err(NoFilters)
    else if |filters| == 1 then Ok(filters[0])
    else Ok(Chain(filters))
  }

  /** `_filter_chain_helper`: the caller's list extended with the column's
      family and qualifier filters, a version limit and a time range, each
      when asked for, then combined. The extended list is returned with the
      result; a column without exactly one `:` raises before any extension. */
  function FilterChainHelper(column: Option<string>, versions: Option<int>, timestamp: Option<int>, filters: seq<Filter>)
    : (r: (seq<Filter>, Result<Filter>))
    ensures r.1 == Err(ColumnNotPair) <==> column.Some? && ColonCount(column.value) != 1
    ensures r.1 == Err(NoFilters) <==> column.None? && versions.None? && timestamp.None? && filters == []
    ensures r.1.Err? ==> r.0 == filters
    ensures r.1.Ok? <==>
      && (column.None? || ColonCount(column.value) == 1)
      && !(column.None? && versions.None? && timestamp.None? && filters == [])
    ensures r.1.Ok? ==>
      && |r.0| == |filters| + Count(column.Some?, 2) + Count(versions.Some?, 1) + Count(timestamp.Some?, 1)
      && r.0[..|filters|] == filters
      && (|r.0| == 1 ==> r.1.value == r.0[0])
      && (|r.0| >= 2 ==> r.1.value == Chain(r.0))
    ensures r.1.Ok? && column.Some? ==>
      && r.0[|filters|].FamilyNameRegex? && r.0[|filters| + 1].ColumnQualifierRegex?
      && column.value == r.0[|filters|].familyRegex + ":" + r.0[|filters| + 1].qualifierRegex
    ensures r.1.Ok? && versions.Some? ==> r.0[|filters| + Count(column.Some?, 2)] == CellsColumnLimit(versions.value)
    ensures r.1.Ok? && timestamp.Some? ==>
      r.0[|r.0| - 1] == TimestampRangeFilter(TimestampRange(None, Some(timestamp.value)))
  {
    var split := if column.Some? then SplitPair(column.value) else Ok(("", ""));
    if split.Err? then (filters, Err(split.error))
    else
      var (family, qualifier) := split.value;
      var withColumn := filters + if column.Some? then [FamilyNameRegex(family), ColumnQualifierRegex(qualifier)] else [];
      var withVersions := withColumn + if versions.Some? then [CellsColumnLimit(versions.value)] else [];
      var range := ConvertToTimeRange(timestamp);
      var all := withVersions + if range.Some? then [TimestampRangeFilter(range.value)] else [];
      assert all[..|filters|] == filters;
      assert versions.Some? ==> all[|withColumn|] == CellsColumnLimit(versions.value);
      (all, Chained(all))
  }

  /** Without a column, the chain is the given filters, the version
      limit and the time range, in that order. */
  lemma FilterChainWithoutColumn(versions: Option<int>, timestamp: Option<int>, filters: seq<Filter>)
    ensures var all := filters + (if versions.Some? then [CellsColumnLimit(versions.value)] else [])
        + if timestamp.Some? then [TimestampRangeFilter(TimestampRange(None, Some(timestamp.value)))] else [];
      FilterChainHelper(None, versions, timestamp, filters) == (all, Chained(all))
  {
    assert filters + [] == filters;
  }

  /** The filter for one parsed column: its family, or its family chained
      with its qualifier. */
  function ColumnFilter(pair: ColumnPair): (f: Filter)
    ensures pair.qualifier.None? ==> f == FamilyNameRegex(pair.family)
    ensures pair.qualifier.Some? ==> f == Chain([FamilyNameRegex(pair.family), ColumnQualifierRegex(pair.qualifier.value)])
  {
    match pair.qualifier
    case None => FamilyNameRegex(pair.family)
    case Some(q) => Chain([FamilyNameRegex(pair.family), ColumnQualifierRegex(q)])
  }

  /** `_columns_filter_helper`: one filter per column specifier; none is an
      error, one stands alone, several form a union. */
  function ColumnsFilter(columns: seq<string>): (r: Result<Filter>)
    ensures var pairs := GetColumnPairs(columns, false);
      && (pairs.Err? ==> r == Err(pairs.error))
      && (pairs.Ok? && columns == [] ==> r == Err(NoFilters))
      && (pairs.Ok? && |columns| == 1 ==> r == Ok(ColumnFilter(pairs.value[0])))
      && (pairs.Ok? && |columns| >= 2 ==>
           r.Ok? && r.value.Interleave? && |r.value.members| == |columns|
           && forall i | 0 <= i < |columns| :: r.value.members[i] == ColumnFilter(pairs.value[i]))
  {
    var pairs :- GetColumnPairs(columns, false);
    var filters := seq(|pairs|, i requires 0 <= i < |pairs| => ColumnFilter(pairs[i]));
    if |filters| == 0 then Err(NoFilters)
    else if |filters| == 1 then Ok(filters[0])
    else Ok(Interleave(filters))
  }

  /** The `filter` keyword of scan: absent, a filter string, or a filter object. */
  datatype FilterArg = NoFilter | FilterString(text: string) | FilterObject(filter: Filter)

  /** Where a scan reads and what it keeps. */
  datatype ScanPlan = ScanPlan(rowStart: Option<Bytes>, rowStop: Option<Bytes>, filter: Filter)

  const LegacyScanArgs: set<string> := {"batch_size", "scan_batching", "sorted_columns"}

  /** The filters a scan chains before the version limit and time range. */
  function ScanBaseFilters(filterArg: FilterArg, columnsFilter: Option<Filter>): seq<Filter> {
    (if filterArg.FilterObject? then [filterArg.filter] else [])
    + (if columnsFilter.Some? then [columnsFilter.value] else [])
  }

  /** The filter of a scan: the caller's filter object, the columns' filter
      and a limit of one version, then the time range, chained (a lone
      filter is used as it is). */
  function ScanFilter(columns: Option<seq<string>>, timestamp: Option<int>, filterArg: FilterArg): (r: Result<Filter>)
    requires !filterArg.FilterString?
    ensures r.Ok? <==> columns.None? || ColumnsFilter(columns.value).Ok?
    ensures r.Err? ==> r == Err(ColumnsFilter(columns.value).error)
    ensures r.Ok? ==>
      var base := ScanBaseFilters(filterArg, if columns.Some? then Some(ColumnsFilter(columns.value).value) else None);
      var all := base + [CellsColumnLimit(1)] + if timestamp.Some? then [TimestampRangeFilter(TimestampRange(None, Some(timestamp.value)))] else [];
      r.value == if |all| == 1 then all[0] else Chain(all)
  {
    var columnsFilter :- if columns.Some? then
        var f :- ColumnsFilter(columns.value); Ok(Some(f))
      else Ok(None);
    var base := ScanBaseFilters(filterArg, columnsFilter);
    FilterChainWithoutColumn(Some(1), timestamp, base);
    Ok(FilterChainHelper(None, Some(1), timestamp, base).1.value)
  }

  /** `_scan_filter_helper`: legacy keywords are dropped and any other
      keyword refused, then the limit, a prefix combined with a range, a
      filter string and the columns are checked in that order; a prefix
      becomes the range from itself to its successor. */
  function ScanFilterHelper(rowStart: Option<Bytes>, rowStop: Option<Bytes>, rowPrefix: Option<Bytes>,
                            columns: Option<seq<string>>, timestamp: Option<int>, limit: Option<int>,
                            filterArg: FilterArg, kwargs: set<string>): (r: Result<ScanPlan>)
    ensures var unexpected := kwargs - LegacyScanArgs;
      && (unexpected != {} ==> r == Err(UnexpectedArguments(unexpected)))
      && (unexpected == {} && limit.Some? && limit.value < 1 ==> r == Err(LimitNotPositive))
      && (unexpected == {} && (limit.None? || limit.value >= 1) && rowPrefix.Some? && (rowStart.Some? || rowStop.Some?)
          ==> r == Err(PrefixWithRange))
      && (unexpected == {} && (limit.None? || limit.value >= 1) && (rowPrefix.Some? ==> rowStart.None? && rowStop.None?)
            && filterArg.FilterString?
          ==> r == Err(StringFilter))
    ensures r.Ok? <==>
      && kwargs <= LegacyScanArgs
      && (limit.None? || limit.value >= 1)
      && (rowPrefix.Some? ==> rowStart.None? && rowStop.None?)
      && !filterArg.FilterString?
      && (columns.Some? ==> ColumnsFilter(columns.value).Ok?)
    ensures r.Ok? && rowPrefix.Some? ==>
      r.value.rowStart == rowPrefix && r.value.rowStop == Some(Successor(rowPrefix.value))
    ensures r.Ok? && rowPrefix.None? ==> r.value.rowStart == rowStart && r.value.rowStop == rowStop
    ensures r.Ok? ==> r.value.filter == ScanFilter(columns, timestamp, filterArg).value
    ensures r.Err? && kwargs <= LegacyScanArgs && (limit.None? || limit.value >= 1)
            && (rowPrefix.Some? ==> rowStart.None? && rowStop.None?) && !filterArg.FilterString?
      ==> r == Err(ScanFilter(columns, timestamp, filterArg).error)
  {
    var unexpected := kwargs - LegacyScanArgs;
    if unexpected != {} then Err(UnexpectedArguments(unexpected))
    else if limit.Some? && limit.value < 1 then Err(LimitNotPositive)
    else if rowPrefix.Some? && (rowStart.Some? || rowStop.Some?) then Err(PrefixWithRange)
    else
      var start := if rowPrefix.Some? then rowPrefix else rowStart;
      var stop := if rowPrefix.Some? then Some(Successor(rowPrefix.value)) else rowStop;
      if filterArg.FilterString? then Err(StringFilter)
      else
        var filter :- ScanFilter(columns, timestamp, filterArg);
        Ok(ScanPlan(start, stop, filter))
  }

  /** A read of several rows: its keys and its filter. */
  datatype ReadRequest = ReadRequest(rowKeys: seq<Bytes>, filter: Filter)

  /** `Table.rows` up to the read: no keys means no read at all and an
      empty answer, whatever the columns; otherwise the columns' filter,
      a limit of one version and the time range are chained. */
  function RowsRequest(rows: seq<Bytes>, columns: Option<seq<string>>, timestamp: Option<int>): (r: Result<Option<ReadRequest>>)
    ensures rows == [] ==> r == Ok(None)
    ensures rows != [] ==> (r.Ok? <==> columns.None? || ColumnsFilter(columns.value).Ok?)
    ensures rows != [] && columns.Some? && r.Err? ==> r == Err(ColumnsFilter(columns.value).error)
    ensures rows != [] && r.Ok? ==> r.value.Some? && r.value.value.rowKeys == rows
    ensures rows != [] && r.Ok? && columns.None? && timestamp.None? ==> r.value.value.filter == CellsColumnLimit(1)
  {
    if rows == [] then Ok(None)
    else
      var base :- if columns.Some? then
          var f :- ColumnsFilter(columns.value); Ok([f])
        else Ok([]);
      var chain := FilterChainHelper(None, Some(1), timestamp, base);
      Ok(Some(ReadRequest(rows, chain.1.value)))
  }

  // ---- garbage collection rules ------------------------------------------

  /** What `_gc_rule_to_dict` answers: a HappyBase option dictionary
      (ages in seconds) or the rule itself. */
  datatype RuleView = RuleDict(options: map<string, int>) | RuleObject(rule: GcRule)

  predicate SimpleRule(rule: GcRule) {
    rule.MaxAge? || rule.MaxVersions?
  }

  /** The dictionary of one simple rule. */
  function SimpleRuleDict(rule: GcRule): (d: map<string, int>)
    requires SimpleRule(rule)
    ensures |d| == 1
  {
    if rule.MaxAge? then map["time_to_live" := rule.seconds] else map["max_versions" := rule.count]
  }

  /** `_gc_rule_to_dict`: no rule is the empty dictionary, a simple rule a
      one-entry dictionary, an intersection of two simple rules of different
      kinds the union of their dictionaries; any other rule is kept. */
  function GcRuleToDict(rule: Option<GcRule>): (r: RuleView)
    ensures r.RuleDict? <==>
      || rule.None?
      || SimpleRule(rule.value)
      || (rule.value.Intersection? && |rule.value.rules| == 2
          && SimpleRule(rule.value.rules[0]) && SimpleRule(rule.value.rules[1])
          && rule.value.rules[0].MaxAge? != rule.value.rules[1].MaxAge?)
    ensures r.RuleObject? ==> rule.Some? && r.rule == rule.value
    ensures r.RuleDict? ==> r.options.Keys <= {"time_to_live", "max_versions"}
    ensures r.RuleDict? && rule.Some? ==> r.options != map[]
    ensures rule.None? ==> r == RuleDict(map[])
    ensures rule.Some? && rule.value.MaxAge? ==> r == RuleDict(map["time_to_live" := rule.value.seconds])
    ensures rule.Some? && rule.value.MaxVersions? ==> r == RuleDict(map["max_versions" := rule.value.count])
    ensures rule.Some? && rule.value.Intersection? && |rule.value.rules| == 2
            && rule.value.rules[0].MaxAge? && rule.value.rules[1].MaxVersions? ==>
      r == RuleDict(map["time_to_live" := rule.value.rules[0].seconds, "max_versions" := rule.value.rules[1].count])
    ensures rule.Some? && rule.value.Intersection? && |rule.value.rules| == 2
            && rule.value.rules[0].MaxVersions? && rule.value.rules[1].MaxAge? ==>
      r == RuleDict(map["time_to_live" := rule.value.rules[1].seconds, "max_versions" := rule.value.rules[0].count])
  {
    if rule.None? then RuleDict(map[])
    else
      var g := rule.value;
      if SimpleRule(g) then RuleDict(SimpleRuleDict(g))
      else if g.Intersection? && |g.rules| == 2 && SimpleRule(g.rules[0]) && SimpleRule(g.rules[1]) then
        var d1 := SimpleRuleDict(g.rules[0]);
        var d2 := SimpleRuleDict(g.rules[1]);
        if g.rules[0].MaxAge? != g.rules[1].MaxAge? then RuleDict(d1 + d2) else RuleObject(g)
      else RuleObject(g)
  }

  /** The two orders of an age and a versions rule in an intersection read
      back as the same dictionary. */
  lemma GcRuleToDictOrderFree(age: GcRule, versions: GcRule)
    requires age.MaxAge? && versions.MaxVersions?
    ensures GcRuleToDict(Some(Intersection([age, versions]))) == GcRuleToDict(Some(Intersection([versions, age])))
    ensures GcRuleToDict(Some(Intersection([age, versions])))
      == RuleDict(map["time_to_live" := age.seconds, "max_versions" := versions.count])
  {
    var g1 := Intersection([age, versions]);
    var g2 := Intersection([versions, age]);
    assert g1.rules[0] == age && g1.rules[1] == versions;
    assert g2.rules[0] == versions && g2.rules[1] == age;
  }

  // ---- counters --------------------------------------------------------------

  /** 256 to the power n. */
  function Pow256(n: nat): (p: nat)
    ensures p >= 1
  {
    if n == 0 then 1 else 256 * Pow256(n - 1)
  }

  const TwoTo63: int := 0x8000_0000_0000_0000
  const TwoTo64: int := 0x1_0000_0000_0000_0000

  /** The unsigned big-endian value of a byte string. */
  function FromBigEndian(b: Bytes): (u: nat)
    ensures u < Pow256(|b|)
  {
    if b == [] then 0 else FromBigEndian(b[..|b| - 1]) * 256 + b[|b| - 1]
  }

  /** The n low bytes of u, most significant first. */
  function ToBigEndian(u: nat, n: nat): (b: Bytes)
    ensures |b| == n
  {
    if n == 0 then [] else ToBigEndian(u / 256, n - 1) + [u % 256]
  }

  /** `struct.pack('>q', v)`: eight bytes of big-endian two's complement. */
  function PackI64(v: int): (b: Bytes)
    requires -TwoTo63 <= v < TwoTo63
    ensures |b| == 8
  {
    ToBigEndian(if v < 0 then v + TwoTo64 else v, 8)
  }

  /** `struct.unpack('>q', b)` on eight bytes. */
  function UnpackI64(b: Bytes): (v: int)
    requires |b| == 8
    ensures -TwoTo63 <= v < TwoTo63
  {
    assert Pow256(8) == TwoTo64;
    var u := FromBigEndian(b);
    if u >= TwoTo63 then u - TwoTo64 else u
  }

  /** Bytes read back from the big-endian encoding of a value that fits. */
  lemma {:induction false} FromToBigEndian(u: nat, n: nat)
    requires u < Pow256(n)
    ensures FromBigEndian(ToBigEndian(u, n)) == u
  {
    if n > 0 {
      var p := Pow256(n - 1);
      var q, r := u / 256, u % 256;
      assert u == 256 * q + r && 0 <= r < 256;
      assert 256 * q <= u < Pow256(n) == 256 * p;
      FromToBigEndian(q, n - 1);
      var b := ToBigEndian(u, n);
      assert b == ToBigEndian(q, n - 1) + [r];
      assert b[..n - 1] == ToBigEndian(q, n - 1) && b[n - 1] == r;
    }
  }

  /** The big-endian encoding of a byte string's value is the string. */
  lemma {:induction false} ToFromBigEndian(b: Bytes)
    ensures ToBigEndian(FromBigEndian(b), |b|) == b
  {
    if b != [] {
      var n := |b| - 1;
      var init := b[..n];
      ToFromBigEndian(init);
      var u := FromBigEndian(b);
      assert u == FromBigEndian(init) * 256 + b[n];
      assert u / 256 == FromBigEndian(init) && u % 256 == b[n];
      assert b == init + [b[n]];
    }
  }

  /** Unpacking undoes packing. */
  lemma UnpackPack(v: int)
    requires -TwoTo63 <= v < TwoTo63
    ensures UnpackI64(PackI64(v)) == v
  {
    var u := if v < 0 then v + TwoTo64 else v;
    assert Pow256(8) == TwoTo64;
    FromToBigEndian(u, 8);
  }

  /** Packing undoes unpacking. */
  lemma PackUnpack(b: Bytes)
    requires |b| == 8
    ensures PackI64(UnpackI64(b)) == b
  {
    ToFromBigEndian(b);
    assert Pow256(8) == TwoTo64;
  }

  /** The increment counter_inc asks the server to apply. */
  datatype Increment = Increment(family: string, qualifier: string, delta: int)

  /** What AppendRow.commit() answers: the cell values of each modified
      column, by family and then by qualifier. */
  type ModifiedCells = map<string, map<string, seq<Bytes>>>

  /** `counter_inc` around its commit: the column must split into exactly
      family and qualifier before anything is sent; the answer must hold
      the column, with exactly one cell of eight bytes, read as a signed
      big-endian integer. Returns the increment sent, if any, and the result. */
  function CounterInc(column: string, value: int, modified: ModifiedCells): (r: (Option<Increment>, Result<int>))
    ensures r.0.None? <==> ColonCount(column) != 1
    ensures r.0.None? ==> r.1 == Err(ColumnNotPair)
    ensures r.0.Some? ==>
      && column == r.0.value.family + ":" + r.0.value.qualifier
      && r.0.value.delta == value
      && (r.1.Ok? ==> -TwoTo63 <= r.1.value < TwoTo63)
      && var f, q := r.0.value.family, r.0.value.qualifier;
      && (f !in modified || q !in modified[f] ==> r.1 == Err(MissingCell))
      && (f in modified && q in modified[f] && |modified[f][q]| != 1 ==> r.1 == Err(NotOneCell))
      && (f in modified && q in modified[f] && |modified[f][q]| == 1 && |modified[f][q][0]| != 8 ==> r.1 == Err(CounterNotEightBytes))
      && (f in modified && q in modified[f] && |modified[f][q]| == 1 && |modified[f][q][0]| == 8 ==> r.1.Ok?)
      && (r.1.Ok? ==> f in modified && q in modified[f] && |modified[f][q]| == 1 && |modified[f][q][0]| == 8
                      && PackI64(r.1.value) == modified[f][q][0])
  {
    match SplitPair(column)
    case Err(e) => (None, Err(e))
    case Ok((family, qualifier)) =>
      var sent := Some(Increment(family, qualifier, value));
      if family !in modified || qualifier !in modified[family] then (sent, Err(MissingCell))
      else
        var cells := modified[family][qualifier];
        if |cells| != 1 then (sent, Err(NotOneCell))
        else if |cells[0]| != 8 then (sent, Err(CounterNotEightBytes))
        else
          PackUnpack(cells[0]);
          (sent, Ok(UnpackI64(cells[0])))
  }

  /** `counter_dec`: an increment by the negated amount. */
  function CounterDec(column: string, value: int, modified: ModifiedCells): (r: (Option<Increment>, Result<int>))
    ensures r == CounterInc(column, -value, modified)
    ensures r.0.None? <==> ColonCount(column) != 1
    ensures r.0.None? ==> r.1 == Err(ColumnNotPair)
    ensures r.0.Some? ==> r.0.value.delta == -value && column == r.0.value.family + ":" + r.0.value.qualifier
    ensures r.1.Ok? ==>
      var f, q := r.0.value.family, r.0.value.qualifier;
      && -TwoTo63 <= r.1.value < TwoTo63
      && f in modified && q in modified[f] && modified[f][q] == [PackI64(r.1.value)]
  {
    var r := CounterInc(column, -value, modified);
    if r.1.Ok? then
      var f, q := r.0.value.family, r.0.value.qualifier;
      assert modified[f][q] == [PackI64(r.1.value)];
      r
    else r
  }
}
