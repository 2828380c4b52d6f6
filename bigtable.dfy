/** The values exchanged with the Cloud Bigtable client library, which the
    compatibility layer builds and hands over but never inspects further. */
module Bigtable {
  import opened Common

  type Byte = b: int | 0 <= b < 256
  type Bytes = seq<Byte>

  /** A cell timestamp range in milliseconds since the epoch: the start is
      inclusive, the end exclusive, and an absent bound is unbounded. */
  datatype TimestampRange = TimestampRange(start: Option<int>, end: Option<int>)

  predicate InTimeRange(range: TimestampRange, t: int) {
    (range.start.None? || range.start.value <= t) && (range.end.None? || t < range.end.value)
  }

  /** Column family garbage collection rules (ages in whole seconds). */
  datatype GcRule =
    | MaxAge(seconds: int)
    | MaxVersions(count: int)
    | Intersection(rules: seq<GcRule>)
    | Union(rules: seq<GcRule>)

  /** Row filters. */
  datatype Filter =
    | FamilyNameRegex(familyRegex: string)
    | ColumnQualifierRegex(qualifierRegex: string)
    | CellsColumnLimit(limit: int)
    | TimestampRangeFilter(range: TimestampRange)
    | Chain(chained: seq<Filter>)
    | Interleave(members: seq<Filter>)

  /** One mutation recorded on a row-mutation builder. */
  datatype Mutation =
    | SetCell(family: string, qualifier: string, value: Bytes, timestamp: Option<int>)
    | DeleteCell(family: string, qualifier: string, timeRange: Option<TimestampRange>)
    | DeleteFamily(family: string)
    | DeleteRow

  /** A row-mutation builder: the row key and its mutations in call order. */
  datatype RowMutations = RowMutations(key: Bytes, mutations: seq<Mutation>)

  /** A Cloud Bigtable instance handle. */
  datatype Instance = Instance(name: string)

  /** The answer of Client.list_instances(): instances and failed locations. */
  datatype InstanceListing = InstanceListing(instances: seq<Instance>, failedLocations: seq<string>)
}
