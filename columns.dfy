/** Column specifiers `fam`, `fam:` and `fam:qual`, and their parsing into
    (family, qualifier) pairs (`_get_column_pairs` in batch.py). */
module ColumnPairs {
  import opened Common

  /** A parsed column: a family and, unless the whole family is meant, a qualifier. */
  datatype ColumnPair = ColumnPair(family: string, qualifier: Option<string>)

  /** Number of `:` separators, as str.count(":") gives it. */
  function ColonCount(s: string): nat {
    multiset(s)[':']
  }

  /** The column with one trailing `:` removed, if it has one. */
  function StripTrailingColon(column: string): (s: string)
    ensures |column| > 0 && column[|column| - 1] == ':' ==> column == s + [':']
    ensures !(|column| > 0 && column[|column| - 1] == ':') ==> s == column
  {
    if |column| > 0 && column[|column| - 1] == ':' then column[..|column| - 1] else column
  }

  /** Index of the first `:` of a string that has one. */
  function FirstColon(s: string): (i: nat)
    requires ':' in s
    ensures i < |s| && s[i] == ':' && ':' !in s[..i]
  {
    if s[0] == ':' then 0
    else
      var j := FirstColon(s[1..]);
      assert s[..j + 1] == [s[0]] + s[1..][..j];
      j + 1
  }

  /** The specifier a pair stands for. */
  function Render(p: ColumnPair): string {
    match p.qualifier
    case None => p.family
    case Some(q) => p.family + ":" + q
  }

  /** str.split(":") unpacked into exactly two parts; any other number of
      parts is the ValueError of a failed tuple unpacking. */
  function SplitPair(column: string): (r: Result<(string, string)>)
    ensures r.Ok? <==> ColonCount(column) == 1
    ensures r.Err? ==> r.error == ColumnNotPair
    ensures r.Ok? ==> column == r.value.0 + ":" + r.value.1 && ':' !in r.value.0 && ':' !in r.value.1
  {
    if ColonCount(column) == 1 then
      var i := FirstColon(column);
      assert column == column[..i] + [column[i]] + column[i + 1..];
      assert multiset(column) == multiset(column[..i]) + multiset([column[i]]) + multiset(column[i + 1..]);
      Ok((column[..i], column[i + 1..]))
    else
      Err(ColumnNotPair)
  }

  /** One specifier: one trailing `:` is dropped, then no separator names a
      whole family (refused when a qualifier is required), one separator
      splits family from qualifier, and more are malformed. */
  function ParseColumn(column: string, requireQualifier: bool): (r: Result<ColumnPair>)
    ensures var s := StripTrailingColon(column);
      && (r.Ok? <==> ColonCount(s) == 1 || (ColonCount(s) == 0 && !requireQualifier))
      && (r.Err? ==> r.error == if ColonCount(s) == 0 then MissingQualifier else TooManySeparators)
      && (r.Ok? ==> Render(r.value) == s)
      && (r.Ok? ==> (r.value.qualifier.None? <==> ColonCount(s) == 0))
    ensures r.Ok? ==> ':' !in r.value.family && (r.value.qualifier.Some? ==> ':' !in r.value.qualifier.value)
  {
    var s := StripTrailingColon(column);
    var n := ColonCount(s);
    if n == 0 then
      if requireQualifier then Err(MissingQualifier) else Ok(ColumnPair(s, None))
    else if n == 1 then
      var (family, qualifier) := SplitPair(s).value;
      Ok(ColumnPair(family, Some(qualifier)))
    else
      Err(TooManySeparators)
  }

  /** `_get_column_pairs`: every specifier parsed in order; one malformed
      specifier makes the whole call fail. */
  function GetColumnPairs(columns: seq<string>, requireQualifier: bool): (r: Result<seq<ColumnPair>>)
    ensures r.Ok? <==> forall i | 0 <= i < |columns| :: ParseColumn(columns[i], requireQualifier).Ok?
    ensures r.Ok? ==> |r.value| == |columns|
    ensures r.Ok? ==> forall i | 0 <= i < |columns| :: r.value[i] == ParseColumn(columns[i], requireQualifier).value
  {
    if columns == [] then Ok([])
    else
      var first := ParseColumn(columns[0], requireQualifier);
      if first.Err? then Err(first.error)
      else
        var rest := GetColumnPairs(columns[1..], requireQualifier);
        if rest.Err? then Err(rest.error) else Ok([first.value] + rest.value)
  }

  /** The error reported is that of the first malformed specifier. */
  lemma {:induction false} GetColumnPairsFirstError(columns: seq<string>, requireQualifier: bool, k: nat)
    requires k < |columns| && ParseColumn(columns[k], requireQualifier).Err?
    requires forall j | 0 <= j < k :: ParseColumn(columns[j], requireQualifier).Ok?
    ensures GetColumnPairs(columns, requireQualifier) == Err(ParseColumn(columns[k], requireQualifier).error)
  {
    if k > 0 {
      var tail := columns[1..];
      assert ParseColumn(columns[0], requireQualifier).Ok?;
      assert tail[k - 1] == columns[k];
      forall j | 0 <= j < k - 1
        ensures ParseColumn(tail[j], requireQualifier).Ok?
      {
        assert tail[j] == columns[j + 1];
      }
      GetColumnPairsFirstError(tail, requireQualifier, k - 1);
    }
  }

  /** Parsing undoes rendering: a pair whose parts hold no `:` (and whose
      qualifier, if any, is not empty) comes back unchanged. */
  lemma {:induction false} ParseRender(p: ColumnPair, requireQualifier: bool)
    requires ':' !in p.family
    requires p.qualifier.Some? ==> ':' !in p.qualifier.value && p.qualifier.value != ""
    requires requireQualifier ==> p.qualifier.Some?
    ensures ParseColumn(Render(p), requireQualifier) == Ok(p)
  {
    var s := Render(p);
    match p.qualifier
    case None =>
      assert ColonCount(s) == 0;
      if |s| > 0 {
        assert s[|s| - 1] in s;
      }
      assert StripTrailingColon(s) == s;
    case Some(q) =>
      assert s[|s| - 1] == q[|q| - 1];
      assert q[|q| - 1] in q;
      assert StripTrailingColon(s) == s;
      assert multiset(s) == multiset(p.family) + multiset([':']) + multiset(q);
      var r := SplitPair(s).value;
      assert s == r.0 + ":" + r.1;
      SplitUnique(p.family, q, r.0, r.1);
  }

  /** One trailing `:` is ignored: `fam:` names what `fam` names, and
      `fam:qual:` what `fam:qual` names. */
  lemma ParseIgnoresTrailingColon(column: string, requireQualifier: bool)
    requires |column| == 0 || column[|column| - 1] != ':'
    ensures ParseColumn(column + ":", requireQualifier) == ParseColumn(column, requireQualifier)
  {
    assert (column + ":")[..|column|] == column;
    assert StripTrailingColon(column + ":") == column == StripTrailingColon(column);
  }

  /** Splitting at the only separator is unique. */
  lemma SplitUnique(a: string, b: string, c: string, d: string)
    requires a + ":" + b == c + ":" + d
    requires ':' !in a && ':' !in c
    ensures a == c && b == d
  {
    var s := a + ":" + b;
    FirstColonAfter(a, b);
    FirstColonAfter(c, d);
    assert a == s[..|a|] == c;
    assert b == s[|a| + 1..] == d;
  }

  /** The first separator of `a:b` sits right after a separator-free `a`. */
  lemma {:induction false} FirstColonAfter(a: string, b: string)
    requires ':' !in a
    ensures ':' in a + ":" + b && FirstColon(a + ":" + b) == |a|
  {
    var s := a + ":" + b;
    assert s[|a|] == ':';
    if a != [] {
      assert s[1..] == a[1..] + ":" + b;
      FirstColonAfter(a[1..], b);
    }
  }
}
