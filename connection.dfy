/** The name and option logic of connection.py: instance discovery, the
    constructor's argument checks, table-name prefixing and its inverse in
    the table listing, and the column family options of create_table. */
module Connections {
  import opened Common
  import opened Bigtable
  import opened ColumnPairs
  import opened TableHelpers

  /** `_get_instance` on the answer of list_instances: exactly one instance
      and no failed location. */
  function GetInstance(listing: InstanceListing): (r: Result<Instance>)
    ensures r.Ok? <==> listing.failedLocations == [] && |listing.instances| == 1
    ensures r.Ok? ==> r.value in listing.instances
    ensures listing.failedLocations != [] ==> r == Err(FailedLocations)
    ensures listing.failedLocations == [] && listing.instances == [] ==> r == Err(NoInstances)
    ensures listing.failedLocations == [] && |listing.instances| > 1 ==> r == Err(ManyInstances)
    ensures r.Err? ==> r.error.Class() == ValueError
  {
    if listing.failedLocations != [] then Err(FailedLocations)
    else if |listing.instances| == 0 then Err(NoInstances)
    else if |listing.instances| > 1 then Err(ManyInstances)
    else Ok(listing.instances[0])
  }

  /** Keywords HappyBase accepted that are ignored here, with a warning. */
  const LegacyArgs: set<string> := {"host", "port", "compat", "transport", "protocol"}

  /** `_handle_legacy_args`: the legacy keywords are dropped (the ones
      dropped are returned) and any other keyword is refused by name. */
  function HandleLegacyArgs(kwargs: set<string>): (r: Result<set<string>>)
    ensures r.Ok? <==> kwargs <= LegacyArgs
    ensures r.Ok? ==> r.value == kwargs
    ensures r.Err? ==> r.error == UnexpectedArguments(kwargs - LegacyArgs) && r.error.names != {}
  {
    var unexpected := kwargs - LegacyArgs;
    if unexpected != {} then Err(UnexpectedArguments(unexpected)) else Ok(kwargs * LegacyArgs)
  }

  /** A connection: its table-name prefix and separator and its instance. */
  datatype Connection = Connection(tablePrefix: Option<string>, separator: string, instance: Instance)

  /** The constructor's arguments; a PyNone prefix is the default (no
      prefix), and an absent instance is looked up. */
  datatype ConnectionArgs = ConnectionArgs(
    tablePrefix: PyValue,
    separator: PyValue,
    instance: Option<Instance>,
    kwargs: set<string>)

  /** Whether the checks of `Connection(...)` that come before its instance
      lookup pass. */
  predicate ConstructorChecksPass(args: ConnectionArgs) {
    args.kwargs <= LegacyArgs && (args.tablePrefix.PyNone? || args.tablePrefix.PyStr?) && args.separator.PyStr?
  }

  /** `Connection(...)`: keywords, then the prefix and the separator types,
      then the instance, which is looked up only when none was passed
      (`listing` is what that lookup would see). */
  function NewConnection(args: ConnectionArgs, listing: InstanceListing): (r: Result<Connection>)
    ensures !(args.kwargs <= LegacyArgs) ==> r == Err(UnexpectedArguments(args.kwargs - LegacyArgs))
    ensures args.kwargs <= LegacyArgs && !(args.tablePrefix.PyNone? || args.tablePrefix.PyStr?) ==> r == Err(PrefixNotString)
    ensures args.kwargs <= LegacyArgs && (args.tablePrefix.PyNone? || args.tablePrefix.PyStr?) && !args.separator.PyStr?
      ==> r == Err(SeparatorNotString)
    ensures args.kwargs <= LegacyArgs && (args.tablePrefix.PyNone? || args.tablePrefix.PyStr?) && args.separator.PyStr?
            && args.instance.None? && GetInstance(listing).Err?
      ==> r == Err(GetInstance(listing).error)
    ensures r.Err? ==> (r.error.Class() == TypeError <==> !ConstructorChecksPass(args))
    ensures r.Ok? <==>
      && args.kwargs <= LegacyArgs
      && (args.tablePrefix.PyNone? || args.tablePrefix.PyStr?)
      && args.separator.PyStr?
      && (args.instance.Some? || GetInstance(listing).Ok?)
    ensures r.Ok? ==>
      && r.value.tablePrefix == (if args.tablePrefix.PyStr? then Some(args.tablePrefix.s) else None)
      && r.value.separator == args.separator.s
      && r.value.instance == (if args.instance.Some? then args.instance.value else GetInstance(listing).value)
  {
    var _ :- HandleLegacyArgs(args.kwargs);
    if !(args.tablePrefix.PyNone? || args.tablePrefix.PyStr?) then Err(PrefixNotString)
    else if !args.separator.PyStr? then Err(SeparatorNotString)
    else
      var instance :- if args.instance.Some? then Ok(args.instance.value) else GetInstance(listing);
      Ok(Connection(if args.tablePrefix.PyStr? then Some(args.tablePrefix.s) else None, args.separator.s, instance))
  }

  /** `_table_name`: the prefix and separator are put in front, when there is a prefix. */
  function TableName(conn: Connection, name: string): (full: string)
    ensures conn.tablePrefix.None? ==> full == name
    ensures conn.tablePrefix.Some? ==> conn.tablePrefix.value + conn.separator <= full
    ensures conn.tablePrefix.Some? ==> |full| == |conn.tablePrefix.value| + |conn.separator| + |name|
    ensures |full| >= |name| && full[|full| - |name|..] == name
  {
    if conn.tablePrefix.None? then name else conn.tablePrefix.value + conn.separator + name
  }

  /** `tables()`: the instance's table names that carry this connection's
      prefix and separator, with those stripped, in listing order. */
  function Tables(conn: Connection, all: seq<string>): (r: seq<string>)
    ensures conn.tablePrefix.None? ==> r == all
    ensures |r| <= |all|
  {
    if conn.tablePrefix.None? then all
    else if all == [] then []
    else
      var prefix := TableName(conn, "");
      var rest := Tables(conn, all[1..]);
      if prefix <= all[0] then [all[0][|prefix|..]] + rest else rest
  }

  /** The listing and the naming agree: a short name is listed exactly when
      its full name is among the instance's tables. */
  lemma {:induction false} TablesInverse(conn: Connection, all: seq<string>, name: string)
    ensures name in Tables(conn, all) <==> TableName(conn, name) in all
  {
    if conn.tablePrefix.Some? && all != [] {
      var prefix := TableName(conn, "");
      TablesInverse(conn, all[1..], name);
      assert TableName(conn, name) == prefix + name;
      if prefix <= all[0] {
        assert all[0] == prefix + all[0][|prefix|..];
        if name == all[0][|prefix|..] {
          assert TableName(conn, name) == all[0];
        }
        if TableName(conn, name) == all[0] {
          assert all[0][|prefix|..] == name;
        }
      } else {
        assert TableName(conn, name) != all[0];
      }
      assert all == [all[0]] + all[1..];
    }
  }

  /** Distinct short names get distinct full names. */
  lemma TableNameInjective(conn: Connection, a: string, b: string)
    requires TableName(conn, a) == TableName(conn, b)
    ensures a == b
  {
    var full := TableName(conn, a);
    assert |a| == |b|;
    assert a == full[|full| - |a|..] == b;
  }

  /** Every listed short name names a table of the instance. */
  lemma TablesNamesExist(conn: Connection, all: seq<string>)
    ensures forall n | n in Tables(conn, all) :: TableName(conn, n) in all
  {
    forall n | n in Tables(conn, all)
      ensures TableName(conn, n) in all
    {
      TablesInverse(conn, all, n);
    }
  }

  // ---- column family options -----------------------------------------------

  /** A column family option as create_table receives it: an option
      dictionary (a None value is Python None), a rule, or None. */
  datatype FamilyOption =
    | OptionDict(options: map<string, Option<int>>)
    | OptionRule(rule: GcRule)
    | OptionNone

  /** Whether an option parses: everything but an explicit `time_to_live` of None. */
  predicate OptionParses(option: FamilyOption) {
    !(option.OptionDict? && "time_to_live" in option.options && option.options["time_to_live"].None?)
  }

  /** `_parse_family_option`: from a dictionary, max_versions (unless None)
      gives a versions rule and time_to_live an age rule, both an
      intersection of the age then the versions rule, neither no rule; an
      explicit time_to_live of None fails; other keys are ignored, and
      anything but a dictionary is passed through. */
  function ParseFamilyOption(option: FamilyOption): (r: Result<Option<GcRule>>)
    ensures r.Ok? <==> OptionParses(option)
    ensures option.OptionRule? ==> r == Ok(Some(option.rule))
    ensures option.OptionNone? ==> r == Ok(None)
    ensures option.OptionDict? ==>
      var d := option.options;
      var versions := if "max_versions" in d then d["max_versions"] else None;
      && (r.Err? <==> "time_to_live" in d && d["time_to_live"].None?)
      && (r.Err? ==> r.error == TimeToLiveNotNumber)
      && (r.Ok? && versions.None? && "time_to_live" !in d ==> r.value.None?)
      && (r.Ok? && versions.Some? && "time_to_live" !in d ==> r.value == Some(MaxVersions(versions.value)))
      && (r.Ok? && versions.None? && "time_to_live" in d ==> r.value == Some(MaxAge(d["time_to_live"].value)))
      && (r.Ok? && versions.Some? && "time_to_live" in d ==>
            r.value == Some(Intersection([MaxAge(d["time_to_live"].value), MaxVersions(versions.value)])))
  {
    match option
    case OptionNone => Ok(None)
    case OptionRule(rule) => Ok(Some(rule))
    case OptionDict(d) =>
      var versions := if "max_versions" in d then d["max_versions"] else None;
      if "time_to_live" in d && d["time_to_live"].None? then Err(TimeToLiveNotNumber)
      else
        var age := if "time_to_live" in d then Some(MaxAge(d["time_to_live"].value)) else None;
        var versionsRule := if versions.Some? then Some(MaxVersions(versions.value)) else None;
        if versionsRule.None? then Ok(age)
        else if age.None? then Ok(versionsRule)
        else Ok(Some(Intersection([age.value, versionsRule.value])))
  }

  /** The option dictionary whose values are all given. */
  function AsOptions(d: map<string, int>): map<string, Option<int>> {
    map k | k in d :: Some(d[k])
  }

  /** Reading back the options of a rule, then parsing them, gives the
      rule again: no rule, an age rule, a versions rule, and the
      intersection of an age and a versions rule in that order. */
  lemma RuleDictRoundTrip(rule: Option<GcRule>)
    requires || rule.None? || SimpleRule(rule.value)
             || (rule.value.Intersection? && |rule.value.rules| == 2
                 && rule.value.rules[0].MaxAge? && rule.value.rules[1].MaxVersions?)
    ensures GcRuleToDict(rule).RuleDict?
    ensures ParseFamilyOption(OptionDict(AsOptions(GcRuleToDict(rule).options))) == Ok(rule)
  {
    var d := AsOptions(GcRuleToDict(rule).options);
    if rule.Some? && rule.value.Intersection? {
      var g := rule.value;
      assert g == Intersection([g.rules[0], g.rules[1]]);
      assert "time_to_live" in d && "max_versions" in d;
    }
  }

  /** Parsing option dictionaries and reading the rule back as options
      gives the dictionary again, for any dictionary of given values under
      the two supported keys. */
  lemma OptionsRoundTrip(d: map<string, int>)
    requires d.Keys <= {"time_to_live", "max_versions"}
    ensures ParseFamilyOption(OptionDict(AsOptions(d))).Ok?
    ensures GcRuleToDict(ParseFamilyOption(OptionDict(AsOptions(d))).value) == RuleDict(d)
  {
    var r := ParseFamilyOption(OptionDict(AsOptions(d)));
    if "time_to_live" in d && "max_versions" in d {
      assert d == map["time_to_live" := d["time_to_live"], "max_versions" := d["max_versions"]];
    } else if "time_to_live" in d {
      assert d == map["time_to_live" := d["time_to_live"]];
    } else if "max_versions" in d {
      assert d == map["max_versions" := d["max_versions"]];
    } else {
      assert d == map[];
    }
  }

  // ---- create_table -----------------------------------------------------------

  /** The `families` argument: a dictionary as its items, or anything else. */
  datatype FamiliesArg = FamiliesDict(items: seq<(string, FamilyOption)>) | NotADict

  /** The family names given, one trailing `:` removed from each. */
  function FamilyNames(items: seq<(string, FamilyOption)>): set<string> {
    set i | 0 <= i < |items| :: StripTrailingColon(items[i].0)
  }

  /** The garbage collection rules create_table builds, family by family in
      order: every option is parsed before any request, the first failure
      aborts, and of two names that agree once stripped the later one wins. */
  function FamilyRules(items: seq<(string, FamilyOption)>): (r: Result<map<string, Option<GcRule>>>)
    ensures r.Ok? <==> forall i | 0 <= i < |items| :: OptionParses(items[i].1)
    ensures r.Ok? ==> r.value.Keys == FamilyNames(items)
  {
    if items == [] then Ok(map[])
    else
      var n := |items| - 1;
      var init := items[..n];
      assert forall i | 0 <= i < n :: init[i] == items[i];
      var rules :- FamilyRules(init);
      var rule :- ParseFamilyOption(items[n].1);
      assert FamilyNames(items) == FamilyNames(init) + {StripTrailingColon(items[n].0)};
      Ok(rules[StripTrailingColon(items[n].0) := rule])
  }

  /** The rules of all families are those of all but the last, updated
      with the last family's rule. */
  lemma FamilyRulesSnoc(items: seq<(string, FamilyOption)>)
    requires items != [] && FamilyRules(items).Ok?
    ensures FamilyRules(items[..|items| - 1]).Ok? && ParseFamilyOption(items[|items| - 1].1).Ok?
    ensures FamilyRules(items).value
      == FamilyRules(items[..|items| - 1]).value[StripTrailingColon(items[|items| - 1].0) := ParseFamilyOption(items[|items| - 1].1).value]
  {
  }

  /** Each family gets the rule of the last option given under its name. */
  lemma {:induction false} FamilyRulesLastWins(items: seq<(string, FamilyOption)>, i: nat)
    requires i < |items| && FamilyRules(items).Ok?
    requires forall j | i < j < |items| :: StripTrailingColon(items[j].0) != StripTrailingColon(items[i].0)
    ensures StripTrailingColon(items[i].0) in FamilyRules(items).value
    ensures FamilyRules(items).value[StripTrailingColon(items[i].0)] == ParseFamilyOption(items[i].1).value
  {
    var n := |items| - 1;
    var init := items[..n];
    FamilyRulesSnoc(items);
    if i < n {
      assert init[i] == items[i];
      forall j | i < j < |init|
        ensures StripTrailingColon(init[j].0) != StripTrailingColon(init[i].0)
      {
        assert init[j] == items[j];
      }
      FamilyRulesLastWins(init, i);
      FamilyRulesKeep(items, i);
    }
  }

  /** A family named before the last one, under a different name, keeps
      the rule it had among all but the last family. */
  lemma FamilyRulesKeep(items: seq<(string, FamilyOption)>, i: nat)
    requires i < |items| - 1 && FamilyRules(items).Ok?
    requires StripTrailingColon(items[|items| - 1].0) != StripTrailingColon(items[i].0)
    requires FamilyRules(items[..|items| - 1]).Ok?
    requires StripTrailingColon(items[i].0) in FamilyRules(items[..|items| - 1]).value
    requires FamilyRules(items[..|items| - 1]).value[StripTrailingColon(items[i].0)] == ParseFamilyOption(items[i].1).value
    ensures StripTrailingColon(items[i].0) in FamilyRules(items).value
    ensures FamilyRules(items).value[StripTrailingColon(items[i].0)] == ParseFamilyOption(items[i].1).value
  {
    FamilyRulesSnoc(items);
  }

  /** A failure on a prefix of the families is the failure of the whole. */
  lemma {:induction false} FamilyRulesPrefixError(items: seq<(string, FamilyOption)>, i: nat)
    requires i <= |items| && FamilyRules(items[..i]).Err?
    ensures FamilyRules(items) == FamilyRules(items[..i])
    decreases |items| - i
  {
    if i < |items| {
      assert items[..i + 1][..i] == items[..i];
      FamilyRulesPrefixError(items, i + 1);
    } else {
      assert items[..i] == items;
    }
  }

  /** The table create_table asks the instance for. */
  datatype TableCreation = TableCreation(tableName: string, columnFamilies: map<string, Option<GcRule>>)

  /** `create_table` up to the request: a non-dictionary and an empty
      dictionary are refused, every family option is parsed (one trailing
      `:` stripped from its name) before the request, and the table name
      gets the connection's prefix. */
  method CreateTable(conn: Connection, name: string, families: FamiliesArg) returns (r: Result<TableCreation>)
    ensures families.NotADict? ==> r == Err(FamiliesNotDict)
    ensures families.FamiliesDict? && families.items == [] ==> r == Err(NoFamilies)
    ensures families.FamiliesDict? && families.items != [] ==>
      var rules := FamilyRules(families.items);
      && (rules.Err? ==> r == Err(rules.error))
      && (rules.Ok? ==> r == Ok(TableCreation(TableName(conn, name), rules.value)))
  {
    if families.NotADict? {
      return Err(FamiliesNotDict);
    }
    var items := families.items;
    if items == [] {
      return Err(NoFamilies);
    }
    var rules: map<string, Option<GcRule>> := map[];
    var i := 0;
    while i < |items|
      invariant 0 <= i <= |items|
      invariant FamilyRules(items[..i]) == Ok(rules)
    {
      var (familyName, option) := items[i];
      assert items[..i + 1][..i] == items[..i];
      var rule := ParseFamilyOption(option);
      if rule.Err? {
        FamilyRulesPrefixError(items, i + 1);
        return Err(rule.error);
      }
      rules := rules[StripTrailingColon(familyName) := rule.value];
      i := i + 1;
    }
    assert items[..i] == items;
    r := Ok(TableCreation(TableName(conn, name), rules));
  }
}
