/**
 * The queries applied to what the parser produces: names resolve through the parser's
 * own numbering, presence and "has an entry" agree, and the two numberings share one
 * dictionary of occurrences.
 */
module QueriesOnParseResults {
  import opened Wrappers
  import opened CliOption
  import opened ParsedResults
  import opened OptionsParsing
  import opened OptionsParserLemmas
  import opened OptionsProcessing

  /**
   * On a parse result, a character resolves to `i` exactly when it is the short character
   * of the `i`-th option that has one, and a long name to `i` exactly when it is the name of
   * the `i`-th option with a non-empty long name.
   */
  lemma ResolutionFollowsNumbering(options: seq<OptionSpec>, args: seq<string>, offset: nat,
                                   allowedGroups: Option<seq<string>>, c: char, s: string, i: nat)
    requires NewOptionsParser(options).Success? && offset <= |args|
    ensures var q := NewOptionsProcessor(ParseSpec(NewOptionsParser(options).value, args, offset, allowedGroups));
      (q.ResolveShort(c) == Some(i) <==> i < |ShortKeys(options)| && ShortKeys(options)[i] == c) &&
      (q.ResolveLong(s) == Some(i) <==> i < |LongKeys(options)| && LongKeys(options)[i] == s)
  {
    var p := NewOptionsParser(options).value;
    if c in p.charToIndex {
      var j :| 0 <= j < |ShortKeys(options)| && ShortKeys(options)[j] == c;
      assert p.charToIndex[c] == j;
    }
    if s in p.stringToIndex {
      var j :| 0 <= j < |LongKeys(options)| && LongKeys(options)[j] == s;
      assert p.stringToIndex[s] == j;
    }
  }

  /** On a parse result, `TryGetAllParams` succeeds exactly when the option is present. */
  lemma ParsedAllParamsIffPresent(p: OptionsParser, args: seq<string>, offset: nat,
                                  allowedGroups: Option<seq<string>>, name: Name)
    requires p.Valid() && offset <= |args|
    ensures var q := NewOptionsProcessor(ParseSpec(p, args, offset, allowedGroups));
      q.TryGetAllParams(name).0 <==> q.IsOptionPresent(name)
  {
    ParseWellFormed(p, args, offset, allowedGroups);
    AllParamsFoundIffPresent(NewOptionsProcessor(ParseSpec(p, args, offset, allowedGroups)), name);
  }

  /** An option with only the short character `a`, and one with only the long name `--b`. */
  const OnlyShort := OptionSpec(Some('a'), None, 1, None, None, [])
  const OnlyLong := OptionSpec(None, Some("--b"), 1, None, None, [])

  /** The first of the two options is the only one with a short character, the second the only one with a long name. */
  lemma ExampleKeys()
    ensures ShortKeys([OnlyShort, OnlyLong]) == ['a'] && LongKeys([OnlyShort, OnlyLong]) == ["--b"]
    ensures LongNamed([OnlyShort, OnlyLong]) == [OnlyLong]
  {
    var options := [OnlyShort, OnlyLong];
    assert options[1..] == [OnlyLong] && options[1..][1..] == [];
    assert ShortNamed([OnlyLong]) == [] + ShortNamed([]);
    assert ShortNamed(options) == [OnlyShort] + ShortNamed([OnlyLong]);
    assert LongNamed([OnlyLong]) == [OnlyLong] + LongNamed([]);
    assert LongNamed(options) == [] + LongNamed([OnlyLong]);
  }

  /** The parser for the two options above numbers both of them 0. */
  lemma ExampleNumbering()
    ensures var r := NewOptionsParser([OnlyShort, OnlyLong]);
      r.Success? &&
      r.value.charToIndex == map['a' := 0] && r.value.stringToIndex == map["--b" := 0] &&
      "--b" in r.value.longOptions && r.value.longOptions["--b"] == OnlyLong
  {
    ExampleKeys();
    LongTableComplete([OnlyShort, OnlyLong]);
  }

  /**
   * Short characters and long names are numbered separately, from 0 each, yet occurrences
   * of both are filed in one dictionary by number. With the two options above, `-a` and
   * `--b` both get number 0, so after parsing just `--b` the query for `a` finds it.
   */
  lemma ShortQueryFindsLongOccurrence()
    ensures var r := NewOptionsParser([OnlyShort, OnlyLong]);
      r.Success? &&
      var q := NewOptionsProcessor(ParseSpec(r.value, ["--b"], 0, None));
      q.IsOptionPresent(Short('a')) && q.IsOptionPresent(Long("--b"))
  {
    ExampleNumbering();
    var p := NewOptionsParser([OnlyShort, OnlyLong]).value;
    var args := ["--b"];
    var st := InitialResult(p);
    assert '=' !in args[0] && StartsWith(args[0], "--");
    LongTokenRead(p, {}, args, 0, st);
    var o := ParsedOption(0, false, 0, []);
    assert args[1..1] == [];
    assert StepAt(p, {}, args, 0, st) == Next(1, AddOccurrence(st, o));
    assert ParseSpec(p, args, 0, None) == AddOccurrence(st, o);
  }
}
