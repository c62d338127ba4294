/**
 * What the scan records for each option it meets: the outcome of every character of a
 * cluster, and, over a whole parse, that each occurrence belongs to a usable option named
 * by its token and carries exactly as many parameters as that option takes.
 */
module OccurrenceLemmas {
  import opened Wrappers
  import opened CliOption
  import opened ParsedResults
  import opened OptionsParsing
  import opened OptionsParserLemmas

  // ---------------------------------------------------------------------------
  // One character of a cluster
  // ---------------------------------------------------------------------------

  /** An unknown or disallowed character is reported on its own, and the scan goes on with the next one. */
  lemma ClusterUnknownChar(p: OptionsParser, allowed: set<string>, args: seq<string>, t: nat, i: nat,
                           pos: nat, st: ParsedOptionsResult)
    requires p.Valid() && t < |args| && i < |args[t]| && pos <= |args|
    requires var c := args[t][i]; c !in p.shortOptions || !Permitted(p.shortOptions[c], allowed)
    ensures ScanCluster(p, allowed, args, t, i, pos, st) ==
      ScanCluster(p, allowed, args, t, i + 1, pos, AddIllegal(st, [args[t][i]], t, OptionNotSpecified))
  {
  }

  /**
   * The last character of a cluster, when usable, takes its parameters from the following
   * tokens: with too few left it is reported and nothing is popped; otherwise exactly its
   * arity of tokens is popped, recorded as an occurrence not in adjoining form, and the
   * scan of the token ends.
   */
  lemma ClusterLastChar(p: OptionsParser, allowed: set<string>, args: seq<string>, t: nat, i: nat,
                        pos: nat, st: ParsedOptionsResult)
    requires p.Valid() && t < |args| && i == |args[t]| - 1 && pos <= |args|
    requires var c := args[t][i]; c in p.shortOptions && Permitted(p.shortOptions[c], allowed)
    ensures var c := args[t][i];
      var n := |p.shortOptions[c].parameters|;
      var r := ScanCluster(p, allowed, args, t, i, pos, st);
      if n > |args| - pos then
        r == (pos, AddIllegal(st, [c], t, OptionNotEnoughParams))
      else
        r == (pos + n, AddOccurrence(st, ParsedOption(t, false, p.charToIndex[c], args[pos..pos + n])))
  {
  }

  /** A usable character before the last that takes no parameter is recorded as a flag, and the scan goes on. */
  lemma ClusterFlagChar(p: OptionsParser, allowed: set<string>, args: seq<string>, t: nat, i: nat,
                        pos: nat, st: ParsedOptionsResult)
    requires p.Valid() && t < |args| && i < |args[t]| - 1 && pos <= |args|
    requires var c := args[t][i];
      c in p.shortOptions && Permitted(p.shortOptions[c], allowed) && |p.shortOptions[c].parameters| == 0
    ensures ScanCluster(p, allowed, args, t, i, pos, st) ==
      ScanCluster(p, allowed, args, t, i + 1, pos, AddOccurrence(st, ParsedOption(t, true, p.charToIndex[args[t][i]], [])))
  {
  }

  /**
   * A usable character before the last that takes one parameter takes the rest of the
   * token as its value, and the scan of the token ends there.
   */
  lemma ClusterAttachedChar(p: OptionsParser, allowed: set<string>, args: seq<string>, t: nat, i: nat,
                            pos: nat, st: ParsedOptionsResult)
    requires p.Valid() && t < |args| && i < |args[t]| - 1 && pos <= |args|
    requires var c := args[t][i];
      c in p.shortOptions && Permitted(p.shortOptions[c], allowed) && |p.shortOptions[c].parameters| == 1
    ensures ScanCluster(p, allowed, args, t, i, pos, st) ==
      (pos, AddOccurrence(st, ParsedOption(t, true, p.charToIndex[args[t][i]], [args[t][i + 1..]])))
  {
  }

  /** A usable character before the last that takes two or more parameters is reported, and the scan goes on. */
  lemma ClusterMultiParamChar(p: OptionsParser, allowed: set<string>, args: seq<string>, t: nat, i: nat,
                              pos: nat, st: ParsedOptionsResult)
    requires p.Valid() && t < |args| && i < |args[t]| - 1 && pos <= |args|
    requires var c := args[t][i];
      c in p.shortOptions && Permitted(p.shortOptions[c], allowed) && |p.shortOptions[c].parameters| >= 2
    ensures ScanCluster(p, allowed, args, t, i, pos, st) ==
      ScanCluster(p, allowed, args, t, i + 1, pos, AddIllegal(st, [args[t][i]], t, AdjoiningOptionNotSingleParam))
  {
  }

  /** Past the last character the scan of the token ends, leaving the cursor and the result as they are. */
  lemma ClusterEnd(p: OptionsParser, allowed: set<string>, args: seq<string>, t: nat, pos: nat, st: ParsedOptionsResult)
    requires p.Valid() && t < |args| && pos <= |args|
    ensures ScanCluster(p, allowed, args, t, |args[t]|, pos, st) == (pos, st)
  {
  }

  /**
   * With flags `a` and `b`, `x` of one parameter, and `-` not an option, the token `-abxval`
   * reports `-`, records the flags `a` and `b` and then `x` with the value `val`, and pops
   * nothing more.
   */
  lemma ClusterExample(p: OptionsParser, allowed: set<string>, st: ParsedOptionsResult)
    requires p.Valid() && '-' !in p.shortOptions
    requires 'a' in p.shortOptions && p.shortOptions['a'].group.None? && |p.shortOptions['a'].parameters| == 0
    requires 'b' in p.shortOptions && p.shortOptions['b'].group.None? && |p.shortOptions['b'].parameters| == 0
    requires 'x' in p.shortOptions && p.shortOptions['x'].group.None? && |p.shortOptions['x'].parameters| == 1
    ensures StepAt(p, allowed, ["-abxval"], 0, st) ==
      Next(1, AddOccurrence(AddOccurrence(AddOccurrence(AddIllegal(st, "-", 0, OptionNotSpecified),
                                                        ParsedOption(0, true, p.charToIndex['a'], [])),
                                          ParsedOption(0, true, p.charToIndex['b'], [])),
                            ParsedOption(0, true, p.charToIndex['x'], ["val"])))
  {
    var args := ["-abxval"];
    var tok := args[0];
    assert tok[0] == '-' && tok[1] == 'a' && tok[2] == 'b' && tok[3] == 'x' && tok[4..] == "val";
    assert StartsWith(tok, "-") && !StartsWith(tok, "--");
    var s1 := AddIllegal(st, "-", 0, OptionNotSpecified);
    ClusterUnknownChar(p, allowed, args, 0, 0, 1, st);
    var s2 := AddOccurrence(s1, ParsedOption(0, true, p.charToIndex['a'], []));
    ClusterFlagChar(p, allowed, args, 0, 1, 1, s1);
    var s3 := AddOccurrence(s2, ParsedOption(0, true, p.charToIndex['b'], []));
    ClusterFlagChar(p, allowed, args, 0, 2, 1, s2);
    ClusterAttachedChar(p, allowed, args, 0, 3, 1, s3);
  }

  // ---------------------------------------------------------------------------
  // Every occurrence agrees with the option its token names
  // ---------------------------------------------------------------------------

  /**
   * The character `i` of the cluster `tok` names a usable short option, the occurrence is
   * filed under its number, and its parameters fit its arity: the last character pops as
   * many as it takes; an earlier one is in adjoining form, with no value when it takes
   * none and the rest of the token when it takes one.
   */
  ghost predicate ClusterCharRecorded(p: OptionsParser, allowed: set<string>, tok: string, i: int, o: ParsedOption)
    requires p.Valid()
  {
    0 <= i < |tok| && tok[i] in p.shortOptions && Permitted(p.shortOptions[tok[i]], allowed) &&
    o.optionIndex == p.charToIndex[tok[i]] &&
    var n := |p.shortOptions[tok[i]].parameters|;
    if i == |tok| - 1 then !o.isShortOption && |o.params| == n
    else o.isShortOption && ((n == 0 && o.params == []) || (n == 1 && o.params == [tok[i + 1..]]))
  }

  /**
   * The occurrence agrees with the token at its index. A token starting with `--` names a
   * usable long option (the part before the first `=` in the equals form), the occurrence
   * is filed under that option's number, and it carries one value after `=` for an option
   * of one parameter, or exactly as many popped values as the option takes. Any other token
   * is a cluster with a character the occurrence belongs to.
   */
  ghost predicate Recorded(p: OptionsParser, allowed: set<string>, args: seq<string>, o: ParsedOption)
    requires p.Valid()
  {
    o.index < |args| &&
    var tok := args[o.index];
    if StartsWith(tok, "--") then
      var e := IndexOf(tok, '=');
      var name := if e > 0 then tok[..e] else tok;
      name in p.longOptions && Permitted(p.longOptions[name], allowed) && !o.isShortOption &&
      o.optionIndex == p.stringToIndex[name] &&
      if e > 0 then |p.longOptions[name].parameters| == 1 && o.params == [tok[e + 1..]]
      else |o.params| == |p.longOptions[name].parameters|
    else
      exists i :: ClusterCharRecorded(p, allowed, tok, i, o)
  }

  /**
   * Long names are looked up with their dashes: an occurrence read from a `--` token belongs
   * to an option whose long name itself starts with `--`. An option whose long name is
   * stored without the dashes is never matched by a long token.
   */
  lemma LongLookupKeepsDashes(p: OptionsParser, allowed: set<string>, args: seq<string>, o: ParsedOption)
    requires p.Valid() && Recorded(p, allowed, args, o) && StartsWith(args[o.index], "--")
    ensures exists name :: name in p.longOptions && StartsWith(name, "--") && o.optionIndex == p.stringToIndex[name]
  {
    var tok := args[o.index];
    var e := IndexOf(tok, '=');
    if e > 0 {
      assert tok[0] == '-' && tok[1] == '-';
      assert tok[..e][..2] == tok[..2];
    } else {
      assert StartsWith(tok, "--");
    }
  }

  ghost predicate AllRecorded(p: OptionsParser, allowed: set<string>, args: seq<string>, st: ParsedOptionsResult)
    requires p.Valid()
  {
    forall key, j :: key in st.parsed && 0 <= j < |st.parsed[key]| ==> Recorded(p, allowed, args, st.parsed[key][j])
  }

  lemma RecordedAddOccurrence(p: OptionsParser, allowed: set<string>, args: seq<string>, st: ParsedOptionsResult,
                              o: ParsedOption)
    requires p.Valid() && AllRecorded(p, allowed, args, st) && Recorded(p, allowed, args, o)
    ensures AllRecorded(p, allowed, args, AddOccurrence(st, o))
  {
    var st' := AddOccurrence(st, o);
    forall key, j | key in st'.parsed && 0 <= j < |st'.parsed[key]|
      ensures Recorded(p, allowed, args, st'.parsed[key][j])
    {
      AddOccurrenceAt(st, o, key, j);
    }
  }

  lemma {:induction false} ScanClusterRecords(p: OptionsParser, allowed: set<string>, args: seq<string>, t: nat,
                                              i: nat, pos: nat, st: ParsedOptionsResult)
    requires p.Valid() && t < |args| && i <= |args[t]| && pos <= |args|
    requires !StartsWith(args[t], "--")
    requires AllRecorded(p, allowed, args, st)
    ensures AllRecorded(p, allowed, args, ScanCluster(p, allowed, args, t, i, pos, st).1)
    decreases |args[t]| - i
  {
    var tok := args[t];
    if i < |tok| {
      var c := tok[i];
      if c !in p.shortOptions || !Permitted(p.shortOptions[c], allowed) {
        ScanClusterRecords(p, allowed, args, t, i + 1, pos, AddIllegal(st, [c], t, OptionNotSpecified));
      } else {
        var n := |p.shortOptions[c].parameters|;
        var k := p.charToIndex[c];
        if i == |tok| - 1 {
          if n > |args| - pos {
            ScanClusterRecords(p, allowed, args, t, i + 1, pos, AddIllegal(st, [c], t, OptionNotEnoughParams));
          } else {
            var o := ParsedOption(t, false, k, args[pos..pos + n]);
            assert ClusterCharRecorded(p, allowed, tok, i, o);
            RecordedAddOccurrence(p, allowed, args, st, o);
            ScanClusterRecords(p, allowed, args, t, i + 1, pos + n, AddOccurrence(st, o));
          }
        } else if n == 0 {
          var o := ParsedOption(t, true, k, []);
          assert ClusterCharRecorded(p, allowed, tok, i, o);
          RecordedAddOccurrence(p, allowed, args, st, o);
          ScanClusterRecords(p, allowed, args, t, i + 1, pos, AddOccurrence(st, o));
        } else if n == 1 {
          var o := ParsedOption(t, true, k, [tok[i + 1..]]);
          assert ClusterCharRecorded(p, allowed, tok, i, o);
          RecordedAddOccurrence(p, allowed, args, st, o);
        } else {
          ScanClusterRecords(p, allowed, args, t, i + 1, pos, AddIllegal(st, [c], t, AdjoiningOptionNotSingleParam));
        }
      }
    }
  }

  lemma EqualsFormRecords(p: OptionsParser, allowed: set<string>, args: seq<string>, t: nat, e: nat,
                          st: ParsedOptionsResult)
    requires p.Valid() && t < |args| && StartsWith(args[t], "--")
    requires 0 < e < |args[t]| && e == IndexOf(args[t], '=')
    requires AllRecorded(p, allowed, args, st)
    ensures AllRecorded(p, allowed, args, EqualsForm(p, allowed, args[t], t, e, st))
  {
    var tok := args[t];
    var name, value := tok[..e], tok[e + 1..];
    if name in p.longOptions && Permitted(p.longOptions[name], allowed) && |p.longOptions[name].parameters| == 1 {
      var st' := if |value| == 0 then AddIllegal(st, name, t, EqualOptionEmptyParameter) else st;
      var o := ParsedOption(t, false, p.stringToIndex[name], [value]);
      assert Recorded(p, allowed, args, o);
      RecordedAddOccurrence(p, allowed, args, st', o);
    }
  }

  lemma LongFormRecords(p: OptionsParser, allowed: set<string>, args: seq<string>, t: nat, st: ParsedOptionsResult)
    requires p.Valid() && t < |args| && StartsWith(args[t], "--") && IndexOf(args[t], '=') < 0
    requires AllRecorded(p, allowed, args, st)
    ensures AllRecorded(p, allowed, args, LongForm(p, allowed, args, t, st).1)
  {
    var tok := args[t];
    if tok in p.longOptions && Permitted(p.longOptions[tok], allowed) {
      var n := |p.longOptions[tok].parameters|;
      if n <= |args| - (t + 1) {
        var o := ParsedOption(t, false, p.stringToIndex[tok], args[t + 1..t + 1 + n]);
        assert Recorded(p, allowed, args, o);
        RecordedAddOccurrence(p, allowed, args, st, o);
      }
    }
  }

  lemma LongTokenRecords(p: OptionsParser, allowed: set<string>, args: seq<string>, t: nat, st: ParsedOptionsResult)
    requires p.Valid() && t < |args| && StartsWith(args[t], "--")
    requires AllRecorded(p, allowed, args, st)
    ensures AllRecorded(p, allowed, args, LongToken(p, allowed, args, t, st).1)
  {
    var e := IndexOf(args[t], '=');
    if e > 0 {
      EqualsFormRecords(p, allowed, args, t, e, st);
    } else if e < 0 {
      LongFormRecords(p, allowed, args, t, st);
    }
  }

  lemma StepRecords(p: OptionsParser, allowed: set<string>, args: seq<string>, pos: nat, st: ParsedOptionsResult)
    requires p.Valid() && pos < |args| && AllRecorded(p, allowed, args, st)
    ensures var r := StepAt(p, allowed, args, pos, st); r.Next? ==> AllRecorded(p, allowed, args, r.st)
  {
    var arg := args[pos];
    if StartsWith(arg, "--") {
      if |arg| != 2 {
        LongTokenRecords(p, allowed, args, pos, st);
      }
    } else if StartsWith(arg, "-") && |arg| != 1 {
      ScanClusterRecords(p, allowed, args, pos, 0, pos + 1, st);
    }
  }

  lemma {:induction false} ParseFromRecords(p: OptionsParser, allowed: set<string>, args: seq<string>, pos: nat,
                                            st: ParsedOptionsResult)
    requires p.Valid() && pos <= |args| && AllRecorded(p, allowed, args, st)
    ensures AllRecorded(p, allowed, args, ParseFrom(p, allowed, args, pos, st))
    decreases |args| - pos
  {
    if pos < |args| {
      var step := StepAt(p, allowed, args, pos, st);
      StepRecords(p, allowed, args, pos, st);
      if step.Next? {
        ParseFromRecords(p, allowed, args, step.pos, step.st);
      }
    }
  }

  /**
   * Every occurrence of a parse result belongs to a usable option that its token names, is
   * filed under that option's number, and carries as many parameters as the option takes:
   * popped ones for a long option or the last character of a cluster, the value after `=`
   * for the equals form, none for a flag in a cluster, and the rest of the token for an
   * adjoining option of one parameter.
   */
  lemma ParseRecordsArity(p: OptionsParser, args: seq<string>, offset: nat, allowedGroups: Option<seq<string>>)
    requires p.Valid() && offset <= |args|
    ensures var r := ParseSpec(p, args, offset, allowedGroups);
      forall key, j :: key in r.parsed && 0 <= j < |r.parsed[key]| ==>
        Recorded(p, AllowedSet(allowedGroups), args, r.parsed[key][j])
  {
    ParseFromRecords(p, AllowedSet(allowedGroups), args, offset, InitialResult(p));
  }
}
