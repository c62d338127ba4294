/**
 * Properties of the option scan: what every parse result satisfies, where the scan stops,
 * and how individual token shapes are classified.
 */
module OptionsParserLemmas {
  import opened Wrappers
  import opened CliOption
  import opened ParsedResults
  import opened OptionsParsing

  // ---------------------------------------------------------------------------
  // The invariant of the accumulated result
  // ---------------------------------------------------------------------------

  /** A token of the equals form `--name=value`. */
  predicate IsEqualsToken(tok: string) {
    StartsWith(tok, "--") && '=' in tok
  }

  /** An occurrence whose parameters were popped from the tokens that follow its own. */
  predicate PopsParams(args: seq<string>, o: ParsedOption) {
    !o.isShortOption && o.index < |args| && !IsEqualsToken(args[o.index])
  }

  /** Every recorded index lies in `[lo, hi)`. */
  ghost predicate IndicesBetween(st: ParsedOptionsResult, lo: nat, hi: nat) {
    (forall k :: 0 <= k < |st.nonOption| ==> lo <= st.nonOption[k].index < hi) &&
    (forall k :: 0 <= k < |st.illegal| ==> lo <= st.illegal[k].index < hi) &&
    (forall key, j :: key in st.parsed && 0 <= j < |st.parsed[key]| ==> lo <= st.parsed[key][j].index < hi)
  }

  /**
   * Non-options strictly increase, illegal usages and each option's occurrences follow the
   * command line, every list of occurrences is non-empty and filed under its option number.
   */
  ghost predicate Ordered(st: ParsedOptionsResult) {
    (forall j, k :: 0 <= j < k < |st.nonOption| ==> st.nonOption[j].index < st.nonOption[k].index) &&
    (forall j, k :: 0 <= j < k < |st.illegal| ==> st.illegal[j].index <= st.illegal[k].index) &&
    (forall key, j, k :: key in st.parsed && 0 <= j < k < |st.parsed[key]| ==>
       st.parsed[key][j].index <= st.parsed[key][k].index) &&
    (forall key :: key in st.parsed ==> |st.parsed[key]| > 0) &&
    (forall key, j :: key in st.parsed && 0 <= j < |st.parsed[key]| ==> st.parsed[key][j].optionIndex == key)
  }

  /** A non-option is the token at its index, and that token is `-` or does not start with `-`. */
  ghost predicate NonOptionsAreTokens(args: seq<string>, st: ParsedOptionsResult) {
    forall k :: 0 <= k < |st.nonOption| ==>
      var n := st.nonOption[k];
      n.index < |args| && n.text == args[n.index] && (n.text == "-" || !StartsWith(n.text, "-"))
  }

  /** Popped parameters are the tokens right after the option's own token, before `hi`. */
  ghost predicate ParamsFollowToken(args: seq<string>, st: ParsedOptionsResult, hi: nat) {
    hi <= |args| &&
    forall key, j :: key in st.parsed && 0 <= j < |st.parsed[key]| && PopsParams(args, st.parsed[key][j]) ==>
      var o := st.parsed[key][j];
      o.index + |o.params| < hi && o.params == args[o.index + 1..o.index + 1 + |o.params|]
  }

  /** No non-option index falls among the tokens popped as some occurrence's parameters. */
  ghost predicate ParamsAvoidNonOptions(args: seq<string>, st: ParsedOptionsResult) {
    forall key, j, k ::
      (key in st.parsed && 0 <= j < |st.parsed[key]| && 0 <= k < |st.nonOption| &&
       PopsParams(args, st.parsed[key][j])) ==>
      !(st.parsed[key][j].index < st.nonOption[k].index <= st.parsed[key][j].index + |st.parsed[key][j].params|)
  }

  /**
   * An adjoining-form occurrence has at most one parameter, and that one is a non-empty
   * proper tail of its own token.
   */
  ghost predicate AdjoiningParams(args: seq<string>, st: ParsedOptionsResult) {
    forall key, j :: key in st.parsed && 0 <= j < |st.parsed[key]| && st.parsed[key][j].isShortOption ==>
      var o := st.parsed[key][j];
      o.index < |args| && |o.params| <= 1 &&
      (|o.params| == 1 ==>
         0 < |o.params[0]| < |args[o.index]| && o.params[0] == args[o.index][|args[o.index]| - |o.params[0]|..])
  }

  ghost predicate NoEqualFirstChar(st: ParsedOptionsResult) {
    forall k :: 0 <= k < |st.illegal| ==> st.illegal[k].code != EqualFirstChar
  }

  /** What holds of the result after the loop has examined the tokens in `[lo, hi)`. */
  ghost predicate Inv(args: seq<string>, st: ParsedOptionsResult, lo: nat, hi: nat) {
    lo <= hi <= |args| &&
    IndicesBetween(st, lo, hi) && Ordered(st) && NonOptionsAreTokens(args, st) &&
    ParamsFollowToken(args, st, hi) && ParamsAvoidNonOptions(args, st) &&
    AdjoiningParams(args, st) && NoEqualFirstChar(st)
  }

  lemma InvEmpty(args: seq<string>, p: OptionsParser, lo: nat)
    requires lo <= |args|
    ensures Inv(args, InitialResult(p), lo, lo)
  {
  }

  lemma InvWiden(args: seq<string>, st: ParsedOptionsResult, lo: nat, hi: nat, hi': nat)
    requires Inv(args, st, lo, hi) && hi <= hi' <= |args|
    ensures Inv(args, st, lo, hi')
  {
  }

  lemma InvAddIllegal(args: seq<string>, st: ParsedOptionsResult, lo: nat, t: nat, text: string, code: ErrorCode)
    requires Inv(args, st, lo, t + 1) && lo <= t && code != EqualFirstChar
    ensures Inv(args, AddIllegal(st, text, t, code), lo, t + 1)
  {
  }

  lemma InvAddNonOption(args: seq<string>, st: ParsedOptionsResult, lo: nat, t: nat)
    requires Inv(args, st, lo, t) && t < |args|
    requires args[t] == "-" || !StartsWith(args[t], "-")
    ensures Inv(args, AddNonOption(st, args[t], t), lo, t + 1)
  {
    AddNonOptionOrdered(st, lo, t, args[t]);
    AddNonOptionAvoids(args, st, t);
    InvWiden(args, st, lo, t, t + 1);
  }

  lemma AddNonOptionOrdered(st: ParsedOptionsResult, lo: nat, t: nat, text: string)
    requires Ordered(st) && IndicesBetween(st, lo, t)
    ensures Ordered(AddNonOption(st, text, t))
  {
    var st' := AddNonOption(st, text, t);
    forall j, k | 0 <= j < k < |st'.nonOption|
      ensures st'.nonOption[j].index < st'.nonOption[k].index
    {
      assert st'.nonOption[j] == st.nonOption[j];
    }
  }

  lemma AddNonOptionAvoids(args: seq<string>, st: ParsedOptionsResult, t: nat)
    requires ParamsAvoidNonOptions(args, st) && ParamsFollowToken(args, st, t) && t < |args|
    ensures ParamsAvoidNonOptions(args, AddNonOption(st, args[t], t))
  {
    var st' := AddNonOption(st, args[t], t);
    forall key, j, k | key in st'.parsed && 0 <= j < |st'.parsed[key]| && 0 <= k < |st'.nonOption| &&
      PopsParams(args, st'.parsed[key][j])
      ensures !(st'.parsed[key][j].index < st'.nonOption[k].index <= st'.parsed[key][j].index + |st'.parsed[key][j].params|)
    {
      if k < |st.nonOption| {
        assert st'.nonOption[k] == st.nonOption[k];
      }
    }
  }

  /** Where each occurrence of `AddOccurrence(st, o)` comes from. */
  lemma AddOccurrenceAt(st: ParsedOptionsResult, o: ParsedOption, key: nat, j: nat)
    requires key in AddOccurrence(st, o).parsed && j < |AddOccurrence(st, o).parsed[key]|
    ensures var s := AddOccurrence(st, o).parsed[key][j];
      if key == o.optionIndex && j == |AddOccurrence(st, o).parsed[key]| - 1 then s == o
      else key in st.parsed && j < |st.parsed[key]| && s == st.parsed[key][j]
  {
  }

  lemma AddOccurrenceOrdered(st: ParsedOptionsResult, lo: nat, o: ParsedOption)
    requires Ordered(st) && IndicesBetween(st, lo, o.index + 1)
    ensures Ordered(AddOccurrence(st, o))
  {
    var st' := AddOccurrence(st, o);
    forall key, j, k | key in st'.parsed && 0 <= j < k < |st'.parsed[key]|
      ensures st'.parsed[key][j].index <= st'.parsed[key][k].index
    {
      AddOccurrenceAt(st, o, key, j);
      AddOccurrenceAt(st, o, key, k);
    }
    forall key, j | key in st'.parsed && 0 <= j < |st'.parsed[key]|
      ensures st'.parsed[key][j].optionIndex == key
    {
      AddOccurrenceAt(st, o, key, j);
    }
  }

  lemma AddOccurrenceParams(args: seq<string>, st: ParsedOptionsResult, h: nat, o: ParsedOption)
    requires ParamsFollowToken(args, st, o.index + 1)
    requires o.index < h <= |args|
    requires PopsParams(args, o) ==>
      o.index + |o.params| < h && o.params == args[o.index + 1..o.index + 1 + |o.params|]
    ensures ParamsFollowToken(args, AddOccurrence(st, o), h)
  {
    var st' := AddOccurrence(st, o);
    forall key, j | key in st'.parsed && 0 <= j < |st'.parsed[key]| && PopsParams(args, st'.parsed[key][j])
      ensures var q := st'.parsed[key][j];
        q.index + |q.params| < h && q.params == args[q.index + 1..q.index + 1 + |q.params|]
    {
      AddOccurrenceAt(st, o, key, j);
    }
  }

  lemma AddOccurrenceAvoids(args: seq<string>, st: ParsedOptionsResult, lo: nat, o: ParsedOption)
    requires ParamsAvoidNonOptions(args, st) && IndicesBetween(st, lo, o.index + 1)
    ensures ParamsAvoidNonOptions(args, AddOccurrence(st, o))
  {
    var st' := AddOccurrence(st, o);
    forall key, j, k | key in st'.parsed && 0 <= j < |st'.parsed[key]| && 0 <= k < |st'.nonOption| &&
      PopsParams(args, st'.parsed[key][j])
      ensures !(st'.parsed[key][j].index < st'.nonOption[k].index <= st'.parsed[key][j].index + |st'.parsed[key][j].params|)
    {
      AddOccurrenceAt(st, o, key, j);
    }
  }

  lemma AddOccurrenceAdjoining(args: seq<string>, st: ParsedOptionsResult, o: ParsedOption)
    requires AdjoiningParams(args, st) && o.index < |args|
    requires o.isShortOption ==>
      |o.params| <= 1 &&
      (|o.params| == 1 ==>
         0 < |o.params[0]| < |args[o.index]| && o.params[0] == args[o.index][|args[o.index]| - |o.params[0]|..])
    ensures AdjoiningParams(args, AddOccurrence(st, o))
  {
    var st' := AddOccurrence(st, o);
    forall key, j | key in st'.parsed && 0 <= j < |st'.parsed[key]| && st'.parsed[key][j].isShortOption
      ensures var q := st'.parsed[key][j];
        q.index < |args| && |q.params| <= 1 &&
        (|q.params| == 1 ==>
           0 < |q.params[0]| < |args[q.index]| && q.params[0] == args[q.index][|args[q.index]| - |q.params[0]|..])
    {
      AddOccurrenceAt(st, o, key, j);
    }
  }

  lemma AddOccurrenceIndices(st: ParsedOptionsResult, lo: nat, h: nat, o: ParsedOption)
    requires IndicesBetween(st, lo, o.index + 1) && lo <= o.index < h
    ensures IndicesBetween(AddOccurrence(st, o), lo, h)
  {
    var st' := AddOccurrence(st, o);
    forall key, j | key in st'.parsed && 0 <= j < |st'.parsed[key]|
      ensures lo <= st'.parsed[key][j].index < h
    {
      AddOccurrenceAt(st, o, key, j);
    }
  }

  lemma InvAddOccurrence(args: seq<string>, st: ParsedOptionsResult, lo: nat, h: nat, o: ParsedOption)
    requires Inv(args, st, lo, o.index + 1) && lo <= o.index < h <= |args|
    requires PopsParams(args, o) ==>
      o.index + |o.params| < h && o.params == args[o.index + 1..o.index + 1 + |o.params|]
    requires o.isShortOption ==>
      |o.params| <= 1 &&
      (|o.params| == 1 ==>
         0 < |o.params[0]| < |args[o.index]| && o.params[0] == args[o.index][|args[o.index]| - |o.params[0]|..])
    ensures Inv(args, AddOccurrence(st, o), lo, h)
  {
    AddOccurrenceIndices(st, lo, h, o);
    AddOccurrenceOrdered(st, lo, o);
    AddOccurrenceParams(args, st, h, o);
    AddOccurrenceAvoids(args, st, lo, o);
    AddOccurrenceAdjoining(args, st, o);
  }

  // ---------------------------------------------------------------------------
  // The lookup tables
  // ---------------------------------------------------------------------------

  /**
   * The short table files each option that has a short character under that character,
   * and holds nothing else.
   */
  lemma ShortTableComplete(options: seq<OptionSpec>)
    ensures var r := NewOptionsParser(options);
      r.Success? ==>
        (forall c :: c in r.value.shortOptions ==>
           r.value.shortOptions[c] in options && r.value.shortOptions[c].shortOption == Some(c)) &&
        (forall o :: o in options && o.shortOption.Some? ==>
           o.shortOption.value in r.value.shortOptions && r.value.shortOptions[o.shortOption.value] == o)
  {
    var r := NewOptionsParser(options);
    if r.Success? {
      var f, keys := ShortNamed(options), ShortKeys(options);
      var ci, si := IndexMap(keys).value, IndexMap(LongKeys(options)).value;
      assert r.value == Assemble(options, ci, si);
      forall c | c in r.value.shortOptions
        ensures r.value.shortOptions[c] in options && r.value.shortOptions[c].shortOption == Some(c)
      {
        assert keys[ci[c]] == c && f[ci[c]] in f;
      }
      forall o | o in options && o.shortOption.Some?
        ensures o.shortOption.value in r.value.shortOptions && r.value.shortOptions[o.shortOption.value] == o
      {
        assert o in f;
        var i :| 0 <= i < |f| && f[i] == o;
        assert keys[i] == o.shortOption.value;
      }
    }
  }

  /**
   * The long table files each option that has a non-empty long name under that name, and
   * holds nothing else.
   */
  lemma LongTableComplete(options: seq<OptionSpec>)
    ensures var r := NewOptionsParser(options);
      r.Success? ==>
        (forall n :: n in r.value.longOptions ==>
           r.value.longOptions[n] in options && r.value.longOptions[n].longOption == Some(n) && n != "") &&
        (forall o :: o in options && HasLongName(o) ==>
           o.longOption.value in r.value.longOptions && r.value.longOptions[o.longOption.value] == o)
  {
    var r := NewOptionsParser(options);
    if r.Success? {
      var f, keys := LongNamed(options), LongKeys(options);
      var ci, si := IndexMap(ShortKeys(options)).value, IndexMap(keys).value;
      assert r.value == Assemble(options, ci, si);
      forall n | n in r.value.longOptions
        ensures r.value.longOptions[n] in options && r.value.longOptions[n].longOption == Some(n) && n != ""
      {
        assert keys[si[n]] == n && f[si[n]] in f;
      }
      forall o | o in options && HasLongName(o)
        ensures o.longOption.value in r.value.longOptions && r.value.longOptions[o.longOption.value] == o
      {
        assert o in f;
        var i :| 0 <= i < |f| && f[i] == o;
        assert keys[i] == o.longOption.value;
      }
    }
  }

  /**
   * The filter behind the short numbering keeps the order and the repeats of the options:
   * filtering a concatenation concatenates the filtered parts.
   */
  lemma {:induction false} ShortNamedKeepsOrder(a: seq<OptionSpec>, b: seq<OptionSpec>)
    ensures ShortNamed(a + b) == ShortNamed(a) + ShortNamed(b)
    decreases |a|
  {
    if a == [] {
      assert a + b == b;
    } else {
      var h := if a[0].shortOption.Some? then [a[0]] else [];
      assert (a + b)[0] == a[0] && (a + b)[1..] == a[1..] + b;
      calc {
        ShortNamed(a + b);
        { ShortNamedUnfold(a + b); }
        h + ShortNamed(a[1..] + b);
        { ShortNamedKeepsOrder(a[1..], b); }
        h + (ShortNamed(a[1..]) + ShortNamed(b));
        (h + ShortNamed(a[1..])) + ShortNamed(b);
        { ShortNamedUnfold(a); }
        ShortNamed(a) + ShortNamed(b);
      }
    }
  }

  lemma ShortNamedUnfold(s: seq<OptionSpec>)
    requires s != []
    ensures ShortNamed(s) == (if s[0].shortOption.Some? then [s[0]] else []) + ShortNamed(s[1..])
  {
  }

  /** A single option is kept by the short filter exactly when it has a short character. */
  lemma ShortNamedOne(o: OptionSpec)
    ensures ShortNamed([o]) == if o.shortOption.Some? then [o] else []
  {
    assert [o][1..] == [];
  }

  /**
   * The filter behind the long numbering keeps the order and the repeats of the options:
   * filtering a concatenation concatenates the filtered parts.
   */
  lemma {:induction false} LongNamedKeepsOrder(a: seq<OptionSpec>, b: seq<OptionSpec>)
    ensures LongNamed(a + b) == LongNamed(a) + LongNamed(b)
    decreases |a|
  {
    if a == [] {
      assert a + b == b;
    } else {
      var h := if HasLongName(a[0]) then [a[0]] else [];
      assert (a + b)[0] == a[0] && (a + b)[1..] == a[1..] + b;
      calc {
        LongNamed(a + b);
        { LongNamedUnfold(a + b); }
        h + LongNamed(a[1..] + b);
        { LongNamedKeepsOrder(a[1..], b); }
        h + (LongNamed(a[1..]) + LongNamed(b));
        (h + LongNamed(a[1..])) + LongNamed(b);
        { LongNamedUnfold(a); }
        LongNamed(a) + LongNamed(b);
      }
    }
  }

  lemma LongNamedUnfold(s: seq<OptionSpec>)
    requires s != []
    ensures LongNamed(s) == (if HasLongName(s[0]) then [s[0]] else []) + LongNamed(s[1..])
  {
  }

  /** A single option is kept by the long filter exactly when it has a non-empty long name. */
  lemma LongNamedOne(o: OptionSpec)
    ensures LongNamed([o]) == if HasLongName(o) then [o] else []
  {
    assert [o][1..] == [];
  }

  // ---------------------------------------------------------------------------
  // Token shapes
  // ---------------------------------------------------------------------------

  /** `StartsWith` is the prefix test on characters: the token is the prefix followed by some rest. */
  lemma StartsWithIsPrefix(s: string, prefix: string)
    ensures StartsWith(s, prefix) <==> exists rest :: s == prefix + rest
  {
    if StartsWith(s, prefix) {
      assert s == prefix + s[|prefix|..];
    }
    if exists rest :: s == prefix + rest {
      var rest :| s == prefix + rest;
      assert s[..|prefix|] == prefix;
    }
  }

  // ---------------------------------------------------------------------------
  // Preservation by each kind of token
  // ---------------------------------------------------------------------------

  /** The cluster scan keeps the invariant, character by character. */
  lemma {:induction false} ScanClusterInv(p: OptionsParser, allowed: set<string>, args: seq<string>, t: nat, i: nat,
                                          st: ParsedOptionsResult, lo: nat)
    requires p.Valid() && lo <= t < |args| && i <= |args[t]|
    requires !StartsWith(args[t], "--")
    requires Inv(args, st, lo, t + 1)
    ensures var r := ScanCluster(p, allowed, args, t, i, t + 1, st); Inv(args, r.1, lo, r.0)
    decreases |args[t]| - i, 1
  {
    var arg := args[t];
    if i < |arg| {
      var c := arg[i];
      if c !in p.shortOptions || !Permitted(p.shortOptions[c], allowed) {
        ScanSkipInv(p, allowed, args, t, i, st, lo, OptionNotSpecified);
      } else {
        var n := |p.shortOptions[c].parameters|;
        if i == |arg| - 1 {
          if n > |args| - (t + 1) {
            ScanSkipInv(p, allowed, args, t, i, st, lo, OptionNotEnoughParams);
          } else {
            ScanPopInv(p, allowed, args, t, i, st, lo);
          }
        } else if n == 0 {
          ScanFlagInv(p, allowed, args, t, i, st, lo);
        } else if n == 1 {
          ScanAttachedInv(p, allowed, args, t, i, st, lo);
        } else {
          ScanSkipInv(p, allowed, args, t, i, st, lo, AdjoiningOptionNotSingleParam);
        }
      }
    }
  }

  /** A character that is recorded as illegal, after which the scan goes on. */
  lemma {:induction false} ScanSkipInv(p: OptionsParser, allowed: set<string>, args: seq<string>, t: nat, i: nat,
                                       st: ParsedOptionsResult, lo: nat, code: ErrorCode)
    requires p.Valid() && lo <= t < |args| && i < |args[t]|
    requires !StartsWith(args[t], "--") && code != EqualFirstChar
    requires Inv(args, st, lo, t + 1)
    requires ScanCluster(p, allowed, args, t, i, t + 1, st) ==
             ScanCluster(p, allowed, args, t, i + 1, t + 1, AddIllegal(st, [args[t][i]], t, code))
    ensures var r := ScanCluster(p, allowed, args, t, i, t + 1, st); Inv(args, r.1, lo, r.0)
    decreases |args[t]| - i, 0
  {
    var st' := AddIllegal(st, [args[t][i]], t, code);
    InvAddIllegal(args, st, lo, t, [args[t][i]], code);
    ScanClusterInv(p, allowed, args, t, i + 1, st', lo);
  }

  /** A flag inside a cluster, after which the scan goes on. */
  lemma {:induction false} ScanFlagInv(p: OptionsParser, allowed: set<string>, args: seq<string>, t: nat, i: nat,
                                       st: ParsedOptionsResult, lo: nat)
    requires p.Valid() && lo <= t < |args| && i < |args[t]| - 1
    requires !StartsWith(args[t], "--")
    requires args[t][i] in p.shortOptions && Permitted(p.shortOptions[args[t][i]], allowed)
    requires |p.shortOptions[args[t][i]].parameters| == 0
    requires Inv(args, st, lo, t + 1)
    ensures var r := ScanCluster(p, allowed, args, t, i, t + 1, st); Inv(args, r.1, lo, r.0)
    decreases |args[t]| - i, 0
  {
    var o := ParsedOption(t, true, p.charToIndex[args[t][i]], []);
    assert ScanCluster(p, allowed, args, t, i, t + 1, st) ==
           ScanCluster(p, allowed, args, t, i + 1, t + 1, AddOccurrence(st, o));
    InvAddOccurrence(args, st, lo, t + 1, o);
    ScanClusterInv(p, allowed, args, t, i + 1, AddOccurrence(st, o), lo);
  }

  /** A one-parameter option inside a cluster takes the rest of the token and ends the scan. */
  lemma ScanAttachedInv(p: OptionsParser, allowed: set<string>, args: seq<string>, t: nat, i: nat,
                        st: ParsedOptionsResult, lo: nat)
    requires p.Valid() && lo <= t < |args| && i < |args[t]| - 1
    requires args[t][i] in p.shortOptions && Permitted(p.shortOptions[args[t][i]], allowed)
    requires |p.shortOptions[args[t][i]].parameters| == 1
    requires Inv(args, st, lo, t + 1)
    ensures var r := ScanCluster(p, allowed, args, t, i, t + 1, st); Inv(args, r.1, lo, r.0)
  {
    var arg := args[t];
    var o := ParsedOption(t, true, p.charToIndex[arg[i]], [arg[i + 1..]]);
    assert ScanCluster(p, allowed, args, t, i, t + 1, st) == (t + 1, AddOccurrence(st, o));
    assert arg[|arg| - |arg[i + 1..]|..] == arg[i + 1..];
    InvAddOccurrence(args, st, lo, t + 1, o);
  }

  /** The last character of a cluster pops its parameters from the following tokens. */
  lemma ScanPopInv(p: OptionsParser, allowed: set<string>, args: seq<string>, t: nat, i: nat,
                   st: ParsedOptionsResult, lo: nat)
    requires p.Valid() && lo <= t < |args| && i == |args[t]| - 1
    requires !StartsWith(args[t], "--")
    requires args[t][i] in p.shortOptions && Permitted(p.shortOptions[args[t][i]], allowed)
    requires |p.shortOptions[args[t][i]].parameters| <= |args| - (t + 1)
    requires Inv(args, st, lo, t + 1)
    ensures var r := ScanCluster(p, allowed, args, t, i, t + 1, st); Inv(args, r.1, lo, r.0)
  {
    var n := |p.shortOptions[args[t][i]].parameters|;
    var o := ParsedOption(t, false, p.charToIndex[args[t][i]], args[t + 1..t + 1 + n]);
    assert ScanCluster(p, allowed, args, t, i, t + 1, st) == (t + 1 + n, AddOccurrence(st, o));
    assert !IsEqualsToken(args[t]);
    InvAddOccurrence(args, st, lo, t + 1 + n, o);
  }

  /** The equals form keeps the invariant. */
  lemma EqualsFormInv(p: OptionsParser, allowed: set<string>, args: seq<string>, t: nat, eqPos: nat,
                      st: ParsedOptionsResult, lo: nat)
    requires p.Valid() && lo <= t < |args| && 0 < eqPos < |args[t]|
    requires IsEqualsToken(args[t])
    requires Inv(args, st, lo, t + 1)
    ensures Inv(args, EqualsForm(p, allowed, args[t], t, eqPos, st), lo, t + 1)
  {
    var name := args[t][..eqPos];
    var value := args[t][eqPos + 1..];
    if name !in p.longOptions || !Permitted(p.longOptions[name], allowed) {
      InvAddIllegal(args, st, lo, t, name, OptionNotSpecified);
    } else if |p.longOptions[name].parameters| != 1 {
      InvAddIllegal(args, st, lo, t, name, EqualOptionNotSingleParam);
    } else {
      var st' := if |value| == 0 then AddIllegal(st, name, t, EqualOptionEmptyParameter) else st;
      if |value| == 0 {
        InvAddIllegal(args, st, lo, t, name, EqualOptionEmptyParameter);
      }
      InvAddOccurrence(args, st', lo, t + 1, ParsedOption(t, false, p.stringToIndex[name], [value]));
    }
  }

  /** A long option without `=` keeps the invariant. */
  lemma LongFormInv(p: OptionsParser, allowed: set<string>, args: seq<string>, t: nat,
                    st: ParsedOptionsResult, lo: nat)
    requires p.Valid() && lo <= t < |args|
    requires !IsEqualsToken(args[t])
    requires Inv(args, st, lo, t + 1)
    ensures var r := LongForm(p, allowed, args, t, st); Inv(args, r.1, lo, r.0)
  {
    var arg := args[t];
    if arg !in p.longOptions || !Permitted(p.longOptions[arg], allowed) {
      assert LongForm(p, allowed, args, t, st) == (t + 1, AddIllegal(st, arg, t, OptionNotSpecified));
      InvAddIllegal(args, st, lo, t, arg, OptionNotSpecified);
    } else if |p.longOptions[arg].parameters| > |args| - (t + 1) {
      assert LongForm(p, allowed, args, t, st) == (t + 1, AddIllegal(st, arg, t, OptionNotEnoughParams));
      InvAddIllegal(args, st, lo, t, arg, OptionNotEnoughParams);
    } else {
      LongPopInv(p, allowed, args, t, st, lo);
    }
  }

  /** A known long option without `=` pops its parameters from the following tokens. */
  lemma LongPopInv(p: OptionsParser, allowed: set<string>, args: seq<string>, t: nat,
                   st: ParsedOptionsResult, lo: nat)
    requires p.Valid() && lo <= t < |args|
    requires !IsEqualsToken(args[t])
    requires args[t] in p.longOptions && Permitted(p.longOptions[args[t]], allowed)
    requires |p.longOptions[args[t]].parameters| <= |args| - (t + 1)
    requires Inv(args, st, lo, t + 1)
    ensures var r := LongForm(p, allowed, args, t, st); Inv(args, r.1, lo, r.0)
  {
    var n := |p.longOptions[args[t]].parameters|;
    var o := ParsedOption(t, false, p.stringToIndex[args[t]], args[t + 1..t + 1 + n]);
    assert LongForm(p, allowed, args, t, st) == (t + 1 + n, AddOccurrence(st, o));
    InvAddOccurrence(args, st, lo, t + 1 + n, o);
  }

  lemma LongTokenInv(p: OptionsParser, allowed: set<string>, args: seq<string>, t: nat,
                     st: ParsedOptionsResult, lo: nat)
    requires p.Valid() && lo <= t < |args|
    requires StartsWith(args[t], "--") && |args[t]| > 2
    requires Inv(args, st, lo, t + 1)
    ensures var r := LongToken(p, allowed, args, t, st); Inv(args, r.1, lo, r.0)
  {
    var eqPos := IndexOf(args[t], '=');
    assert args[t][0] == '-';
    if eqPos > 0 {
      assert IsEqualsToken(args[t]);
      EqualsFormInv(p, allowed, args, t, eqPos, st, lo);
    } else if eqPos < 0 {
      LongFormInv(p, allowed, args, t, st, lo);
    } else {
      assert false;
    }
  }

  lemma StepInv(p: OptionsParser, allowed: set<string>, args: seq<string>, pos: nat,
                st: ParsedOptionsResult, lo: nat)
    requires p.Valid() && lo <= pos < |args|
    requires Inv(args, st, lo, pos)
    ensures var r := StepAt(p, allowed, args, pos, st); r.Next? ==> Inv(args, r.st, lo, r.pos)
  {
    var arg := args[pos];
    if StartsWith(arg, "--") {
      if |arg| != 2 {
        InvWiden(args, st, lo, pos, pos + 1);
        LongTokenInv(p, allowed, args, pos, st, lo);
      }
    } else if StartsWith(arg, "-") {
      if |arg| == 1 {
        InvAddNonOption(args, st, lo, pos);
      } else {
        InvWiden(args, st, lo, pos, pos + 1);
        ScanClusterInv(p, allowed, args, pos, 0, st, lo);
      }
    } else {
      InvAddNonOption(args, st, lo, pos);
    }
  }

  lemma {:induction false} ParseFromInv(p: OptionsParser, allowed: set<string>, args: seq<string>, pos: nat,
                                        st: ParsedOptionsResult, lo: nat)
    requires p.Valid() && lo <= pos <= |args|
    requires Inv(args, st, lo, pos)
    ensures Inv(args, ParseFrom(p, allowed, args, pos, st), lo, EndPos(p, allowed, args, pos, st))
    decreases |args| - pos
  {
    if pos < |args| {
      var step := StepAt(p, allowed, args, pos, st);
      if step.Next? {
        StepInv(p, allowed, args, pos, st, lo);
        ParseFromInv(p, allowed, args, step.pos, step.st, lo);
      }
    }
  }

  // ---------------------------------------------------------------------------
  // Properties of every parse result
  // ---------------------------------------------------------------------------

  /**
   * The scan ends at the end of the tokens or at a `--` token it popped; every index the
   * result records lies between the offset and that end, so nothing after the `--` is
   * reported, and the whole invariant holds of the result.
   */
  lemma ParseWellFormed(p: OptionsParser, args: seq<string>, offset: nat, allowedGroups: Option<seq<string>>)
    requires p.Valid() && offset <= |args|
    ensures var e := EndPos(p, AllowedSet(allowedGroups), args, offset, InitialResult(p));
      offset <= e <= |args| && (e < |args| ==> args[e] == "--") &&
      Inv(args, ParseSpec(p, args, offset, allowedGroups), offset, e)
  {
    InvEmpty(args, p, offset);
    ParseFromInv(p, AllowedSet(allowedGroups), args, offset, InitialResult(p), offset);
  }

  /**
   * Non-options keep the command-line order strictly, illegal usages and the occurrences of
   * each option keep it too, and the unreachable error code is never reported.
   */
  lemma ParseInOrder(p: OptionsParser, args: seq<string>, offset: nat, allowedGroups: Option<seq<string>>)
    requires p.Valid() && offset <= |args|
    ensures var r := ParseSpec(p, args, offset, allowedGroups);
      (forall j, k :: 0 <= j < k < |r.nonOption| ==> r.nonOption[j].index < r.nonOption[k].index) &&
      (forall j, k :: 0 <= j < k < |r.illegal| ==> r.illegal[j].index <= r.illegal[k].index) &&
      (forall key, j, k :: key in r.parsed && 0 <= j < k < |r.parsed[key]| ==>
         r.parsed[key][j].index <= r.parsed[key][k].index) &&
      (forall k :: 0 <= k < |r.illegal| ==> r.illegal[k].code != EqualFirstChar)
  {
    ParseWellFormed(p, args, offset, allowedGroups);
  }

  /**
   * Every non-option is the token at its index, at or after the offset; it is `-` alone or
   * does not start with `-`, and it is never a token some option popped as a parameter.
   */
  lemma ParseNonOptions(p: OptionsParser, args: seq<string>, offset: nat, allowedGroups: Option<seq<string>>)
    requires p.Valid() && offset <= |args|
    ensures var r := ParseSpec(p, args, offset, allowedGroups);
      forall k :: 0 <= k < |r.nonOption| ==>
        var n := r.nonOption[k];
        offset <= n.index < |args| && n.text == args[n.index] && (n.text == "-" || !StartsWith(n.text, "-")) &&
        forall key, j :: key in r.parsed && 0 <= j < |r.parsed[key]| && PopsParams(args, r.parsed[key][j]) ==>
          !(r.parsed[key][j].index < n.index <= r.parsed[key][j].index + |r.parsed[key][j].params|)
  {
    ParseWellFormed(p, args, offset, allowedGroups);
  }

  /**
   * An occurrence filed under option number `key` has that number, and its parameters are
   * either the tokens right after its own (long form, or the last option of a cluster) or
   * at most one non-empty tail of its own token (adjoining form, or the equals form).
   */
  lemma ParseOccurrences(p: OptionsParser, args: seq<string>, offset: nat, allowedGroups: Option<seq<string>>)
    requires p.Valid() && offset <= |args|
    ensures var r := ParseSpec(p, args, offset, allowedGroups);
      forall key, j :: key in r.parsed && 0 <= j < |r.parsed[key]| ==>
        var o := r.parsed[key][j];
        o.optionIndex == key && offset <= o.index < |args| &&
        (PopsParams(args, o) ==> o.index + |o.params| < |args| && o.params == args[o.index + 1..o.index + 1 + |o.params|]) &&
        (o.isShortOption ==> |o.params| <= 1)
  {
    ParseWellFormed(p, args, offset, allowedGroups);
  }

  /**
   * A known option is usable exactly when it has no group or its group is among the allowed
   * ones; with no list of groups at all, only options without a group are usable.
   */
  lemma GroupGating(spec: OptionSpec, allowedGroups: Option<seq<string>>)
    ensures Permitted(spec, AllowedSet(allowedGroups)) <==>
      spec.group.None? || (allowedGroups.Some? && spec.group.value in allowedGroups.value)
    ensures allowedGroups.None? ==> (Permitted(spec, AllowedSet(allowedGroups)) <==> spec.group.None?)
  {
  }

  // ---------------------------------------------------------------------------
  // How single tokens are read
  // ---------------------------------------------------------------------------

  /** The first `=` of `name + "=" + value`, when `name` has none, is right after `name`. */
  lemma IndexOfFirstEquals(name: string, value: string)
    requires '=' !in name
    ensures IndexOf(name + "=" + value, '=') == |name|
  {
    var s := name + "=" + value;
    assert s[..|name|] == name;
    assert s[..|name| + 1] == name + "=";
    assert forall k :: 0 <= k < |name| ==> s[k] == name[k];
    assert s[|name|] == '=' && s[..|name|] == name;
  }

  /**
   * `--name=value` names the option `--name` with the dashes kept, and the value is all of
   * the token after the first `=`, even when empty (then reported, but still recorded).
   */
  lemma EqualsTokenRead(p: OptionsParser, allowed: set<string>, args: seq<string>, pos: nat,
                        st: ParsedOptionsResult, name: string, value: string)
    requires p.Valid() && pos < |args| && args[pos] == name + "=" + value
    requires StartsWith(name, "--") && '=' !in name
    ensures var r := StepAt(p, allowed, args, pos, st);
      r.Next? && r.pos == pos + 1 &&
      (if name !in p.longOptions || !Permitted(p.longOptions[name], allowed) then
         r.st == AddIllegal(st, name, pos, OptionNotSpecified)
       else if |p.longOptions[name].parameters| != 1 then
         r.st == AddIllegal(st, name, pos, EqualOptionNotSingleParam)
       else if value == "" then
         r.st == AddOccurrence(AddIllegal(st, name, pos, EqualOptionEmptyParameter),
                               ParsedOption(pos, false, p.stringToIndex[name], [value]))
       else
         r.st == AddOccurrence(st, ParsedOption(pos, false, p.stringToIndex[name], [value])))
  {
    var arg := args[pos];
    IndexOfFirstEquals(name, value);
    assert arg[..|name|] == name && arg[|name| + 1..] == value;
    assert arg[..2] == name[..2];
  }

  /**
   * A long token without `=` names an option; a known, permitted one pops exactly its
   * parameter count of following tokens. When fewer tokens remain it is reported and the
   * scan goes on with the very next token, consuming nothing.
   */
  lemma LongTokenRead(p: OptionsParser, allowed: set<string>, args: seq<string>, pos: nat, st: ParsedOptionsResult)
    requires p.Valid() && pos < |args|
    requires StartsWith(args[pos], "--") && |args[pos]| > 2 && '=' !in args[pos]
    ensures var arg := args[pos];
      var r := StepAt(p, allowed, args, pos, st);
      if arg !in p.longOptions || !Permitted(p.longOptions[arg], allowed) then
        r == Next(pos + 1, AddIllegal(st, arg, pos, OptionNotSpecified))
      else
        var n := |p.longOptions[arg].parameters|;
        if n > |args| - (pos + 1) then
          r == Next(pos + 1, AddIllegal(st, arg, pos, OptionNotEnoughParams))
        else
          r == Next(pos + 1 + n, AddOccurrence(st, ParsedOption(pos, false, p.stringToIndex[arg], args[pos + 1..pos + 1 + n])))
  {
    assert IndexOf(args[pos], '=') == -1;
  }

  /**
   * A lone `-`, or a token that does not start with `-`, is recorded as a non-option with
   * its own index, and the scan goes on with the very next token.
   */
  lemma NonOptionTokenRead(p: OptionsParser, allowed: set<string>, args: seq<string>, pos: nat, st: ParsedOptionsResult)
    requires p.Valid() && pos < |args|
    requires args[pos] == "-" || !StartsWith(args[pos], "-")
    ensures StepAt(p, allowed, args, pos, st) == Next(pos + 1, AddNonOption(st, args[pos], pos))
  {
    var arg := args[pos];
    assert 2 <= |arg| ==> arg[..2][..1] == arg[..1];
  }

  /** Any other token that starts with a single `-` is scanned as a cluster from its first character. */
  lemma ClusterTokenRead(p: OptionsParser, allowed: set<string>, args: seq<string>, pos: nat, st: ParsedOptionsResult)
    requires p.Valid() && pos < |args|
    requires StartsWith(args[pos], "-") && !StartsWith(args[pos], "--") && |args[pos]| > 1
    ensures var r := ScanCluster(p, allowed, args, pos, 0, pos + 1, st);
      StepAt(p, allowed, args, pos, st) == Next(r.0, r.1)
  {
  }

  /** The cluster scan only appends to the illegal usages. */
  lemma {:induction false} ScanClusterKeepsIllegal(p: OptionsParser, allowed: set<string>, args: seq<string>, t: nat,
                                                   i: nat, pos: nat, st: ParsedOptionsResult)
    requires p.Valid() && t < |args| && i <= |args[t]| && pos <= |args|
    ensures var r := ScanCluster(p, allowed, args, t, i, pos, st);
      |st.illegal| <= |r.1.illegal| && r.1.illegal[..|st.illegal|] == st.illegal
    decreases |args[t]| - i
  {
    var arg := args[t];
    if i < |arg| {
      var c := arg[i];
      var r := ScanCluster(p, allowed, args, t, i, pos, st);
      if c !in p.shortOptions || !Permitted(p.shortOptions[c], allowed) {
        var st' := AddIllegal(st, [c], t, OptionNotSpecified);
        ScanClusterKeepsIllegal(p, allowed, args, t, i + 1, pos, st');
        assert st'.illegal[..|st.illegal|] == st.illegal;
      } else {
        var n := |p.shortOptions[c].parameters|;
        var optionIndex := p.charToIndex[c];
        if i == |arg| - 1 {
          if n > |args| - pos {
            var st' := AddIllegal(st, [c], t, OptionNotEnoughParams);
            ScanClusterKeepsIllegal(p, allowed, args, t, i + 1, pos, st');
            assert st'.illegal[..|st.illegal|] == st.illegal;
          } else {
            ScanClusterKeepsIllegal(p, allowed, args, t, i + 1, pos + n,
                                    AddOccurrence(st, ParsedOption(t, false, optionIndex, args[pos..pos + n])));
          }
        } else if n == 0 {
          ScanClusterKeepsIllegal(p, allowed, args, t, i + 1, pos, AddOccurrence(st, ParsedOption(t, true, optionIndex, [])));
        } else if n != 1 {
          var st' := AddIllegal(st, [c], t, AdjoiningOptionNotSingleParam);
          ScanClusterKeepsIllegal(p, allowed, args, t, i + 1, pos, st');
          assert st'.illegal[..|st.illegal|] == st.illegal;
        }
      }
    }
  }

  /**
   * The cluster scan starts at the token's first character, so the dash that introduces a
   * cluster is itself looked up as a short option: unless `-` is a short option, every
   * cluster first reports `-` as not specified.
   */
  lemma ClusterLooksUpLeadingDash(p: OptionsParser, allowed: set<string>, args: seq<string>, pos: nat,
                                  st: ParsedOptionsResult)
    requires p.Valid() && pos < |args|
    requires StartsWith(args[pos], "-") && !StartsWith(args[pos], "--") && |args[pos]| > 1
    requires '-' !in p.shortOptions
    ensures var r := StepAt(p, allowed, args, pos, st);
      r.Next? && |r.st.illegal| > |st.illegal| &&
      r.st.illegal[|st.illegal|] == IllegalOption("-", pos, OptionNotSpecified)
  {
    var arg := args[pos];
    assert arg[0] == '-';
    var st' := AddIllegal(st, "-", pos, OptionNotSpecified);
    assert ScanCluster(p, allowed, args, pos, 0, pos + 1, st) == ScanCluster(p, allowed, args, pos, 1, pos + 1, st');
    ScanClusterKeepsIllegal(p, allowed, args, pos, 1, pos + 1, st');
    var r := ScanCluster(p, allowed, args, pos, 1, pos + 1, st');
    assert r.1.illegal[|st.illegal|] == r.1.illegal[..|st'.illegal|][|st.illegal|];
  }

  /** `--` ends the scan: nothing after it is examined. */
  lemma DoubleDashEndsScan(p: OptionsParser, allowed: set<string>, args: seq<string>, pos: nat, st: ParsedOptionsResult)
    requires p.Valid() && pos < |args| && args[pos] == "--"
    ensures ParseFrom(p, allowed, args, pos, st) == st
    ensures EndPos(p, allowed, args, pos, st) == pos
  {
  }
}
