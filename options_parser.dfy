/**
 * The option engine: the lookup tables built from the option specifications, and the
 * left-to-right scan that turns argument tokens into occurrences, illegal usages and
 * non-options.
 *
 * The scan is specified by `ParseFrom`, which applies `StepAt` once per token the loop
 * pops; `Parse` is the imperative loop over a `RewindableQueue`, proved equal to it.
 */
module OptionsParsing {
  import opened Wrappers
  import opened CliOption
  import opened ParsedResults
  import opened RewindableQueues

  // ---------------------------------------------------------------------------
  // Construction of the lookup tables
  // ---------------------------------------------------------------------------

  /** Why construction failed: two options share a short character or a long name. */
  datatype ConfigError = DuplicateShortOption(c: char) | DuplicateLongOption(name: string)

  /**
   * The parser: the supported options and the four lookup tables. `charToIndex` numbers
   * the options that have a short character, `stringToIndex` those with a non-empty long
   * name, each in its own numbering.
   */
  datatype OptionsParser = OptionsParser(
    supportedOptions: seq<OptionSpec>,
    charToIndex: map<char, nat>,
    stringToIndex: map<string, nat>,
    shortOptions: map<char, OptionSpec>,
    longOptions: map<string, OptionSpec>)
  {
    /** Each name table and its numbering table have the same keys. */
    ghost predicate Valid() {
      shortOptions.Keys == charToIndex.Keys && longOptions.Keys == stringToIndex.Keys
    }
  }

  ghost predicate Distinct<K>(keys: seq<K>) {
    forall i, j :: 0 <= i < j < |keys| ==> keys[i] != keys[j]
  }

  predicate HasLongName(o: OptionSpec) {
    o.longOption.Some? && o.longOption.value != ""
  }

  /** The options that have a short character, in their original order. */
  function ShortNamed(options: seq<OptionSpec>): (r: seq<OptionSpec>)
    ensures forall i :: 0 <= i < |r| ==> r[i].shortOption.Some?
    ensures forall o :: o in r <==> o in options && o.shortOption.Some?
  {
    if options == [] then []
    else (if options[0].shortOption.Some? then [options[0]] else []) + ShortNamed(options[1..])
  }

  /** The options that have a non-empty long name, in their original order. */
  function LongNamed(options: seq<OptionSpec>): (r: seq<OptionSpec>)
    ensures forall i :: 0 <= i < |r| ==> HasLongName(r[i])
    ensures forall o :: o in r <==> o in options && HasLongName(o)
  {
    if options == [] then []
    else (if HasLongName(options[0]) then [options[0]] else []) + LongNamed(options[1..])
  }

  function ShortKeys(options: seq<OptionSpec>): seq<char> {
    var f := ShortNamed(options);
    seq(|f|, i requires 0 <= i < |f| => f[i].shortOption.value)
  }

  function LongKeys(options: seq<OptionSpec>): seq<string> {
    var f := LongNamed(options);
    seq(|f|, i requires 0 <= i < |f| => f[i].longOption.value)
  }

  /**
   * A dictionary from each key to its position, built in order; fails with the first key
   * that repeats an earlier one.
   */
  function IndexMap<K(==)>(keys: seq<K>): (r: Result<map<K, nat>, K>)
    ensures r.Success? ==> forall i :: 0 <= i < |keys| ==> keys[i] in r.value && r.value[keys[i]] == i
    ensures r.Success? ==> forall k :: k in r.value ==> r.value[k] < |keys| && keys[r.value[k]] == k
    ensures r.Failure? ==> exists i, j :: 0 <= i < j < |keys| && keys[i] == r.error && keys[j] == r.error
    ensures r.Success? <==> Distinct(keys)
    decreases |keys|
  {
    if keys == [] then Success(map[])
    else
      var init := keys[..|keys| - 1];
      var last := keys[|keys| - 1];
      match IndexMap(init)
      case Failure(k) =>
        ghost var i, j :| 0 <= i < j < |init| && init[i] == k && init[j] == k;
        assert keys[i] == k && keys[j] == k;
        Failure(k)
      case Success(m) =>
        if last in m then
          assert keys[m[last]] == last;
          Failure(last)
        else
          assert forall i :: 0 <= i < |init| ==> keys[i] == init[i];
          Success(m[last := |keys| - 1])
  }

  /**
   * Builds the parser: fails when two options share a short character (checked first) or
   * two share a long name. Otherwise each short character is numbered by its position
   * among the short-named options and each long name by its position among the long-named.
   */
  function NewOptionsParser(options: seq<OptionSpec>): (r: Result<OptionsParser, ConfigError>)
    ensures r.Success? <==> Distinct(ShortKeys(options)) && Distinct(LongKeys(options))
    ensures r.Failure? && r.error.DuplicateShortOption? ==> !Distinct(ShortKeys(options)) && r.error.c in ShortKeys(options)
    ensures r.Failure? && r.error.DuplicateLongOption? ==>
      Distinct(ShortKeys(options)) && !Distinct(LongKeys(options)) && r.error.name in LongKeys(options)
    ensures r.Success? ==> r.value.Valid() && r.value.supportedOptions == options
    ensures r.Success? ==> forall i :: 0 <= i < |ShortKeys(options)| ==>
      ShortKeys(options)[i] in r.value.charToIndex && r.value.charToIndex[ShortKeys(options)[i]] == i
    ensures r.Success? ==> forall i :: 0 <= i < |LongKeys(options)| ==>
      LongKeys(options)[i] in r.value.stringToIndex && r.value.stringToIndex[LongKeys(options)[i]] == i
    ensures r.Success? ==> forall c :: c in r.value.charToIndex ==> c in ShortKeys(options)
    ensures r.Success? ==> forall n :: n in r.value.stringToIndex ==> n in LongKeys(options)
  {
    match IndexMap(ShortKeys(options))
    case Failure(c) => Failure(DuplicateShortOption(c))
    case Success(charToIndex) =>
      match IndexMap(LongKeys(options))
      case Failure(name) => Failure(DuplicateLongOption(name))
      case Success(stringToIndex) => Success(Assemble(options, charToIndex, stringToIndex))
  }

  /**
   * Helper of `NewOptionsParser`: the parser whose option tables map each key to the option
   * its number designates. What the tables then hold is stated by `ShortTableComplete` and
   * `LongTableComplete`.
   */
  function Assemble(options: seq<OptionSpec>, charToIndex: map<char, nat>, stringToIndex: map<string, nat>): (p: OptionsParser)
    requires forall c :: c in charToIndex ==> charToIndex[c] < |ShortNamed(options)|
    requires forall n :: n in stringToIndex ==> stringToIndex[n] < |LongNamed(options)|
    ensures p.Valid() && p.supportedOptions == options
    ensures p.charToIndex == charToIndex && p.stringToIndex == stringToIndex
    ensures forall c :: c in p.shortOptions ==> p.shortOptions[c] == ShortNamed(options)[charToIndex[c]]
    ensures forall n :: n in p.longOptions ==> p.longOptions[n] == LongNamed(options)[stringToIndex[n]]
  {
    var shortNamed, longNamed := ShortNamed(options), LongNamed(options);
    var shortOptions := map c | c in charToIndex :: shortNamed[charToIndex[c]];
    var longOptions := map n | n in stringToIndex :: longNamed[stringToIndex[n]];
    assert shortOptions.Keys == charToIndex.Keys;
    assert longOptions.Keys == stringToIndex.Keys;
    OptionsParser(options, charToIndex, stringToIndex, shortOptions, longOptions)
  }

  // ---------------------------------------------------------------------------
  // Token classification helpers
  // ---------------------------------------------------------------------------

  predicate StartsWith(s: string, prefix: string) {
    |prefix| <= |s| && s[..|prefix|] == prefix
  }

  /** The position of the first `c` in `s`, or -1 when there is none. */
  function IndexOf(s: string, c: char): (r: int)
    ensures -1 <= r < |s|
    ensures r == -1 <==> c !in s
    ensures r >= 0 ==> s[r] == c && c !in s[..r]
  {
    if s == [] then -1
    else if s[0] == c then 0
    else
      var k := IndexOf(s[1..], c);
      assert s == [s[0]] + s[1..];
      if k < 0 then -1
      else
        assert s[..k + 1] == [s[0]] + s[1..][..k];
        k + 1
  }

  /** An option is usable when it has no group or its group is allowed. */
  predicate Permitted(spec: OptionSpec, allowed: set<string>) {
    spec.group.None? || spec.group.value in allowed
  }

  /** The allowed groups; no list at all allows no group. */
  function AllowedSet(allowedGroups: Option<seq<string>>): (r: set<string>)
    ensures allowedGroups.None? ==> r == {}
    ensures allowedGroups.Some? ==> forall g :: g in r <==> g in allowedGroups.value
  {
    match allowedGroups
    case None => {}
    case Some(groups) => set g | g in groups
  }

  // ---------------------------------------------------------------------------
  // The scan, as functions on the token sequence and the cursor position
  // ---------------------------------------------------------------------------

  function AddIllegal(st: ParsedOptionsResult, text: string, index: nat, code: ErrorCode): ParsedOptionsResult {
    st.(illegal := st.illegal + [IllegalOption(text, index, code)])
  }

  function AddNonOption(st: ParsedOptionsResult, text: string, index: nat): ParsedOptionsResult {
    st.(nonOption := st.nonOption + [NonOption(text, index)])
  }

  function AddOccurrence(st: ParsedOptionsResult, o: ParsedOption): ParsedOptionsResult {
    st.(parsed := AddEntryToList(st.parsed, o.optionIndex, o))
  }

  /** What one turn of the loop does: stop at `--`, or go on from a later cursor. */
  datatype Step = Stop | Next(pos: nat, st: ParsedOptionsResult)

  /**
   * The equals form `name=value` of the token at `index`, whose first `=` is at `eqPos`.
   */
  function EqualsForm(p: OptionsParser, allowed: set<string>, arg: string, index: nat, eqPos: nat,
                      st: ParsedOptionsResult): (r: ParsedOptionsResult)
    requires p.Valid() && 0 < eqPos < |arg|
    ensures r.longNameToIndex == st.longNameToIndex && r.shortNameToIndex == st.shortNameToIndex
    ensures r.nonOption == st.nonOption
    ensures r.parsed != st.parsed ==>
      arg[..eqPos] in p.longOptions && Permitted(p.longOptions[arg[..eqPos]], allowed) &&
      |p.longOptions[arg[..eqPos]].parameters| == 1
    ensures r.illegal == st.illegal <==>
      arg[..eqPos] in p.longOptions && Permitted(p.longOptions[arg[..eqPos]], allowed) &&
      |p.longOptions[arg[..eqPos]].parameters| == 1 && eqPos < |arg| - 1
  {
    var name := arg[..eqPos];
    var value := arg[eqPos + 1..];
    if name !in p.longOptions || !Permitted(p.longOptions[name], allowed) then
      AddIllegal(st, name, index, OptionNotSpecified)
    else if |p.longOptions[name].parameters| != 1 then
      AddIllegal(st, name, index, EqualOptionNotSingleParam)
    else
      var st' := if |value| == 0 then AddIllegal(st, name, index, EqualOptionEmptyParameter) else st;
      AddOccurrence(st', ParsedOption(index, false, p.stringToIndex[name], [value]))
  }

  /**
   * A long option without `=`, at `index`; its parameters are the tokens after it.
   * The result is the new cursor and state.
   */
  function LongForm(p: OptionsParser, allowed: set<string>, args: seq<string>, index: nat,
                    st: ParsedOptionsResult): (r: (nat, ParsedOptionsResult))
    requires p.Valid() && index < |args|
    ensures index < r.0 <= |args|
    ensures r.1.longNameToIndex == st.longNameToIndex && r.1.shortNameToIndex == st.shortNameToIndex
  {
    var arg := args[index];
    var next := index + 1;
    if arg !in p.longOptions || !Permitted(p.longOptions[arg], allowed) then
      (next, AddIllegal(st, arg, index, OptionNotSpecified))
    else
      var n := p.longOptions[arg].ParameterCount();
      if n > |args| - next then
        (next, AddIllegal(st, arg, index, OptionNotEnoughParams))
      else
        (next + n, AddOccurrence(st, ParsedOption(index, false, p.stringToIndex[arg], args[next..next + n])))
  }

  /**
   * The scan of the cluster token at `index` from its character `i` on, with the cursor at
   * `pos`. Only the last character may take parameters from the following tokens.
   */
  function ScanCluster(p: OptionsParser, allowed: set<string>, args: seq<string>, index: nat, i: nat,
                       pos: nat, st: ParsedOptionsResult): (r: (nat, ParsedOptionsResult))
    requires p.Valid() && index < |args| && i <= |args[index]| && pos <= |args|
    ensures pos <= r.0 <= |args|
    ensures r.0 != pos ==>
      0 < |args[index]| && args[index][|args[index]| - 1] in p.shortOptions &&
      r.0 == pos + |p.shortOptions[args[index][|args[index]| - 1]].parameters|
    ensures r.1.longNameToIndex == st.longNameToIndex && r.1.shortNameToIndex == st.shortNameToIndex
    decreases |args[index]| - i
  {
    var arg := args[index];
    if i == |arg| then (pos, st)
    else
      var c := arg[i];
      var isLast := i == |arg| - 1;
      if c !in p.shortOptions || !Permitted(p.shortOptions[c], allowed) then
        ScanCluster(p, allowed, args, index, i + 1, pos, AddIllegal(st, [c], index, OptionNotSpecified))
      else
        var n := |p.shortOptions[c].parameters|;
        var optionIndex := p.charToIndex[c];
        if isLast then
          if n > |args| - pos then
            ScanCluster(p, allowed, args, index, i + 1, pos, AddIllegal(st, [c], index, OptionNotEnoughParams))
          else
            ScanCluster(p, allowed, args, index, i + 1, pos + n,
                        AddOccurrence(st, ParsedOption(index, false, optionIndex, args[pos..pos + n])))
        else if n == 0 then
          ScanCluster(p, allowed, args, index, i + 1, pos, AddOccurrence(st, ParsedOption(index, true, optionIndex, [])))
        else if n == 1 then
          (pos, AddOccurrence(st, ParsedOption(index, true, optionIndex, [arg[i + 1..]])))
        else
          ScanCluster(p, allowed, args, index, i + 1, pos, AddIllegal(st, [c], index, AdjoiningOptionNotSingleParam))
  }

  /** A token that starts with `--` and is longer than that, at `index`: the equals form or not. */
  function LongToken(p: OptionsParser, allowed: set<string>, args: seq<string>, index: nat,
                     st: ParsedOptionsResult): (r: (nat, ParsedOptionsResult))
    requires p.Valid() && index < |args|
    ensures index < r.0 <= |args|
    ensures r.1.longNameToIndex == st.longNameToIndex && r.1.shortNameToIndex == st.shortNameToIndex
  {
    var arg := args[index];
    var eqPos := IndexOf(arg, '=');
    if eqPos == 0 then (index + 1, AddIllegal(st, "--=", index, EqualFirstChar))
    else if eqPos > 0 then (index + 1, EqualsForm(p, allowed, arg, index, eqPos, st))
    else LongForm(p, allowed, args, index, st)
  }

  /** One turn of the loop: pops the token at `pos` and classifies it. */
  function StepAt(p: OptionsParser, allowed: set<string>, args: seq<string>, pos: nat,
                  st: ParsedOptionsResult): (r: Step)
    requires p.Valid() && pos < |args|
    ensures r.Next? ==> pos < r.pos <= |args|
    ensures r.Stop? <==> args[pos] == "--"
    ensures r.Next? ==> r.st.longNameToIndex == st.longNameToIndex && r.st.shortNameToIndex == st.shortNameToIndex
  {
    var arg := args[pos];
    var next := pos + 1;
    if StartsWith(arg, "--") then
      if |arg| == 2 then Stop
      else
        var r := LongToken(p, allowed, args, pos, st);
        Next(r.0, r.1)
    else if StartsWith(arg, "-") then
      if |arg| == 1 then Next(next, AddNonOption(st, arg, pos))
      else
        var r := ScanCluster(p, allowed, args, pos, 0, next, st);
        Next(r.0, r.1)
    else
      Next(next, AddNonOption(st, arg, pos))
  }

  /** The loop from cursor `pos` with the state so far `st`, until the tokens run out or `--`. */
  function ParseFrom(p: OptionsParser, allowed: set<string>, args: seq<string>, pos: nat,
                     st: ParsedOptionsResult): (r: ParsedOptionsResult)
    requires p.Valid() && pos <= |args|
    ensures r.longNameToIndex == st.longNameToIndex && r.shortNameToIndex == st.shortNameToIndex
    decreases |args| - pos
  {
    if pos == |args| then st
    else
      match StepAt(p, allowed, args, pos, st)
      case Stop => st
      case Next(q, s) => ParseFrom(p, allowed, args, q, s)
  }

  /** The cursor at which the loop ends: the end of the tokens, or a `--` it popped. */
  function EndPos(p: OptionsParser, allowed: set<string>, args: seq<string>, pos: nat,
                  st: ParsedOptionsResult): (e: nat)
    requires p.Valid() && pos <= |args|
    ensures pos <= e <= |args|
    ensures e < |args| ==> args[e] == "--"
    decreases |args| - pos
  {
    if pos == |args| then pos
    else
      match StepAt(p, allowed, args, pos, st)
      case Stop => pos
      case Next(q, s) => EndPos(p, allowed, args, q, s)
  }

  function InitialResult(p: OptionsParser): ParsedOptionsResult {
    ParsedOptionsResult(map[], [], [], p.stringToIndex, p.charToIndex)
  }

  /** The whole parse of `args` from `offset`, as a function; the result carries the parser's own numbering tables. */
  function ParseSpec(p: OptionsParser, args: seq<string>, offset: nat, allowedGroups: Option<seq<string>>)
    : (r: ParsedOptionsResult)
    requires p.Valid() && offset <= |args|
    ensures r.longNameToIndex == p.stringToIndex && r.shortNameToIndex == p.charToIndex
  {
    ParseFrom(p, AllowedSet(allowedGroups), args, offset, InitialResult(p))
  }

  // ---------------------------------------------------------------------------
  // The parse loop
  // ---------------------------------------------------------------------------

  /**
   * Parses `args` from `offset` with the groups in `allowedGroups` permitted: a `while`
   * loop over the token queue with an inner `for` loop over the characters of a cluster.
   */
  method Parse(p: OptionsParser, args: array<string>, offset: nat, allowedGroups: Option<seq<string>>)
    returns (r: ParsedOptionsResult)
    requires p.Valid() && offset <= args.Length
    ensures r == ParseSpec(p, args[..], offset, allowedGroups)
  {
    var queue := new RewindableQueue(args, offset);
    var allowed := AllowedSet(allowedGroups);
    var parsedOptions: map<nat, seq<ParsedOption>> := map[];
    var illegalOptions: seq<IllegalOption> := [];
    var nonOptions: seq<NonOption> := [];
    ghost var a := args[..];
    ghost var final := ParseFrom(p, allowed, a, offset, InitialResult(p));

    while !queue.Empty()
      invariant queue.Valid() && queue.items == args
      invariant ParseFrom(p, allowed, a, queue.cursor,
                          ParsedOptionsResult(parsedOptions, illegalOptions, nonOptions, p.stringToIndex, p.charToIndex))
                == final
      decreases args.Length - queue.cursor
    {
      ghost var st := ParsedOptionsResult(parsedOptions, illegalOptions, nonOptions, p.stringToIndex, p.charToIndex);
      var arg, index := queue.PopFront();
      assert arg == a[index];
      ghost var step := StepAt(p, allowed, a, index, st);
      assert step.Next? ==> ParseFrom(p, allowed, a, index, st) == ParseFrom(p, allowed, a, step.pos, step.st);

      if StartsWith(arg, "--") {
        if |arg| == 2 {
          break;
        }
        parsedOptions, illegalOptions := ParseLongToken(p, allowed, queue, a, arg, index, parsedOptions, illegalOptions, st);
      } else if StartsWith(arg, "-") {
        if |arg| == 1 {
          nonOptions := nonOptions + [NonOption(arg, index)];
        } else {
          parsedOptions, illegalOptions := ScanClusterToken(p, allowed, queue, a, arg, index, parsedOptions, illegalOptions, st);
        }
      } else {
        nonOptions := nonOptions + [NonOption(arg, index)];
      }
    }

    r := ParsedOptionsResult(parsedOptions, illegalOptions, nonOptions, p.stringToIndex, p.charToIndex);
  }

  /**
   * The inner `for` loop of `Parse` over the characters of the cluster token `arg`, popped
   * from position `index`; it extends the occurrences and the illegal usages.
   */
  method ScanClusterToken(p: OptionsParser, allowed: set<string>, queue: RewindableQueue<string>,
                          ghost a: seq<string>, arg: string, index: nat,
                          parsed0: map<nat, seq<ParsedOption>>, illegal0: seq<IllegalOption>,
                          ghost st: ParsedOptionsResult)
    returns (parsedOptions: map<nat, seq<ParsedOption>>, illegalOptions: seq<IllegalOption>)
    requires p.Valid() && queue.Valid() && a == queue.items[..]
    requires index < |a| && a[index] == arg && index < queue.cursor
    requires st.parsed == parsed0 && st.illegal == illegal0
    modifies queue
    ensures queue.Valid()
    ensures (queue.cursor, st.(parsed := parsedOptions, illegal := illegalOptions))
            == ScanCluster(p, allowed, a, index, 0, old(queue.cursor), st)
  {
    parsedOptions, illegalOptions := parsed0, illegal0;
    ghost var target := ScanCluster(p, allowed, a, index, 0, queue.cursor, st);
    for i := 0 to |arg|
      invariant queue.Valid() && queue.items[..] == a
      invariant ScanCluster(p, allowed, a, index, i, queue.cursor, st.(parsed := parsedOptions, illegal := illegalOptions))
                == target
    {
      var c := arg[i];
      var isLast := i == |arg| - 1;

      if c !in p.shortOptions || !Permitted(p.shortOptions[c], allowed) {
        illegalOptions := illegalOptions + [IllegalOption([c], index, OptionNotSpecified)];
        continue;
      }

      var spec := p.shortOptions[c];
      var optionIndex := p.charToIndex[c];
      if isLast {
        if |spec.parameters| > queue.Remaining() {
          illegalOptions := illegalOptions + [IllegalOption([c], index, OptionNotEnoughParams)];
          continue;
        }
        ghost var from := queue.cursor;
        var params := PopN(queue, |spec.parameters|);
        assert params == a[from..queue.cursor];
        var parsed := ParsedOption(index, false, optionIndex, params);
        parsedOptions := AddEntryToList(parsedOptions, optionIndex, parsed);
      } else if |spec.parameters| == 0 {
        var parsed := ParsedOption(index, true, optionIndex, []);
        parsedOptions := AddEntryToList(parsedOptions, optionIndex, parsed);
      } else if |spec.parameters| == 1 {
        var value := arg[i + 1..];
        var parsed := ParsedOption(index, true, optionIndex, [value]);
        parsedOptions := AddEntryToList(parsedOptions, optionIndex, parsed);
        break;
      } else {
        illegalOptions := illegalOptions + [IllegalOption([c], index, AdjoiningOptionNotSingleParam)];
        continue;
      }
    }
  }

  /**
   * The part of `Parse`'s loop body for a token that starts with `--` and is longer than
   * that: the equals form, or a long option taking its parameters from the queue.
   */
  method ParseLongToken(p: OptionsParser, allowed: set<string>, queue: RewindableQueue<string>,
                        ghost a: seq<string>, arg: string, index: nat,
                        parsed0: map<nat, seq<ParsedOption>>, illegal0: seq<IllegalOption>,
                        ghost st: ParsedOptionsResult)
    returns (parsedOptions: map<nat, seq<ParsedOption>>, illegalOptions: seq<IllegalOption>)
    requires p.Valid() && queue.Valid() && a == queue.items[..]
    requires index < |a| && a[index] == arg && queue.cursor == index + 1
    requires st.parsed == parsed0 && st.illegal == illegal0
    modifies queue
    ensures queue.Valid()
    ensures (queue.cursor, st.(parsed := parsedOptions, illegal := illegalOptions))
            == LongToken(p, allowed, a, index, st)
  {
    parsedOptions, illegalOptions := parsed0, illegal0;
    var eqPos := IndexOf(arg, '=');
    if eqPos == 0 {
      illegalOptions := illegalOptions + [IllegalOption("--=", index, EqualFirstChar)];
    } else if eqPos > 0 {
      var name := arg[..eqPos];
      var value := arg[eqPos + 1..];
      if name !in p.longOptions || !Permitted(p.longOptions[name], allowed) {
        illegalOptions := illegalOptions + [IllegalOption(name, index, OptionNotSpecified)];
        return;
      }
      var spec := p.longOptions[name];
      if |spec.parameters| != 1 {
        illegalOptions := illegalOptions + [IllegalOption(name, index, EqualOptionNotSingleParam)];
        return;
      }
      if |value| == 0 {
        illegalOptions := illegalOptions + [IllegalOption(name, index, EqualOptionEmptyParameter)];
      }
      var parsed := ParsedOption(index, false, p.stringToIndex[name], [value]);
      parsedOptions := AddEntryToList(parsedOptions, parsed.optionIndex, parsed);
    } else {
      if arg !in p.longOptions || !Permitted(p.longOptions[arg], allowed) {
        illegalOptions := illegalOptions + [IllegalOption(arg, index, OptionNotSpecified)];
        return;
      }
      var spec := p.longOptions[arg];
      if |spec.parameters| > queue.Remaining() {
        illegalOptions := illegalOptions + [IllegalOption(arg, index, OptionNotEnoughParams)];
        return;
      }
      var optionIndex := p.stringToIndex[arg];
      var params := PopN(queue, spec.ParameterCount());
      assert params == a[index + 1..queue.cursor];
      var parsed := ParsedOption(index, false, optionIndex, params);
      parsedOptions := AddEntryToList(parsedOptions, optionIndex, parsed);
    }
  }
}
