/**
 * Queries over a parse result: is an option present, and what parameters did its
 * occurrences carry. A name is resolved to an option number through the long-name table
 * (for a string) or the short-name table (for a character), and the occurrences are then
 * looked up under that number.
 */
module OptionsProcessing {
  import opened Wrappers
  import opened ParsedResults

  /** The name a query is made with: a long name, looked up exactly as given, or a short character. */
  datatype Name = Long(name: string) | Short(c: char)

  /** The parts of a parse result the queries read; none of them is ever changed. */
  datatype OptionsProcessor = OptionsProcessor(
    parsed: map<nat, seq<ParsedOption>>,
    longNameToIndex: map<string, nat>,
    shortNameToIndex: map<char, nat>)
  {
    /** A string resolves only through the long-name table. */
    function ResolveLong(s: string): (r: Option<nat>)
      ensures r.Some? <==> s in longNameToIndex
      ensures r.Some? ==> r.value == longNameToIndex[s]
    {
      if s in longNameToIndex then Some(longNameToIndex[s]) else None
    }

    /** A character resolves only through the short-name table. */
    function ResolveShort(c: char): (r: Option<nat>)
      ensures r.Some? <==> c in shortNameToIndex
      ensures r.Some? ==> r.value == shortNameToIndex[c]
    {
      if c in shortNameToIndex then Some(shortNameToIndex[c]) else None
    }

    function TryResolveIndex(name: Name): (r: Option<nat>)
      ensures name.Long? ==> r == ResolveLong(name.name)
      ensures name.Short? ==> r == ResolveShort(name.c)
    {
      match name
      case Long(s) => ResolveLong(s)
      case Short(c) => ResolveShort(c)
    }

    /** The occurrences filed under the number `name` resolves to, if it resolves and any exist. */
    function Entries(name: Name): Option<seq<ParsedOption>> {
      match TryResolveIndex(name)
      case None => None
      case Some(i) => if i in parsed then Some(parsed[i]) else None
    }

    /** The name resolves and its list of occurrences exists and is not empty. */
    predicate IsOptionPresent(name: Name): (r: bool)
      ensures r <==> Entries(name).Some? && |Entries(name).value| > 0
    {
      TryResolveIndex(name).Some? && TryResolveIndex(name).value in parsed &&
      |parsed[TryResolveIndex(name).value]| > 0
    }

    /**
     * The first parameter of the occurrence number `offset` of `name`; nothing when the name
     * does not resolve, has fewer occurrences, or that occurrence has no parameter.
     */
    function TryGetParam(name: Name, offset: nat): (r: Option<string>)
      ensures r.Some? <==>
        Entries(name).Some? && offset < |Entries(name).value| && |Entries(name).value[offset].params| > 0
      ensures r.Some? ==> r.value == Entries(name).value[offset].params[0]
    {
      match Entries(name)
      case None => None
      case Some(entries) =>
        if offset < |entries| && |entries[offset].params| > 0 then Some(entries[offset].params[0]) else None
    }

    /**
     * The parameters of the occurrence number `offset` of `name`, with `true`; `false` and no
     * parameters when the name does not resolve or has fewer occurrences.
     */
    function TryGetParams(name: Name, offset: nat): (r: (bool, seq<string>))
      ensures r.0 <==> Entries(name).Some? && offset < |Entries(name).value|
      ensures r.0 ==> r.1 == Entries(name).value[offset].params
      ensures !r.0 ==> r.1 == []
    {
      match Entries(name)
      case None => (false, [])
      case Some(entries) => if offset < |entries| then (true, entries[offset].params) else (false, [])
    }

    /**
     * The parameters of every occurrence of `name`, occurrence by occurrence, with `true`
     * when the name resolves and has a list of occurrences (possibly empty).
     */
    function TryGetAllParams(name: Name): (r: (bool, seq<string>))
      ensures r.0 <==> Entries(name).Some?
      ensures r.0 ==> |r.1| == TotalParams(Entries(name).value)
      ensures !r.0 ==> r.1 == []
    {
      match Entries(name)
      case None => (false, [])
      case Some(entries) => (true, AllParams(entries))
    }
  }

  /** The queries read the occurrences of a parse result and its two numbering tables, as they are. */
  function NewOptionsProcessor(result: ParsedOptionsResult): (q: OptionsProcessor)
    ensures q.parsed == result.parsed
    ensures q.longNameToIndex == result.longNameToIndex && q.shortNameToIndex == result.shortNameToIndex
  {
    OptionsProcessor(result.parsed, result.longNameToIndex, result.shortNameToIndex)
  }

  /** The parameters of the occurrences one after the other. */
  function AllParams(entries: seq<ParsedOption>): (r: seq<string>)
    ensures |r| == TotalParams(entries)
  {
    if entries == [] then [] else entries[0].params + AllParams(entries[1..])
  }

  /** The number of parameters of all the occurrences. */
  function TotalParams(entries: seq<ParsedOption>): nat {
    if entries == [] then 0 else |entries[0].params| + TotalParams(entries[1..])
  }

  /**
   * The parameters of occurrence `k` sit in `AllParams` right after those of the
   * occurrences before it.
   */
  lemma {:induction false} AllParamsSlice(entries: seq<ParsedOption>, k: nat)
    requires k < |entries|
    ensures var s := TotalParams(entries[..k]);
      s + |entries[k].params| <= |AllParams(entries)| &&
      AllParams(entries)[s..s + |entries[k].params|] == entries[k].params
    decreases k
  {
    if k == 0 {
      assert entries[..0] == [];
    } else {
      AllParamsSlice(entries[1..], k - 1);
      assert entries[1..][..k - 1] == entries[..k][1..];
      var head := entries[0].params;
      var s := TotalParams(entries[..k]);
      assert s == |head| + TotalParams(entries[1..][..k - 1]);
      var rest := AllParams(entries[1..]);
      assert AllParams(entries) == head + rest;
      assert AllParams(entries)[s..s + |entries[k].params|] == rest[s - |head|..s - |head| + |entries[k].params|];
    }
  }

  /**
   * `TryGetParam` is the first of the values `TryGetParams` gives for the same occurrence:
   * it succeeds exactly when `TryGetParams` does with at least one value.
   */
  lemma ParamIsFirstOfParams(q: OptionsProcessor, name: Name, offset: nat)
    ensures var one, many := q.TryGetParam(name, offset), q.TryGetParams(name, offset);
      (one.Some? <==> many.0 && |many.1| > 0) &&
      (one.Some? ==> one.value == many.1[0])
  {
  }

  /**
   * What `TryGetParams` gives for occurrence `offset` is a contiguous part of what
   * `TryGetAllParams` gives, right after the parameters of the earlier occurrences.
   */
  lemma ParamsWithinAllParams(q: OptionsProcessor, name: Name, offset: nat)
    requires q.TryGetParams(name, offset).0
    ensures var values, all := q.TryGetParams(name, offset).1, q.TryGetAllParams(name);
      var s := TotalParams(q.Entries(name).value[..offset]);
      all.0 && s + |values| <= |all.1| && all.1[s..s + |values|] == values
  {
    AllParamsSlice(q.Entries(name).value, offset);
  }

  /**
   * With no empty occurrence list, as every parse result has, `TryGetAllParams` succeeds
   * exactly when the option is present.
   */
  lemma AllParamsFoundIffPresent(q: OptionsProcessor, name: Name)
    requires forall i :: i in q.parsed ==> |q.parsed[i]| > 0
    ensures q.TryGetAllParams(name).0 <==> q.IsOptionPresent(name)
  {
  }
}
