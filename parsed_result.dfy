/** The records produced by one parse: occurrences, illegal usages, non-options. */
module ParsedResults {

  /** The error taxonomy of an illegal usage. */
  datatype ErrorCode =
    | EqualFirstChar
    | OptionNotSpecified
    | EqualOptionNotSingleParam
    | EqualOptionEmptyParameter
    | OptionNotEnoughParams
    | AdjoiningOptionNotSingleParam

  /**
   * One occurrence of an option: the original index of the token it came from,
   * whether it was found in a cluster in adjoining form, the option's number in the
   * parser's lookup table, and the captured parameters in order.
   */
  datatype ParsedOption = ParsedOption(index: nat, isShortOption: bool, optionIndex: nat, params: seq<string>)

  /** An illegal usage: the offending text, the original token index, the error kind. */
  datatype IllegalOption = IllegalOption(text: string, index: nat, code: ErrorCode)

  /** A positional argument with its original token index. */
  datatype NonOption = NonOption(text: string, index: nat)

  /**
   * The result of one parse: occurrences per option number (command-line order),
   * illegal usages (detection order), non-options (appearance order) and the two
   * name-to-number tables the parser used.
   */
  datatype ParsedOptionsResult = ParsedOptionsResult(
    parsed: map<nat, seq<ParsedOption>>,
    illegal: seq<IllegalOption>,
    nonOption: seq<NonOption>,
    longNameToIndex: map<string, nat>,
    shortNameToIndex: map<char, nat>)

  /**
   * Appends `v` to the list stored under `key`, creating the list when the key is absent.
   * Every other key keeps its list.
   */
  function AddEntryToList<K, V>(m: map<K, seq<V>>, key: K, v: V): (r: map<K, seq<V>>)
    ensures r.Keys == m.Keys + {key}
    ensures key in m ==> r[key] == m[key] + [v]
    ensures key !in m ==> r[key] == [v]
    ensures forall k :: k in m && k != key ==> r[k] == m[k]
  {
    if key in m then m[key := m[key] + [v]] else m[key := [v]]
  }
}
