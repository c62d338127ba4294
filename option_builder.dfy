/**
 * The fluent builder of option descriptions: setters that overwrite one field each and
 * return the builder itself, an appending `WithParameter`, a validating `Build` and a
 * `Reset` back to default values.
 */
module OptionBuilding {
  import opened Wrappers
  import opened CliOption

  /** Why `Build` refuses: no usable name, fewer than one occurrence allowed, or a negative count. */
  datatype BuildError = MissingName | MaxOccursBelowOne | NegativeNumberOfParams

  /** The option `Build` produces: every field of the builder, as it stands. */
  datatype BuiltOption = BuiltOption(
    shortOption: Option<char>,
    longOption: Option<string>,
    maxOccurs: int,
    numberOfParams: int,
    group: Option<string>,
    description: Option<string>,
    parameters: seq<ParameterSpec>)

  /** The characters .NET classes as white space (Unicode `Zs`, `Zl`, `Zp`, and the listed controls). */
  predicate IsWhiteSpace(c: char) {
    ('\U{0009}' <= c <= '\U{000D}') || c == '\U{0020}' || c == '\U{0085}' || c == '\U{00A0}' ||
    c == '\U{1680}' || ('\U{2000}' <= c <= '\U{200A}') || c == '\U{2028}' || c == '\U{2029}' ||
    c == '\U{202F}' || c == '\U{205F}' || c == '\U{3000}'
  }

  /** Absent, empty, or made only of white space. */
  predicate IsNullOrWhiteSpace(s: Option<string>) {
    s.None? || forall i :: 0 <= i < |s.value| ==> IsWhiteSpace(s.value[i])
  }

  /**
   * The checks of `Build`, in their order: the name check (a short character of `'\0'`
   * together with no usable long name), then the occurrence bound, then the parameter count.
   * An absent short character is not `'\0'`, so it passes the name check.
   */
  function Validate(shortOption: Option<char>, longOption: Option<string>, maxOccurs: int, numberOfParams: int)
    : (r: Option<BuildError>)
    ensures r == Some(MissingName) <==> shortOption == Some('\0') && IsNullOrWhiteSpace(longOption)
    ensures r == Some(MaxOccursBelowOne) <==>
      !(shortOption == Some('\0') && IsNullOrWhiteSpace(longOption)) && maxOccurs < 1
    ensures r == Some(NegativeNumberOfParams) <==>
      !(shortOption == Some('\0') && IsNullOrWhiteSpace(longOption)) && maxOccurs >= 1 && numberOfParams < 0
    ensures r.None? <==>
      !(shortOption == Some('\0') && IsNullOrWhiteSpace(longOption)) && maxOccurs >= 1 && numberOfParams >= 0
  {
    if shortOption == Some('\0') && IsNullOrWhiteSpace(longOption) then Some(MissingName)
    else if maxOccurs < 1 then Some(MaxOccursBelowOne)
    else if numberOfParams < 0 then Some(NegativeNumberOfParams)
    else None
  }

  class OptionBuilder {
    var shortOption: Option<char>
    var longOption: Option<string>
    var maxOccurs: int
    var numberOfParams: int
    var group: Option<string>
    var description: Option<string>
    var parameters: seq<ParameterSpec>

    /** No names, one occurrence at most, no parameters, no group, no description. */
    constructor()
      ensures shortOption == None && longOption == None
      ensures maxOccurs == 1 && numberOfParams == 0
      ensures group == None && description == None && parameters == []
    {
      shortOption := None;
      longOption := None;
      maxOccurs := 1;
      numberOfParams := 0;
      group := None;
      description := None;
      parameters := [];
    }

    method WithShortOption(c: Option<char>) returns (self: OptionBuilder)
      modifies this
      ensures self == this && shortOption == c
      ensures longOption == old(longOption) && maxOccurs == old(maxOccurs) && numberOfParams == old(numberOfParams)
      ensures group == old(group) && description == old(description) && parameters == old(parameters)
    {
      shortOption := c;
      self := this;
    }

    method WithLongOption(s: Option<string>) returns (self: OptionBuilder)
      modifies this
      ensures self == this && longOption == s
      ensures shortOption == old(shortOption) && maxOccurs == old(maxOccurs) && numberOfParams == old(numberOfParams)
      ensures group == old(group) && description == old(description) && parameters == old(parameters)
    {
      longOption := s;
      self := this;
    }

    method WithMaxOccurs(max: int) returns (self: OptionBuilder)
      modifies this
      ensures self == this && maxOccurs == max
      ensures shortOption == old(shortOption) && longOption == old(longOption) && numberOfParams == old(numberOfParams)
      ensures group == old(group) && description == old(description) && parameters == old(parameters)
    {
      maxOccurs := max;
      self := this;
    }

    method WithNumberOfParams(n: int) returns (self: OptionBuilder)
      modifies this
      ensures self == this && numberOfParams == n
      ensures shortOption == old(shortOption) && longOption == old(longOption) && maxOccurs == old(maxOccurs)
      ensures group == old(group) && description == old(description) && parameters == old(parameters)
    {
      numberOfParams := n;
      self := this;
    }

    method WithGroup(g: Option<string>) returns (self: OptionBuilder)
      modifies this
      ensures self == this && group == g
      ensures shortOption == old(shortOption) && longOption == old(longOption) && maxOccurs == old(maxOccurs)
      ensures numberOfParams == old(numberOfParams) && description == old(description) && parameters == old(parameters)
    {
      group := g;
      self := this;
    }

    method WithDescription(d: Option<string>) returns (self: OptionBuilder)
      modifies this
      ensures self == this && description == d
      ensures shortOption == old(shortOption) && longOption == old(longOption) && maxOccurs == old(maxOccurs)
      ensures numberOfParams == old(numberOfParams) && group == old(group) && parameters == old(parameters)
    {
      description := d;
      self := this;
    }

    /** Appends one parameter after those added before. */
    method WithParameter(name: string, paramType: Option<string>) returns (self: OptionBuilder)
      modifies this
      ensures self == this && parameters == old(parameters) + [ParameterSpec(name, paramType)]
      ensures shortOption == old(shortOption) && longOption == old(longOption) && maxOccurs == old(maxOccurs)
      ensures numberOfParams == old(numberOfParams) && group == old(group) && description == old(description)
    {
      parameters := parameters + [ParameterSpec(name, paramType)];
      self := this;
    }

    /**
     * The option with every field as it stands, or the first check that fails; the builder
     * itself is left as it is.
     */
    method Build() returns (r: Result<BuiltOption, BuildError>)
      ensures r.Failure? <==> Validate(shortOption, longOption, maxOccurs, numberOfParams).Some?
      ensures r.Failure? ==> r.error == Validate(shortOption, longOption, maxOccurs, numberOfParams).value
      ensures r.Success? ==>
        r.value == BuiltOption(shortOption, longOption, maxOccurs, numberOfParams, group, description, parameters)
    {
      if shortOption == Some('\0') && IsNullOrWhiteSpace(longOption) {
        return Failure(MissingName);
      }
      if maxOccurs < 1 {
        return Failure(MaxOccursBelowOne);
      }
      if numberOfParams < 0 {
        return Failure(NegativeNumberOfParams);
      }
      r := Success(BuiltOption(shortOption, longOption, maxOccurs, numberOfParams, group, description, parameters));
    }

    /**
     * Back to a short character of `'\0'`, no long name, one occurrence, no parameters and
     * no group; the description and the parameters stay.
     */
    method Reset() returns (self: OptionBuilder)
      modifies this
      ensures self == this
      ensures shortOption == Some('\0') && longOption == None && maxOccurs == 1 && numberOfParams == 0 && group == None
      ensures description == old(description) && parameters == old(parameters)
    {
      shortOption := Some('\0');
      longOption := None;
      maxOccurs := 1;
      numberOfParams := 0;
      group := None;
      self := this;
    }
  }

  /**
   * A fresh builder, which has no short character rather than `'\0'`, passes every check
   * of `Build` without any name, whereas a builder just reset, with `'\0'`, fails the name
   * check until a long name with some non-space character is given.
   */
  lemma DefaultsAndReset(s: string)
    ensures Validate(None, None, 1, 0) == None
    ensures Validate(Some('\0'), None, 1, 0) == Some(MissingName)
    ensures Validate(Some('\0'), Some(s), 1, 0) == None <==> exists i :: 0 <= i < |s| && !IsWhiteSpace(s[i])
  {
  }

  /** A long name with a non-space character, or any short character other than `'\0'`, is enough. */
  lemma NamedOptionsPassNameCheck(shortOption: Option<char>, longOption: Option<string>, maxOccurs: int, numberOfParams: int)
    requires shortOption != Some('\0') ||
      (longOption.Some? && exists i :: 0 <= i < |longOption.value| && !IsWhiteSpace(longOption.value[i]))
    ensures Validate(shortOption, longOption, maxOccurs, numberOfParams) != Some(MissingName)
  {
  }
}
