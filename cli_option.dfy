/**
 * The option specification record read by the parser
 * (`record Option(ShortOption, LongOption, MaxOccurs, Group, Description, Parameters)`).
 */
module CliOption {
  import opened Wrappers

  /** One named parameter slot of an option, with its optional type name. */
  datatype ParameterSpec = ParameterSpec(name: string, paramType: Option<string>)

  /**
   * An option specification. `shortOption` and `longOption` are the two identities,
   * `group` the permission group that gates it, `parameters` its parameter slots. The
   * parser looks a long token up with its leading dashes, so only a `longOption` written
   * with them, such as `--name`, can ever be matched.
   */
  datatype OptionSpec = OptionSpec(
    shortOption: Option<char>,
    longOption: Option<string>,
    maxOccurs: int,
    group: Option<string>,
    description: Option<string>,
    parameters: seq<ParameterSpec>)
  {
    /** The arity of the option: how many parameters one occurrence takes. */
    function ParameterCount(): nat
    {
      |parameters|
    }
  }
}
