# HelpParser option engine, in Dafny

This project models the command-line option engine of HelpParser. It covers:

- the lookup tables built from a list of option specifications;
- the token scanner (`OptionsParser.Parse`);
- the bulk pop on the token queue;
- the queries over a parse result (`OptionsProcessor`);
- the fluent `OptionBuilder`.

The scanner classifies each token in turn. A token that starts with `--` is either the end-of-options marker, the equals form `--name=value`, or a long option that takes its parameters from the following tokens. A token that starts with one `-` is a cluster of short options. Any other token, and a lone `-`, is a non-option. Unknown options, options whose group is not allowed, and wrong parameter counts are collected as illegal usages, and the scan goes on.

Layout:

- `wrappers.dfy` holds `Option` and `Result`.
- `cli_option.dfy` holds the option specification record.
- `parsed_result.dfy` holds the result records and the append-to-list dictionary update.
- `rewindable_queue.dfy` holds the token queue (a class over an array with a start offset and a cursor) and `PopN`.
- `options_parser.dfy` holds the table construction and the scanner.
- `options_parser_lemmas.dfy` holds what is proved about them.
- `occurrence_lemmas.dfy` holds the outcome of each character of a cluster, and the agreement of every recorded occurrence with the option its token names.
- `options_processor.dfy` holds the queries.
- `queries_on_parse.dfy` holds the queries applied to parse results.
- `option_builder.dfy` holds the builder.

`Parse` keeps the imperative structure of the source:

- a `while` loop pops tokens from the queue;
- an inner `for` loop over the characters of a cluster uses `continue` and `break`;
- parameters are popped with `PopN`.

`Parse` is proved equal to `ParseSpec`. That is a functional description which applies `StepAt` once per token the loop pops. Everything else about parsing is proved of `ParseSpec`.

Behaviour of the code as written, which the model follows and the lemmas state:

- `OptionNotEnoughParams` does not stop the parse. The option is reported, no token is consumed, and the scan continues with the next token (`LongTokenRead`). The code leaves the branch with `continue` (CliCommandLine/OptionsParser.cs:88-89, 120-121).
- A `--` token ends the scan, and the tokens after it are not reported at all, not even as non-options (`ParseWellFormed`). The tokens after the marker still count in the "enough tokens remain" check before it. So an option of arity 2 written just before `-- x` takes `--` and `x` as its parameters.
- The cluster scan starts at the first character of the token. So the dash itself is looked up as a short option. Unless `-` is a short option, every cluster first reports `-` as not specified (`ClusterLooksUpLeadingDash`).
- Short characters and long names are numbered separately, each from 0. Occurrences of both are filed in one dictionary by that number. An option with only `-a` and another with only `--b` therefore share number 0, and after parsing `--b` the query for `a` finds it (`ShortQueryFindsLongOccurrence`).
- Long tokens are looked up with their dashes, so only an option whose long name itself starts with `--` can be matched (`LongLookupKeepsDashes`). The help-text parser, which is not part of this model, stores long names without the dashes (CliHelpSystem/HelpTextParser.cs:288), so the options it produces are never matched by a long token.
- In the equals form the looked-up name keeps its dashes, and the value is everything after the first `=`. The `EqualFirstChar` error can never be produced, because such a token starts with `--` (`ParseInOrder`, `LongTokenInv`).
- A fresh `OptionBuilder` has no short character rather than `'\0'`. So it passes `Build`'s name check without any name. After `Reset` the short character is `'\0'`, and a long name is then required (`DefaultsAndReset`).

## Model

| member | source | states |
|---|---|---|
| ParsedResults.AddEntryToList | CliCommandLine/OptionsParser.cs:77 | appends the value to the list under the key, creating a one-element list for a new key; every other key keeps its list |
| RewindableQueues.RewindableQueue.constructor | CliCommandLine/OptionsParser.cs:39 | the queue starts at the offset over the given tokens |
| RewindableQueues.RewindableQueue.PopFront | CliCommandLine/OptionsParser.cs:47 | returns the front token with its original index and advances the cursor by one |
| RewindableQueues.RewindableQueue.Empty | CliCommandLine/OptionsParser.cs:45 | the queue is empty exactly when nothing remains |
| RewindableQueues.RewindableQueue.Remaining | CliCommandLine/OptionsParser.cs:86 | what remains and what was popped since the offset make up all the tokens from the offset on |
| RewindableQueues.PopN | CliCommandLine/RewindableQueueExtensions.cs:5-13 | given n not above what remains, returns exactly n tokens, the next ones in front-to-back order, and advances the cursor by exactly n (n = 0 changes nothing) |
| OptionsParsing.ShortNamed | CliCommandLine/OptionsParser.cs:18-19 | keeps exactly the options that have a short character |
| OptionsParsing.LongNamed | CliCommandLine/OptionsParser.cs:23-24 | keeps exactly the options with a non-empty long name |
| OptionsParserLemmas.ShortNamedKeepsOrder | CliCommandLine/OptionsParser.cs:18-20 | the filter the short numbering counts positions in keeps the options' order and repeats: filtering a concatenation concatenates the filtered parts |
| OptionsParserLemmas.ShortNamedOne | CliCommandLine/OptionsParser.cs:19 | a single option is kept exactly when it has a short character |
| OptionsParserLemmas.LongNamedKeepsOrder | CliCommandLine/OptionsParser.cs:23-25 | the filter the long numbering counts positions in keeps the options' order and repeats: filtering a concatenation concatenates the filtered parts |
| OptionsParserLemmas.LongNamedOne | CliCommandLine/OptionsParser.cs:24 | a single option is kept exactly when it has a non-empty long name |
| OptionsParsing.IndexMap | CliCommandLine/OptionsParser.cs:18-21 | maps each key to its position; succeeds exactly when no key repeats, and otherwise names a repeated key |
| OptionsParsing.NewOptionsParser | CliCommandLine/OptionsParser.cs:14-35 | fails exactly when a short character or a long name repeats (short first); otherwise numbers each short character by its position among short-named options and each long name by its position among long-named options, and the tables hold only those keys |
| OptionsParserLemmas.ShortTableComplete | CliCommandLine/OptionsParser.cs:28-30 | the short table files every option with a short character under that character, and holds nothing else |
| OptionsParserLemmas.LongTableComplete | CliCommandLine/OptionsParser.cs:32-34 | the long table files every option with a non-empty long name under that name, and holds nothing else |
| OptionsParsing.IndexOf | CliCommandLine/OptionsParser.cs:53 | the position of the first occurrence of the character, or -1 exactly when it does not occur |
| OptionsParsing.AllowedSet | CliCommandLine/OptionsParser.cs:40 | the allowed groups are those listed; no list at all allows none |
| OptionsParserLemmas.GroupGating | CliCommandLine/OptionsParser.cs:62 | a known option is usable exactly when it has no group or its group is allowed; with no list only ungrouped options are usable |
| OptionsParserLemmas.StartsWithIsPrefix | CliCommandLine/OptionsParser.cs:49 | a token starts with `--` (or, at line 96, `-`) exactly when it is that prefix followed by some rest |
| OptionsParsing.EqualsForm | CliCommandLine/OptionsParser.cs:58-78 | the equals form never adds a non-option; it records an occurrence only for a usable option of one parameter, and reports nothing exactly when the option is usable, takes one parameter and the value is non-empty |
| OptionsParsing.LongForm | CliCommandLine/OptionsParser.cs:79-94 | a long option without `=` always moves the cursor past its own token, never past the end, and leaves the numbering tables alone |
| OptionsParsing.ScanCluster | CliCommandLine/OptionsParser.cs:104-143 | the cluster scan never moves the cursor back or past the end; when it moves the cursor, it moves it by exactly the arity of the token's last character; it leaves the numbering tables alone |
| OccurrenceLemmas.ClusterUnknownChar | CliCommandLine/OptionsParser.cs:109-113 | an unknown or disallowed character is reported as not specified on its own, and the scan goes on with the next character |
| OccurrenceLemmas.ClusterLastChar | CliCommandLine/OptionsParser.cs:116-125 | the last character, when usable, is reported without popping anything when too few tokens remain, and otherwise pops exactly its arity of tokens as an occurrence not in adjoining form |
| OccurrenceLemmas.ClusterFlagChar | CliCommandLine/OptionsParser.cs:126-130 | an earlier character of arity 0 is recorded as an adjoining flag with no value, and the scan goes on |
| OccurrenceLemmas.ClusterAttachedChar | CliCommandLine/OptionsParser.cs:131-137 | an earlier character of arity 1 takes the rest of the token as its one value, and the scan of the token ends |
| OccurrenceLemmas.ClusterMultiParamChar | CliCommandLine/OptionsParser.cs:138-142 | an earlier character of arity 2 or more is reported as `AdjoiningOptionNotSingleParam`, and the scan goes on |
| OccurrenceLemmas.ClusterEnd | CliCommandLine/OptionsParser.cs:104 | once every character has been examined the scan of the token ends, with the cursor and the result as they stand |
| OccurrenceLemmas.ClusterExample | CliCommandLine/OptionsParser.cs:104-143 | with flags `a`, `b` and `x` of one parameter, `-abxval` reports `-`, records `a` and `b`, then `x` with `val`, and pops no further token |
| OptionsParsing.LongToken | CliCommandLine/OptionsParser.cs:53-94 | a token longer than `--` always moves the cursor past itself |
| OptionsParsing.StepAt | CliCommandLine/OptionsParser.cs:45-52 | each turn of the loop stops exactly on a `--` token and otherwise pops at least one token, so the loop ends |
| OptionsParsing.ParseFrom | CliCommandLine/OptionsParser.cs:45-150 | the loop from any cursor leaves the numbering tables alone |
| OptionsParsing.ParseSpec | CliCommandLine/OptionsParser.cs:37-158 | the result carries the parser's own long and short numbering tables |
| OptionsParsing.EndPos | CliCommandLine/OptionsParser.cs:45-52 | the scan ends at the end of the tokens or on a `--` token |
| OptionsParsing.Parse | CliCommandLine/OptionsParser.cs:37-160 | the imperative loop computes exactly `ParseSpec` |
| OptionsParsing.ScanClusterToken | CliCommandLine/OptionsParser.cs:104-143 | the inner loop over the characters of a cluster computes exactly `ScanCluster` |
| OptionsParsing.ParseLongToken | CliCommandLine/OptionsParser.cs:53-94 | the long-token branch of the loop computes exactly `LongToken` |
| OptionsParserLemmas.ParseWellFormed | CliCommandLine/OptionsParser.cs:37-160 | every recorded index lies between the offset and the end of the scan, so nothing after the terminating `--` is reported, and the whole result invariant holds |
| OptionsParserLemmas.ParseInOrder | CliCommandLine/OptionsParser.cs:45-149 | non-options strictly follow command-line order; illegal usages and each option's occurrences follow it; `EqualFirstChar` is never reported |
| OptionsParserLemmas.ParseNonOptions | CliCommandLine/OptionsParser.cs:96-149 | every non-option is the token at its index, a lone `-` or a token not starting with `-`, and never a token popped as a parameter |
| OptionsParserLemmas.ParseOccurrences | CliCommandLine/OptionsParser.cs:116-136 | each occurrence is filed under its own number; popped parameters are exactly the tokens after its own; an adjoining-form occurrence has at most one parameter |
| OccurrenceLemmas.ParseRecordsArity | CliCommandLine/OptionsParser.cs:58-143 | every occurrence belongs to a usable option its token names and is filed under that option's number; it carries exactly the option's arity of popped values (long form, last character of a cluster), the one value after `=` (equals form, arity 1), no value (adjoining flag) or the rest of the token (adjoining option of arity 1) |
| OccurrenceLemmas.LongLookupKeepsDashes | CliCommandLine/OptionsParser.cs:60-62 | an occurrence read from a `--` token belongs to an option whose long name starts with `--` |
| OptionsParserLemmas.IndexOfFirstEquals | CliCommandLine/OptionsParser.cs:53 | in `name=value` with no `=` in name, the first `=` is right after the name |
| OptionsParserLemmas.EqualsTokenRead | CliCommandLine/OptionsParser.cs:58-78 | `--name=value` looks up `--name` with its dashes; unknown or disallowed gives `OptionNotSpecified`, arity other than 1 gives `EqualOptionNotSingleParam`, both without an occurrence; an empty value is reported and still recorded; the cursor moves one token |
| OptionsParserLemmas.LongTokenRead | CliCommandLine/OptionsParser.cs:79-94 | a long token without `=` is reported when unknown or disallowed; when too few tokens remain it is reported and the scan continues at the very next token; otherwise it pops exactly its arity of tokens as parameters |
| OptionsParserLemmas.NonOptionTokenRead | CliCommandLine/OptionsParser.cs:96-149 | a lone `-` or a token not starting with `-` is recorded as a non-option with its own text and index, and the scan continues at the very next token |
| OptionsParserLemmas.ClusterTokenRead | CliCommandLine/OptionsParser.cs:96-104 | any other token starting with a single `-` is scanned as a cluster from its first character, with the cursor just past it |
| OptionsParserLemmas.ScanClusterKeepsIllegal | CliCommandLine/OptionsParser.cs:104-143 | the cluster scan only appends illegal usages |
| OptionsParserLemmas.ClusterLooksUpLeadingDash | CliCommandLine/OptionsParser.cs:104-113 | a cluster's leading dash is looked up as a short option and, unless `-` is one, reported first as not specified |
| OptionsParserLemmas.DoubleDashEndsScan | CliCommandLine/OptionsParser.cs:49-52 | a `--` token ends the scan with nothing more recorded |
| OptionsParserLemmas.ScanClusterInv | CliCommandLine/OptionsParser.cs:104-143 | the cluster scan keeps the result invariant (each character, flag, adjoining value and popped parameters) |
| OptionsParserLemmas.LongTokenInv | CliCommandLine/OptionsParser.cs:53-94 | the long-token branch keeps the result invariant |
| OptionsParserLemmas.StepInv | CliCommandLine/OptionsParser.cs:45-149 | each turn of the loop keeps the result invariant |
| OptionsProcessing.NewOptionsProcessor | CliCommandLine/OptionsProcessor.cs:13-18 | the queries read the result's occurrences and its two numbering tables, unchanged |
| OptionsProcessing.OptionsProcessor.ResolveLong | CliCommandLine/OptionsProcessor.cs:22-23 | a string resolves only through the long-name table |
| OptionsProcessing.OptionsProcessor.ResolveShort | CliCommandLine/OptionsProcessor.cs:24-25 | a character resolves only through the short-name table |
| OptionsProcessing.OptionsProcessor.TryResolveIndex | CliCommandLine/OptionsProcessor.cs:20-29 | a long name resolves as a string, a short one as a character |
| OptionsProcessing.OptionsProcessor.IsOptionPresent | CliCommandLine/OptionsProcessor.cs:31-34 | true exactly when the name resolves and its occurrence list exists and is non-empty |
| OptionsProcessing.OptionsProcessor.TryGetParam | CliCommandLine/OptionsProcessor.cs:36-49 | a value exactly when the name resolves, the occurrence at the offset exists and has a parameter; the value is its first parameter |
| OptionsProcessing.OptionsProcessor.TryGetParams | CliCommandLine/OptionsProcessor.cs:51-60 | true exactly when the name resolves and the occurrence at the offset exists, with that occurrence's parameters; otherwise false with no values |
| OptionsProcessing.OptionsProcessor.TryGetAllParams | CliCommandLine/OptionsProcessor.cs:62-71 | true exactly when the resolved number has an entry, with as many values as all its occurrences' parameters; otherwise false with no values |
| OptionsProcessing.AllParams | CliCommandLine/OptionsProcessor.cs:67 | the concatenation has the total number of parameters |
| OptionsProcessing.AllParamsSlice | CliCommandLine/OptionsProcessor.cs:67 | the parameters of each occurrence sit in the concatenation right after those of the earlier occurrences |
| OptionsProcessing.ParamIsFirstOfParams | CliCommandLine/OptionsProcessor.cs:36-60 | `TryGetParam` succeeds exactly when `TryGetParams` does with at least one value, and gives its first |
| OptionsProcessing.ParamsWithinAllParams | CliCommandLine/OptionsProcessor.cs:51-71 | `TryGetParams` at an offset gives a contiguous part of `TryGetAllParams`, after the earlier occurrences' parameters |
| OptionsProcessing.AllParamsFoundIffPresent | CliCommandLine/OptionsProcessor.cs:31-71 | with no empty occurrence list, `TryGetAllParams` succeeds exactly when the option is present |
| QueriesOnParseResults.ResolutionFollowsNumbering | CliCommandLine/OptionsProcessor.cs:13-29 | on a parse result, a character resolves to i exactly when it is the i-th short character, a long name exactly when it is the i-th long name |
| QueriesOnParseResults.ParsedAllParamsIffPresent | CliCommandLine/OptionsProcessor.cs:31-71 | on a parse result, `TryGetAllParams` succeeds exactly when the option is present |
| QueriesOnParseResults.ExampleNumbering | CliCommandLine/OptionsParser.cs:18-26 | an option with only `-a` and one with only `--b` both get number 0 |
| QueriesOnParseResults.ShortQueryFindsLongOccurrence | CliCommandLine/OptionsParser.cs:18-26 | after parsing `--b` alone, the query for `a` reports the option present |
| OptionBuilding.OptionBuilder.constructor | HelpParser/OptionBuilder.cs:7-13 | no names, at most one occurrence, no parameters, no group, no description |
| OptionBuilding.OptionBuilder.WithShortOption | HelpParser/OptionBuilder.cs:15-19 | sets the short character only and returns the same builder |
| OptionBuilding.OptionBuilder.WithLongOption | HelpParser/OptionBuilder.cs:21-25 | sets the long name only and returns the same builder |
| OptionBuilding.OptionBuilder.WithMaxOccurs | HelpParser/OptionBuilder.cs:27-31 | sets the occurrence bound only and returns the same builder |
| OptionBuilding.OptionBuilder.WithNumberOfParams | HelpParser/OptionBuilder.cs:33-37 | sets the parameter count only and returns the same builder |
| OptionBuilding.OptionBuilder.WithGroup | HelpParser/OptionBuilder.cs:39-43 | sets the group only and returns the same builder |
| OptionBuilding.OptionBuilder.WithDescription | HelpParser/OptionBuilder.cs:45-49 | sets the description only and returns the same builder |
| OptionBuilding.OptionBuilder.WithParameter | HelpParser/OptionBuilder.cs:51-55 | appends one parameter after the earlier ones and changes nothing else |
| OptionBuilding.Validate | HelpParser/OptionBuilder.cs:59-66 | the name check comes first, then the occurrence bound, then the parameter count; no error exactly when all three pass |
| OptionBuilding.OptionBuilder.Build | HelpParser/OptionBuilder.cs:57-69 | fails with the first failing check; otherwise passes every field through unchanged |
| OptionBuilding.OptionBuilder.Reset | HelpParser/OptionBuilder.cs:71-79 | short character `'\0'`, no long name, bound 1, parameter count 0, no group; description and parameters kept |
| OptionBuilding.DefaultsAndReset | HelpParser/OptionBuilder.cs:59-60 | a fresh builder passes every check without a name; after a reset, the name check fails unless a long name has a non-space character |
| OptionBuilding.NamedOptionsPassNameCheck | HelpParser/OptionBuilder.cs:59-60 | any short character other than `'\0'`, or a long name with a non-space character, passes the name check |

## Left out

- The parameter list of an option is never null. `ParameterCount` is its length, and the `?.` null cases of CliCommandLine/OptionsParser.cs:67,86 are not modelled.
- Negative values are not modelled. This covers `Parse`'s offset, the `n` of `PopN` and the offsets of `TryGetParam` and `TryGetParams`. All are natural numbers here. In the source a negative `n` makes `PopN` throw at `new List<string>(n)` (CliCommandLine/RewindableQueueExtensions.cs:7), though every caller passes a count of zero or more (CliCommandLine/OptionsParser.cs:92,123); a negative offset to `TryGetParam` or `TryGetParams` fails when the name does not resolve or has no entry and otherwise indexes the list out of range, and `Parse`'s offset goes to the queue class, which is not part of this model.
- `RewindableQueue` is not part of this model beyond its use: a cursor over the token array from the offset, with `Empty`, `Remaining` and `PopFront`. Its rewinding is never used by the parser and is not modelled. RewindableQueues.RewindableQueue.constructor requires the offset to be within the tokens.
- Construction failure is a `Result` rather than the exception `ToImmutableDictionary` throws on a repeated key.
- `DictUtils` is not part of this model; `AddEntryToList` is modelled from its use.
- `TryResolveIndex` with a name that is neither a string nor a character (the `-1` case) cannot be expressed: `Name` has only those two forms.
- OptionBuilding.OptionBuilder.Build: the built option shares the builder's parameter list in the source, so a later `WithParameter` also changes an option built earlier. Here the list is copied by value, and that aliasing is not captured.
- `Build`'s exceptions are `Failure` values. The built option is the seven-field record of the call at HelpParser/OptionBuilder.cs:68. HelpParser/Option.cs's five-argument constructor does not match that call and is not modelled.
- The help-text parser (CliHelpSystem/HelpTextParser.cs, HelpParser/P.cs), which rests on .NET regular expressions, is out of scope. So are the reflection-based command registry, the console entry points and dispatch, and the asynchronous command handlers.
- Concurrent use of a parse result is out of scope.
- Strings are sequences of characters compared ordinally. In the source, `StartsWith("--")` and `StartsWith("-")` (CliCommandLine/OptionsParser.cs:49,96) compare by the current culture, so a token such as `-` followed by a soft hyphen and `-x` can count as long there and as a cluster here. The source also counts UTF-16 code units in `Length` and `arg[i]`, so a character outside the Basic Multilingual Plane in a cluster is looked up as two halves there and as one character here.
- OptionsProcessing.OptionsProcessor.TryGetParams: the source hands out the stored parameter list itself (CliCommandLine/OptionsProcessor.cs:56), so a caller that changes it changes what later queries see. Here the values are returned by value, and that aliasing is not captured.
