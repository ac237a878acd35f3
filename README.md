# TuinBot command grammar engine, in Dafny

This project models the command grammar engine of TuinBot, a Discord bot written in Python
(the `src/core` revision). A command declares one or more *syntaxes*, each an ordered list of
typed parameters. Given the tokens the user typed, the engine produces exactly one outcome:

- the help text;
- the "unexpected number of parameters" error;
- the error of a parameter;
- a call of the matching syntax's callback with its parameter executors;
- the fallback error.

The model covers these parts:

- **Parameter executors** (`Executor`): one per token, a two-stage state machine. A format check
  decides whether the syntax can apply at all; a value check then settles VALID or INVALID with
  an error message. The five executor classes (user, emoji, fixed value, integer, text) are one
  Dafny class told apart by its `kind`.
- **Executor factory** (`ExecutorFactory`): the constant map from parameter type to executor class.
- **Parameters and configs** (`Params`): `ParamType`, `IntParamConfig` with its optional bounds,
  `ParamConfig.validate`, `CommandParam`.
- **Syntaxes** (`Syntax`): `CommandSyntax` with its memoised "every parameter always accepts
  the format" flag.
- **Dispatcher** (`Command`, `CommandFacts`): `BaseCommand.execute`. It caches the syntaxes and
  their count bounds, and sorts the candidates with `multisort`. It skips candidates of the wrong
  length and shares one executor per (position, parameter name). It tells a format reject (try the
  next syntax) from a definitive error (stop and reply). `Dispatch` states the whole run as a
  function, and `Command.Execute` is proved equal to it.
- **Startup validator** (`Validator`) and **command registry** (`Repository`). The validator
  finds unreachable syntaxes and config/executor type mismatches. The registry validates commands
  before storing them and builds the table of hooked commands.
- **Helpers**:
  - the stable multi-key sort `Utils.multisort` (`Utils`), proved on an array;
  - the fuzzy `find_user` ranking, the custom-emoji reference parser and the link regex helpers
    (`ParsingUtils`);
  - the Markdown escaping of user names (`Sanitizer`).

The outside world is handled as follows:

- **Oracles in a `Context` value.** These are things an executor consults:
  - whether the message came from a text channel;
  - the channel's members;
  - `unidecode(s.lower())`;
  - the `emoji` library's first Unicode emoji of a text;
  - the ids of the client's custom emojis;
  - Python's `int()`.
- **Callbacks** are numbered.
- **Replies** are the `Outcome` value and its `ReplyOf` text.
- **Python's values:**
  - `find_user` ratios `len(query) / len(name)` are exact rationals (`real`). Comparing them is
    the same as cross-multiplying the integer lengths.
  - Python's `sort(reverse=True)` is stable. It is modelled as a stable ascending sort on the
    negated key.
  - The sort key of a boolean attribute orders `False` before `True`.

Where the prose description and the code differ, the model follows the code. The candidate sort
puts the syntaxes with *more* parameters first (`("param_count", True)` at
src/core/command/base.py:109), not the shorter ones.

## Model

| member | source | states |
|---|---|---|
| Utils.Compare | src/core/utils/utils.py:8-13 | the lexicographic comparison by the specs in priority order is -1, 0 or 1 |
| Utils.CompareAntisymmetric | src/core/utils/utils.py:9-12 | swapping the two elements negates the comparison |
| Utils.CompareTransitive | src/core/utils/utils.py:9-12 | the comparison is transitive, and a tie with the outer pair is a tie with the middle element |
| Utils.PrecedesTransitive | src/core/utils/utils.py:9-12 | "sorts strictly before", original index breaking ties, is transitive |
| Utils.PrecedesStep | src/core/utils/utils.py:9-12 | a smaller oriented key on the first spec sorts first; equal keys defer to the later specs |
| Utils.SortPass | src/core/utils/utils.py:12 | one stable `list.sort` pass in place: the array is rearranged (same multiset of positions, every slot tracks its original element) and is in the stable order of `specs[m..]`, given it was in the order of `specs[m+1..]` |
| Utils.Multisort | src/core/utils/utils.py:8-13 | `multisort` sorts the array in place and returns that same array; the result is a permutation of the input, ordered lexicographically by the specs with each key ascending or descending per its flag, and stable for elements equal on all keys |
| Utils.PermutationCovers | src/core/utils/utils.py:8-13 | every original index occurs in the rearrangement, so every input element is in the output |
| Sanitizer.UserName | src/core/utils/sanitizer.py:5-9 | the output is as long as the input plus its number of special characters `> \` * _ - ~ \|`, and never starts with an unescaped special character |
| Sanitizer.UnescapeUserName | src/core/utils/sanitizer.py:8-9 | deleting the inserted backslashes gives back the input: the escaping only inserts |
| Sanitizer.UserNameEscapesSpecials | src/core/utils/sanitizer.py:5-9 | every special character of the output has a backslash right before it |
| Sanitizer.UserNameSpecialQuotes | src/core/utils/sanitizer.py:12-16 | same length; every backtick becomes an apostrophe and every other character is kept |
| Sanitizer.SpecialQuotesIdempotent | src/core/utils/sanitizer.py:12-16 | the result has no backtick and applying it again changes nothing |
| Params.ParamTypesAreFive | src/core/param/params.py:7-12 | `ParamType` has exactly the five members |
| Params.NewIntParamConfig | src/core/param/params.py:60-66 | the constructor fails with "One of both parameters must be set!" exactly when both bounds are missing, and otherwise keeps both bounds |
| Params.RangeCheckAsWritten | src/core/param/params.py:81-82 | the chained comparison with both bounds is the range test; it raises a TypeError exactly when a compared bound is `None` (only the minimum when the value is below it) |
| Params.RangeCheckAgrees | src/core/param/params.py:81-82 | whenever the written check answers, it answers the intended range test; with both bounds set it always answers |
| Params.RangeCheckMinOnlyRaises | src/core/param/params.py:60-66 | a minimum-only config accepted by the constructor raises on 5, which it should accept |
| Params.Validate | src/core/param/params.py:23-34 | `validate` raises the type error exactly when the value is not an instance of the config's type, and otherwise answers the config's rule |
| Params.ValidateIntRange | src/core/param/params.py:23-34 | an integer range config accepts exactly the integers between its bounds and raises on other values |
| Params.FirstIntConfig | src/core/param/params.py:85-91 | none exactly when no config is an integer range; otherwise the first integer range among the configs |
| Params.NatToString | src/core/param/params.py:68-75 | decimal text of a natural: non-empty, digits only |
| Params.NatToStringRoundTrip | src/core/param/params.py:68-75 | the decimal text reads back as the number |
| Params.IntToStringRoundTrip | src/core/param/params.py:68-75 | `str(i)` of an integer reads back as the integer, sign included |
| Params.DefinitionAsWrittenMaxOnly | src/core/param/params.py:73-74 | as written, a maximum-only config of 5 reads "maximum None" |
| Params.DefinitionNamesBound | src/core/param/params.py:68-75 | the intended definition names the config's own bound in each one-bound case; it is empty exactly when no bound is set; it differs from the written one exactly in the maximum-only case |
| ParsingUtils.SubstringIsNoLonger | src/core/utils/parsing_utils.py:47-60 | a name containing the query is at least as long as it, so a kept ratio is at most 1 |
| ParsingUtils.BestIndex | src/core/utils/parsing_utils.py:34-77 | the chosen match sorts strictly before every other one by the sort rule, original order breaking ties |
| ParsingUtils.StableSortedFirst | src/core/utils/parsing_utils.py:74-77 | the head of the stable sort of the matches is the best match |
| ParsingUtils.CompareUser | src/core/utils/parsing_utils.py:38-66 | one pass of the search loop agrees with the reference `MatchUser`: bots give nothing, an empty folded name raises the division error, and of the two name matches the one that sorts first is kept |
| ParsingUtils.SortedFirst | src/core/utils/parsing_utils.py:66 | the first element after `multisort` is the match that sorts before every other one |
| ParsingUtils.FindUser | src/core/utils/parsing_utils.py:23-79 | the search loop (bots skipped, the better of the two name matches kept, early return on a full match, final stable ranking) returns the reference search's answer |
| ParsingUtils.ScanFoundContains | src/core/utils/parsing_utils.py:37-72 | every user the scan can return is a non-bot whose folded display name or account name contains the query |
| ParsingUtils.FindUserFoundMatches | src/core/utils/parsing_utils.py:28-60 | `find_user` never returns a bot, and the user it returns has a folded name containing the folded query |
| ParsingUtils.ScanNotFound | src/core/utils/parsing_utils.py:37-79 | the scan finds nobody exactly when nothing was collected and no later user matches |
| ParsingUtils.FindUserNotFound | src/core/utils/parsing_utils.py:76-79 | `find_user` returns `None` exactly when no user matches |
| ParsingUtils.ScanExact | src/core/utils/parsing_utils.py:68-70 | the first user whose kept match has ratio 1 is returned, and the users after it are not looked at |
| ParsingUtils.ScanExactPrefix | src/core/utils/parsing_utils.py:68-70 | the first full match is returned whatever was collected before it |
| ParsingUtils.ScanRanks | src/core/utils/parsing_utils.py:37-74 | without an error or a full match, the scan reaches the end of the members holding every kept match, in list order |
| ParsingUtils.FindUserRanks | src/core/utils/parsing_utils.py:34-77 | without a full match, `find_user` returns the match that sorts before every other: display name first, then starts-with, then higher ratio, then list order |
| ParsingUtils.ExactRatio | src/core/utils/parsing_utils.py:50-69 | a kept match has ratio 1 exactly when the query is as long as the matched name |
| ParsingUtils.DisplayNameWins | src/core/utils/parsing_utils.py:62-66 | when both names of a user contain the query, the display-name match is kept |
| ParsingUtils.IndexOf | src/core/utils/parsing_utils.py:20 | a position from the start on that holds the character, or the end of the text |
| ParsingUtils.IndexOfIsFirst | src/core/utils/parsing_utils.py:20 | no position before the one found holds the character, so the `[^:]+` name stops at the first colon |
| ParsingUtils.IndexOfAt | src/core/utils/parsing_utils.py:20 | a colon with no colon before it is the one found |
| ParsingUtils.DigitRun | src/core/utils/parsing_utils.py:20 | the run stays inside the text and stops at a non-digit or at the end |
| ParsingUtils.DigitRunDigits | src/core/utils/parsing_utils.py:20 | every character of the run is a digit, so with the stop condition the `\d+` run is the longest one |
| ParsingUtils.CustomEmojiDigits | src/core/utils/parsing_utils.py:20 | a text starting with `<:name:digits>`, a colon-free non-empty name and a non-empty digit string, is recognised whatever follows, with the digits' value as the id |
| ParsingUtils.CustomEmojiRoundTrip | src/core/utils/parsing_utils.py:20 | a well-formed `<:name:id>` reference at the start of a text is recognised whatever follows and gives back the reference and its id |
| ParsingUtils.GetCustomEmoji | src/core/utils/parsing_utils.py:106-114 | the search loop returns the reference exactly when the text starts with one whose id is among the client's emojis |
| ParsingUtils.NonSpaceRun | src/core/utils/parsing_utils.py:19 | the run stays inside the text and stops at whitespace or at the end |
| ParsingUtils.NonSpaceRunChars | src/core/utils/parsing_utils.py:19 | no character of the run is whitespace, so with the stop condition the `\S+` run is the longest one |
| ParsingUtils.SchemeAt | src/core/utils/parsing_utils.py:19 | the length of "http://" (7) or "https://" (8) at a position, or 0 |
| ParsingUtils.LinkAt | src/core/utils/parsing_utils.py:19 | the length of the link match at a position, within the text |
| ParsingUtils.SplitFrom | src/core/utils/parsing_utils.py:118-119 | splitting the text into gaps and links gives one more gap than links |
| ParsingUtils.UniqueLinkShape | src/core/utils/parsing_utils.py:127-129 | `is_unique_link` holds exactly when the whole text is "http://" or "https://" followed by at least one non-whitespace character |
| ParsingUtils.SplitRebuilds | src/core/utils/parsing_utils.py:118-119 | weaving the gaps and the links back together gives the text |
| ParsingUtils.SplitLinksAreLinks | src/core/utils/parsing_utils.py:118 | every extracted piece is itself a unique link |
| ParsingUtils.LinkAtIsUnique | src/core/utils/parsing_utils.py:127-129 | a match found inside a text is a unique link on its own |
| ParsingUtils.ExtractLinksSplitsText | src/core/utils/parsing_utils.py:117-125 | the links are the left-to-right non-overlapping matches: the text is the gaps woven with the links, the message is the text with exactly those links removed, and `format_links` puts each link between two line breaks in the same place |
| ParsingUtils.LinkEndsRun | src/core/utils/parsing_utils.py:19 | a match found inside a text ends at whitespace or at the end of the text, so `\S+` cannot be extended |
| ParsingUtils.SplitFromGreedy | src/core/utils/parsing_utils.py:118 | from any position, the links of the split are, one for one, the whole matches at the start positions of the left-to-right scan, each ending at whitespace or at the end of the text |
| ParsingUtils.LinkSpansDisjoint | src/core/utils/parsing_utils.py:118 | the start positions of the scan increase and each match ends before the next one starts |
| ParsingUtils.LinkSpansComplete | src/core/utils/parsing_utils.py:118 | every position from the scan's start where the pattern matches lies inside one of the scanned matches |
| ParsingUtils.ExtractLinksFindsAll | src/core/utils/parsing_utils.py:117-121 | `findall` misses no link: the k-th link is the whole greedy match at the k-th start position, ending at whitespace or at the end of the text; the matches do not overlap; every position where the pattern matches lies inside one of them |
| ParsingUtils.ExtractUniqueLink | src/core/utils/parsing_utils.py:117-129 | a unique link extracts to an empty message and itself as the only link |
| Executor.ParamExecutor.constructor | src/core/executor/base.py:16-20 | a new executor is INVALID, its format flag false, no error, no value |
| Executor.ParamExecutor.SetError | src/core/executor/base.py:58-60 | records the error, changes nothing else, answers false |
| Executor.ParamExecutor.ValidateInputFormat | src/core/executor/executors.py:20-125 | each kind's format check; the integer executor stores the parsed value when the token parses |
| Executor.ParamExecutor.ProcessParam | src/core/executor/executors.py:23-129 | each kind's value check leaves the state and raises what the reference `Process` says |
| Executor.ParamExecutor.SetValue | src/core/executor/base.py:22-29 | the new state and the exception are those of the reference `Evaluate`: a format reject changes nothing; otherwise the format flag is set and the result is VALID when processing succeeds |
| Executor.FormatRejectChangesNothing | src/core/executor/base.py:23-24 | a format reject leaves the executor exactly as it was and raises nothing |
| Executor.ValidIffFormatAndProcess | src/core/executor/base.py:22-29 | from a fresh executor: the format flag is set exactly when the format passed; VALID exactly when the format passed and processing returned true; so VALID implies the format flag |
| Executor.ProcessKeepsFlags | src/core/executor/executors.py:23-129 | processing never changes the result or the format flag |
| Executor.AlwaysAcceptingAcceptsAll | src/core/executor/executors.py:16-125 | the always-accepting kinds are exactly user, emoji and text, and they accept every token; a fixed value rejects some token |
| Executor.FixedValueMatchesName | src/core/executor/executors.py:68-81 | format-valid exactly when the token is the parameter's name, and then VALID |
| Executor.IntChecksRange | src/core/executor/executors.py:94-108 | format-valid exactly when `int()` parses, with the value stored; without an integer config it raises "Config not found!"; with one it is VALID exactly when the value is in range, else "Valeur invalide." |
| Executor.UserLooksUp | src/core/executor/executors.py:23-37 | outside a text channel: INVALID with no error; under three characters: the length error; otherwise VALID exactly when `find_user` finds someone, who is stored, "Utilisateur introuvable." when nobody is found, and a raise exactly on the division by zero |
| Executor.EmojiLooksUp | src/core/executor/executors.py:56-62 | VALID exactly when `get_emoji` finds an emoji, which is stored; otherwise "Emoji invalide." |
| Executor.TextKeepsToken | src/core/executor/executors.py:127-129 | always VALID and the token is kept unchanged |
| Executor.IntProcessAsWrittenRaises | src/core/executor/executors.py:102 | as written the check raises for a parameter with the range 1..10 and the value 5, which the corrected executor finds VALID |
| Executor.IntCompareAsWrittenRaises | src/core/executor/executors.py:105 | the chained comparison raises a TypeError for the minimum-only config 1, which the constructor accepts, and the value 5, which the corrected executor finds VALID |
| ExecutorFactory.GetExecutorClass | src/core/executor/factory.py:18-23 | raises "No param executor for this type!" exactly when the type is not mapped |
| ExecutorFactory.EveryTypeHasOneExecutor | src/core/executor/factory.py:10-31 | the map is total on the five types and one-to-one; `has_executor` holds exactly when `get_executor_class` does not raise |
| ExecutorFactory.KindFor | src/core/executor/factory.py:10-23 | the class `get_executor_class` returns for a type |
| ExecutorFactory.GetExecutor | src/core/executor/factory.py:25-27 | fails exactly when the type has no executor; otherwise a new executor of the mapped class, bound to the parameter, in the fresh state |
| Syntax.AlwaysAcceptingTypes | src/core/param/syntax.py:26-36 | a syntax always accepts exactly when all its parameters are user, emoji or text; an empty syntax always accepts |
| Syntax.CommandSyntax.constructor | src/core/param/syntax.py:15-20 | title, callback and parameters as given; the flag's cache is empty |
| Syntax.CommandSyntax.AlwaysValidateInputFormat | src/core/param/syntax.py:26-36 | the flag is false as soon as one parameter's executor class does not always accept; it is computed once, cached, and the cached value returned afterwards |
| Validator.CompatibilityIsCoverage | src/core/param/validator.py:36-67 | with at least one type a union, a config is rejected exactly when it does not cover the executor's types (a union executor against a single config type always fails); equal types and two single types pass |
| Validator.ValidateParams | src/core/param/validator.py:19-67 | the parameter loop raises what the reference check says: a missing executor, else the first incompatible config |
| Validator.ValidateSyntaxes | src/core/param/validator.py:11-67 | the syntax loop raises what the reference check says, growing the set of claimed counts only for always-accepting syntaxes |
| Validator.CheckFromDuplicates | src/core/param/validator.py:12-17 | with well-typed parameters, the check from a position fails exactly when a later syntax duplicates a claimed count, and then with "will never execute" |
| Validator.RejectsExactlyDuplicates | src/core/param/validator.py:12-17 | with well-typed parameters, the validator raises exactly when two always-accepting syntaxes share a parameter count, and only "will never execute" |
| Validator.CheckReachesDuplicate | src/core/param/validator.py:12-17 | nothing is raised before the first duplicate, and it is raised there |
| Validator.RaisesAtSecond | src/core/param/validator.py:12-17 | the raise happens at the second syntax of the first clashing pair: the prefix ending there already fails |
| Validator.NoConfigsWellTyped | src/core/param/validator.py:19-31 | parameters without configs raise nothing |
| Validator.ReacSyntaxesValid | src/application/command/reac_command.py:36-55 | the reaction command's four syntaxes pass the validator |
| Validator.ReadingDeclaredParams | src/core/param/validator.py:19-35 | when the type lookup finds each executor class's declared type, the written parameter loop is the intended parameter check |
| Validator.ReadingDeclaredIsCheck | src/core/param/validator.py:11-35 | when the type lookup finds each executor class's declared type, the written validator is the intended check |
| Validator.ParamsAsWrittenRaise | src/core/param/validator.py:22-29 | as written, the first parameter checked raises the `AttributeError` of its executor class, since every type has an executor and no executor class has a generic base |
| Validator.ValidateAsWrittenPasses | src/core/param/validator.py:11-29 | as written, a syntax list passes exactly when it is empty or is one syntax without parameters |
| Validator.ReacSyntaxesAsWrittenRaise | src/core/param/validator.py:29 | the reaction command's syntaxes pass the intended check, but as written the validator raises at their first parameter, a user parameter |
| Validator.UserAndTextClash | src/application/param/app_params.py:7-10 | a one-parameter user syntax and a one-parameter text syntax clash: the second could never run |
| Command.ReplyOf | src/core/command/base.py:27-120 | an outcome sends an error reply exactly when it is the count error, a parameter error or the fallback error |
| Command.ErrorWithoutMessage | src/core/command/base.py:69-73 | a parameter error without a message replies with text that starts with "None" |
| Command.MinFromIsMinimum | src/core/command/base.py:93-98 | the running minimum is at most every later count and the start value, and is one of them |
| Command.MaxFromIsMaximum | src/core/command/base.py:94-101 | the running maximum is at least every later count and the start value, and is one of them |
| Command.BoundsAreExtremes | src/core/command/base.py:88-103 | with at least one syntax, the cached bounds are the smallest and the largest parameter count of a declared syntax |
| Command.CandidateOrder | src/core/command/base.py:105-111 | in the sorted candidates, syntaxes that may reject a format come before the always-accepting ones, then more parameters first, then declaration order |
| Command.FetchExecutor | src/core/command/base.py:52-60 | the lookup-or-create step agrees with the reference `FetchSlot`: a stored executor is reused; a new one is created, stored and given the token; earlier executors are kept |
| Command.TryParam | src/core/command/base.py:51-76 | one pass of the parameter loop: either the syntax ends as the reference `RunParams` says, or the reference goes on at the next parameter with the executor's state appended |
| Command.TrySyntax | src/core/command/base.py:46-80 | the parameter loop of one syntax agrees with the reference `RunParams` and keeps the executor store in step with it |
| Command.Command.constructor | src/core/command/base.py:20-23 | the class caches start empty |
| Command.Command.GetSyntaxes | src/core/command/base.py:88-103 | builds the syntaxes once and caches the smallest and largest parameter count |
| Command.WarmCaches | src/core/command/base.py:109 | after the sort key has been read for every syntax, each one's memoised flag holds whether all its parameters always accept |
| Command.Command.GetSortedSyntaxes | src/core/command/base.py:105-111 | a sorted copy, made once, that is a stable sort of the declared syntaxes by (always-accepting ascending, parameter count descending); the declared list is untouched |
| Command.Command.Execute | src/core/command/base.py:26-86 | the outcome and the executors created are those of the reference `Dispatch` over the sorted candidates |
| CommandFacts.FetchKeeps | src/core/command/base.py:52-60 | the lookup-or-create step keeps every stored executor faithful to its token and only adds |
| CommandFacts.FetchStores | src/core/command/base.py:55-60 | the executor handed back is the one stored under (position, name) |
| CommandFacts.RunParamsKeeps | src/core/command/base.py:40-76 | one syntax's attempt keeps every stored executor as created from its own token, and only adds |
| CommandFacts.RunParamsExtends | src/core/command/base.py:40-76 | one syntax's attempt only adds executors |
| CommandFacts.RunParamsAccepted | src/core/command/base.py:51-80 | an accepted syntax hands the callback one stored, VALID, not format-rejected executor per parameter, in parameter order |
| CommandFacts.RunParamsStops | src/core/command/base.py:64-74 | a rejected syntax holds a stored format-rejecting executor; a stop is a raise or the error of a definitively INVALID stored executor |
| CommandFacts.RunSyntaxesExtends | src/core/command/base.py:52-60 | trying the candidates keeps every executor already stored, as it was |
| CommandFacts.RunSyntaxesKeeps | src/core/command/base.py:52-58 | every stored executor stays under its position and parameter name, of the mapped class, given its own token once |
| CommandFacts.RunSyntaxesInvokes | src/core/command/base.py:42-86 | the outcome is a callback, a parameter error, a raised exception or the fallback; a callback belongs to a candidate with as many parameters as tokens and gets that candidate's VALID executors in order |
| CommandFacts.RunSyntaxesErrors | src/core/command/base.py:64-86 | a parameter error carries the error of a stored executor that passed the format stage but is INVALID; the fallback after a tried candidate comes with a stored format reject |
| CommandFacts.RunSyntaxesFacts | src/core/command/base.py:42-86 | trying the candidates never gives the help or the count error; a callback only for a candidate with as many parameters as tokens, with VALID executors in order; a parameter error from a definitively INVALID executor; the fallback after a tried candidate only with a format reject |
| CommandFacts.FormatRejectTriesNext | src/core/command/base.py:64-83 | a format reject sends no reply of its own and moves on to the next candidate |
| CommandFacts.NoCandidateFallsBack | src/core/command/base.py:42-86 | with no candidate of the token count, the fallback error and no executor |
| CommandFacts.HelpExactly | src/core/command/base.py:27-29 | the help is shown exactly when there is no token or no syntax |
| CommandFacts.ArgCountExactly | src/core/command/base.py:33-35 | the count error exactly when the token count is below every syntax's count or above every one; no executor is created |
| CommandFacts.DispatchFacts | src/core/command/base.py:42-86 | every executor created is faithful to its token; a callback runs only for a candidate of the right length and only with VALID executors; a parameter error is the error of a definitively INVALID executor |
| CommandFacts.GapFallsBack | src/core/command/base.py:33-86 | a count inside the bounds that no syntax has reaches the fallback error without creating an executor |
| Repository.HookedOfMembers | src/core/command/repository.py:21-26 | the grouped list holds exactly the commands with a hook of that type |
| Repository.HookedOfAppend | src/core/command/repository.py:22-26 | grouping distributes over concatenation, so list order is kept |
| Repository.HookTable | src/core/command/repository.py:19-26 | the table has a key exactly for each hook type some command has, mapped to those commands in list order |
| Repository.TableStep | src/core/command/repository.py:23-26 | appending one command to the table built from a prefix gives the table of the longer prefix |
| Repository.HooksForTable | src/core/command/repository.py:28-31 | the answer for a type is its hooked commands in list order, and an empty list for a type no command has |
| Repository.CheckCommandsCoversAll | src/core/command/repository.py:34-36 | the list passes exactly when every command's syntaxes pass |
| Repository.SetCommandListAsWrittenRejects | src/core/command/repository.py:14-36 | as written, any non-empty command list raises and is never stored |
| Repository.CommandRepository.constructor | src/core/command/repository.py:8-11 | an empty list and no hook table |
| Repository.CommandRepository.SetCommandList | src/core/command/repository.py:14-36 | every command's syntaxes are validated in list order; the list is stored exactly when none fails, else left as it was; the hook table is untouched |
| Repository.CommandRepository.GetHooks | src/core/command/repository.py:18-31 | the table is built from the stored list on the first call and reused afterwards; the answer is the hooked commands of the type in list order |

## Left out

- I/O: Discord replies, message deletion, embeds, the help text, `asyncio` tasks, the hook
  execution and the console `print` of a parameter's name after a format reject
  (src/core/command/base.py:83) are not modelled. `Outcome` and `Command.ReplyOf` stand for what would be sent.
- Callbacks are application code. An invoked callback is identified by a number, and the model
  stops at the call.
- Oracles: the `emoji` library, `unidecode`, `str.lower`, Python's `int()`, the channel-type
  check and the member list are inputs in `Executor.Context`. The model does not restate what
  they compute.
- Validator.ProducedType: the validator reads executor and config value types by runtime
  reflection. As written, the read fails for every executor class (see Findings). The intended
  check uses a declared type per executor class (`Validator.ProducedType`) and per config
  (`Params.ConfigValueType`); the reflection itself is not part of this model.
- Validator.ReacSyntaxesValid: the syntaxes pass the intended check. As written, the validator
  raises at their first parameter (`Validator.ReacSyntaxesAsWrittenRaise`).
- Executor.IntChecksRange: states the intended range test, where a missing bound does not
  restrict the value. As written, the chained comparison raises a TypeError on a one-bound
  config (see Findings).
- Executor.ParamExecutor.ProcessParam: the integer case uses the same intended range test as
  `Executor.IntChecksRange`.
- Params.Validate: the type error's message is a fixed text. The source formats the config's
  class name and the checked type into it (src/core/param/params.py:31-32).
- Params.ValidateIntRange: the same fixed message as `Params.Validate`.
- `ParsingUtils.DigitRun`: `\d` in the emoji pattern is read as the ASCII digits. Python's
  Unicode digits are not modelled.
- `ParsingUtils.FindUser` ranks ratios as exact rationals. Python floats could round two
  different ratios to the same value; that rounding is not modelled.
- The hook table is not rebuilt when `set_command_list` runs after `get_hooks`.
  `Repository.CommandRepository.GetHooks` then answers from the list the table was built from
  (the ghost `hookedFrom`), as the source does.
- `CommandSyntax.param_count` is the plain function `Syntax.CommandSyntax.ParamCount`, with no
  contract of its own.
- Repository.SetCommandListAsWrittenRejects: before the TypeError, the first command's
  `get_syntaxes()` runs and fills that command's caches. The as-written model shows only the
  raise and the stored list left as it was.
- Command classes keep their caches in class attributes. Here each `Command.Command` object
  plays one command class.
- `description_details`, `hook_can_delete_message` and the message hooks of the command types
  are not part of this model.

## Findings

| source | as written | input that shows it | evidently intended | confidence | as-written member | corrected member |
|---|---|---|---|---|---|---|
| src/core/param/params.py:73-74 | the maximum-only branch of `get_definition` prints `min_value` | `IntParamConfig(max_value=5)` reads "maximum None" | print the maximum, "maximum 5" | high, not executed | Params.DefinitionAsWrittenMaxOnly | Params.DefinitionNamesBound |
| src/core/param/params.py:81-82 | `min_value <= value <= max_value` with one bound `None` raises a TypeError in Python 3, although the constructor accepts one-bound configs | `IntParamConfig(min_value=1)` checking 5 | a missing bound does not restrict the value | high, not executed | Params.RangeCheckMinOnlyRaises | Params.RangeCheckAgrees |
| src/core/executor/executors.py:102 | `self.param.config` is read, but `CommandParam` stores its configs in `configs` (src/core/param/params.py:91), so it raises an AttributeError | an integer parameter with `IntParamConfig(1, 10)` and the token "5" | check the value against the integer range config among the configs | high, not executed | Executor.IntProcessAsWrittenRaises | Executor.IntChecksRange |
| src/core/executor/executors.py:105 | the chained comparison `min_value <= value <= max_value` with one bound `None` raises a TypeError, although the constructor accepts one-bound configs; it is reached once the attribute read at line 102 is fixed | an integer parameter with `IntParamConfig(min_value=1)` and the token "5" | a missing bound does not restrict the value | high, not executed | Executor.IntCompareAsWrittenRaises | Executor.IntChecksRange |
| src/core/param/validator.py:29 | `get_generic_param_type(exec_class, 0, 0)` reads `exec_class.__orig_bases__`, but every executor class subclasses the plain `CommandParamExecutor` (src/core/executor/base.py:14), so an AttributeError is raised at the first parameter checked | the reaction command's syntaxes, whose first parameter is a user parameter | check each config against the type the executor produces | high, not executed | Validator.ReacSyntaxesAsWrittenRaise | Validator.RejectsExactlyDuplicates |
| src/core/command/repository.py:36 | `validate_syntaxes(command.get_syntaxes(), command.name())` passes two arguments to a method taking one (src/core/param/validator.py:11), which raises a TypeError | any non-empty command list | validate each command's syntaxes alone | high, not executed | Repository.SetCommandListAsWrittenRejects | Repository.CommandRepository.SetCommandList |
