# dumb_bot command handling, modelled in Dafny

This project models the two components of the dumb_bot Telegram bot library that hold its logic.

**ChainCommandHandler.** It is a tree of command handlers.
- A handler listens for a set of lower-cased commands.
- A handler is either a leaf with a callback, or a router with an ordered list of sub-handlers and an optional default.
- `check_update` matches the first part of a message's text against the commands. A router strips that part and tries its sub-handlers in order. The first match wins, and its index is pushed onto an index stack. With no match, the router falls back to its default.
- `handle_update` pops that stack to walk back down to the leaf that matched.
- Underneath both is a tokenizer: one regular expression that splits on whitespace but keeps `"..."` and `key="..."` runs together, and drops the double quotes.

**StringArgConverter.** It binds a command's text parts to a declared schema.
- The schema has required arguments, and optional ones with defaults.
- Each argument has a cast: its own cast function, or else its target type.
- The first parts bind the required arguments by position.
- Later plain parts fill the next unbound optional. `name=value` parts bind by name, and after one of those a plain part is an error.
- Defaults fill whatever is left. The values come back in declared order.

Files:
- `Wrappers.dfy`: `Option` and `Result`.
- `Tokenizer.dfy` (module `Tokenizer`): a direct scanner for the pattern `(\S*="[^"]+"|"[^"]+"|\S+)`, `extract_command` and `extract_args`, and their properties.
- `CommandTree.dfy` (module `ChainCommand`): the handler tree, its constructor checks, `check_update`, `handle_update` and `collect_additional_context`.
- `ArgConverter.dfy` (module `StringArgs`): the converter's constructor, `usage`, `check_arg_len`, `_cast`, `_default_value` and `parse_args`.

Representation choices:
- The Telegram filters, callbacks, casts and default providers are foreign code, so they are parameters.
  - A filter is `flt: (Filter, Update) -> FilterResult`.
  - A cast is `apply: (Elem, string) -> Option<Value>`.
  - A default provider is `call0: Elem -> Option<Value>`.
  - `None` stands for "the call raised".
  - A callback is an opaque `CallbackId`: handling returns the leaf whose callback would run, with the context it would run with.
- The message's scratch text (`temp_message`) is passed by value in `Update(text, temp)`, not written into the update and restored.
- `check_update` is `CheckUpdate`, a method with the loop over sub-handlers and its early return. It is proved equal to the recursive specification `Check`.
- `handle_update` is `HandleUpdate`. It pops an `IndexStack` object in place, and is proved equal to the function `Handle` over the stack's value.
- `__init__` of the converter is `NewConverter`, the loop over the keyword arguments. `parse_args` is `ParseArgs`, its three loops over a dictionary filled in place. Both are proved equal to the functions `Schema` / `Classified` and `Parse`.
- The converter is a datatype because nothing changes it after construction.

## Model

| member | source | states |
|---|---|---|
| ChainCommand.CommandError | dumbbot/_chaincommandhandler.py:126-130 | The command loop raises nothing exactly when every lower-cased command is valid: bot-command syntax, or the empty command without filters. An error names a failing non-empty command, or reports filters on the empty command. |
| ChainCommand.Build | dumbbot/_chaincommandhandler.py:114-141 | Construction fails when both or neither of callback and sub-handlers are given, or a default is given to a leaf. Otherwise it fails exactly when a command is invalid. A built handler listens for the lower-cased commands, and is a leaf exactly when it has a callback. Its filter defaults to the text filter. A router keeps its sub-handlers, and its default is the empty-command leaf of the default callback. |
| ChainCommand.BuildIsBuilt | dumbbot/_chaincommandhandler.py:101-141 | A handler built from built sub-handlers satisfies the tree invariant `Built`. |
| ChainCommand.DefaultHandlerIsBuilt | dumbbot/_chaincommandhandler.py:137 | The default handler is what the constructor builds from `('', default)`. |
| ChainCommand.Check | dumbbot/_chaincommandhandler.py:163-212 | A match always carries truthy filter data: `True` for the empty command, or a truthy filter result at the leaf. |
| ChainCommand.FirstChild | dumbbot/_chaincommandhandler.py:192-197 | A sub-handler match handed up carries truthy filter data. |
| ChainCommand.CheckUpdate | dumbbot/_chaincommandhandler.py:163-212 | The loop over sub-handlers, with its early return, computes the verdict `Check` specifies. |
| ChainCommand.FirstMatchIndex | dumbbot/_chaincommandhandler.py:192-197 | The index it gives, from i on, is that of a sub-handler whose verdict is a match. |
| ChainCommand.FirstMatchIndexFacts | dumbbot/_chaincommandhandler.py:192-197 | No sub-handler between i and that index matches, and `None` means no sub-handler from i on matches. |
| ChainCommand.FirstChildIsFirstMatch | dumbbot/_chaincommandhandler.py:192-197 | Trying the sub-handlers in order gives the first matching sub-handler's verdict with its index pushed on the stack, or no match. |
| ChainCommand.EmptyCommandMatchesAll | dumbbot/_chaincommandhandler.py:168-171 | A handler listening for the empty command matches every text, empty text included. It gives stack `[-1]`, the parts of the whole text, and filter data `True`. |
| ChainCommand.NoMatchExactly | dumbbot/_chaincommandhandler.py:174-183 | Without the empty command, the verdict is "no match" exactly when the text is empty, starts with whitespace, or has a first part whose lower case is not a command. |
| ChainCommand.RouterFirstMatch | dumbbot/_chaincommandhandler.py:186-197 | On a router whose command matches, when sub-handler j is the first to match the stripped rest of the text, the router's verdict is that sub-handler's verdict with j pushed. |
| ChainCommand.RouterFallback | dumbbot/_chaincommandhandler.py:198-203 | When no sub-handler matches, a router without a default rejects. With a default, it gives stack `[-1]` and the parts of its own text, whose first part is its own command. |
| ChainCommand.LeafVerdict | dumbbot/_chaincommandhandler.py:205-211 | A leaf whose command matches gives the empty stack, the parts after the command and the filter result when the filter is truthy. Otherwise it rejects. |
| ChainCommand.ValidCommandChars | dumbbot/_chaincommandhandler.py:127 | A valid command holds only `/`, digits, lower-case letters, `_` and `-`. |
| ChainCommand.ValidCommandHasNoQuote | dumbbot/_chaincommandhandler.py:127 | No command the check accepts contains a double quote. |
| ChainCommand.LowerKeepsQuotes | dumbbot/_chaincommandhandler.py:122-125 | Lower-casing neither adds nor removes double quotes. |
| ChainCommand.CollectAdditionalContext | dumbbot/_chaincommandhandler.py:234-247 | A match sets the context's arguments to the verdict's parts, then sets every entry of a filter's data dictionary on the context. An entry named `args` therefore replaces the arguments, and the other entries override the context's attributes of the same name. Any other verdict leaves the context unchanged. |
| ChainCommand.Handle | dumbbot/_chaincommandhandler.py:214-232 | A leaf runs its own callback with the collected context. Whatever handling reaches is a leaf, and a matched verdict's context is the collected one. |
| ChainCommand.IndexStack.Pop | dumbbot/_chaincommandhandler.py:224 | `list.pop()`: it returns the last index and removes it, or fails and changes nothing on an empty stack. |
| ChainCommand.Unwound | dumbbot/_chaincommandhandler.py:221-229 | What handling leaves of the stack is a prefix of it, and a leaf leaves it whole. |
| ChainCommand.HandleUpdate | dumbbot/_chaincommandhandler.py:214-232 | Popping the shared stack in place while walking down gives the outcome `Handle` specifies. The stack is left as `Unwound` says, and is untouched for a verdict that is no match. |
| ChainCommand.RouterChildStep | dumbbot/_chaincommandhandler.py:192-197 | A match through sub-handler j is that sub-handler's verdict with j pushed, and is decided by the same leaf. |
| ChainCommand.RouterDefaultStep | dumbbot/_chaincommandhandler.py:198-202 | A match through the default is the default's verdict on the router's own text, decided by the same leaf. |
| ChainCommand.HandlePop | dumbbot/_chaincommandhandler.py:221-229 | A router pops the last index and hands the rest of the stack on: index j to sub-handler j, `-1` to the default. |
| ChainCommand.ChildHandlesDecider | dumbbot/_chaincommandhandler.py:192-197 | If handling a sub-handler's match reaches its deciding leaf, then so does handling the router's match through it. |
| ChainCommand.DefaultHandlesDecider | dumbbot/_chaincommandhandler.py:198-202 | Handling a router's match through its default reaches the default leaf with the default's arguments. |
| ChainCommand.CheckThenHandle | dumbbot/_chaincommandhandler.py:163-232 | For every handler the library builds in which no router lists the empty command, handling a matched verdict of `check_update` reaches exactly the leaf that decided it. That leaf's verdict has the same arguments and filter data, and the leaf runs with the context collected from the verdict. |
| ChainCommand.EmptyRouterHandleFails | dumbbot/_chaincommandhandler.py:126-130 | The library builds a router listening for the empty command. Its check matches any text with stack `[-1]`, and handling that verdict fails because there is no default. |
| ChainCommand.SlashCommandWithBadChar | dumbbot/_chaincommandhandler.py:127 | A command starting with `/` that has a character outside the allowed set after it is not valid. |
| ChainCommand.NewlineCommandAccepted | dumbbot/_chaincommandhandler.py:127 | The library's check accepts `/a\n` (the `$` matches before a final newline), although it is not a valid bot command. The constructor then builds a leaf for it. |
| ChainCommand.NewlineCommandNeverMatches | dumbbot/_chaincommandhandler.py:177-183 | A handler whose commands all end in a newline gives "no match" for every text: no first part ends in whitespace. |
| ChainCommand.CorrectedIsBuilt | dumbbot/_chaincommandhandler.py:126-130 | Every handler the corrected constructor builds is one the library's constructor accepts too, and none of its routers lists the empty command. |
| ChainCommand.ValidCommandReachable | dumbbot/_chaincommandhandler.py:177-183 | Under the corrected constructor, a text consisting of one of a handler's non-empty commands is always matched or rejected, never "no match". |
| Tokenizer.LStrip | dumbbot/_chaincommandhandler.py:188 | `str.lstrip()` gives a suffix of the text that does not start with whitespace. |
| Tokenizer.StripQuotes | dumbbot/_chaincommandhandler.py:270 | Removing double quotes leaves no double quote. |
| Tokenizer.RunLength | dumbbot/_chaincommandhandler.py:133 | The greedy `\S*` takes a run of non-space characters, ended by whitespace or the end of the text. |
| Tokenizer.QuoteAt | dumbbot/_chaincommandhandler.py:133 | It finds the first double quote at or after a given index. |
| Tokenizer.QuotedFrom | dumbbot/_chaincommandhandler.py:133 | A match of `"[^"]+"` ends after the first closing quote, with at least one character inside. |
| Tokenizer.LastSplit | dumbbot/_chaincommandhandler.py:133 | Backtracking `\S*="[^"]+"` settles on the largest split point that works, and no larger one works. |
| Tokenizer.MatchEnd | dumbbot/_chaincommandhandler.py:249-253 | `re.match` of the part pattern finds a non-empty part at offset 0 exactly when the text does not start with whitespace, and that part does not end in whitespace. |
| Tokenizer.Tokens | dumbbot/_chaincommandhandler.py:255-271 | `findall` over a text gives at least one part when the text starts with a non-space character. It never gives more parts than the text has characters. |
| Tokenizer.NoTokensExactlyBlank | dumbbot/_chaincommandhandler.py:255-271 | There are no parts exactly when the text is all whitespace. |
| Tokenizer.ExtractArgs | dumbbot/_chaincommandhandler.py:255-271 | `extract_args(message, pos)` gives a part when a non-space character is at `pos`. It never gives more parts than there are characters after `pos`. |
| Tokenizer.ExtractCommand | dumbbot/_chaincommandhandler.py:249-253 | `extract_command` finds a first part exactly when the text does not start with whitespace. That part is non-empty and does not end in whitespace. |
| Tokenizer.CommandThenArgs | dumbbot/_chaincommandhandler.py:249-271 | The arguments of the whole text are the command part, quotes removed, followed by the arguments after the command part. |
| Tokenizer.TokensHaveNoQuotes | dumbbot/_chaincommandhandler.py:268-270 | No part `extract_args` returns contains a double quote. |
| Tokenizer.NoSplitWithoutQuotes | dumbbot/_chaincommandhandler.py:133 | Without a double quote, the `key="..."` alternative never applies. |
| Tokenizer.QuoteFreeTokensAreWords | dumbbot/_chaincommandhandler.py:255-271 | On a text without double quotes, the parts are exactly `str.split()` of it. |
| Tokenizer.TokensOfLStrip | dumbbot/_chaincommandhandler.py:268 | Leading whitespace never changes the parts. |
| Tokenizer.WordToken | dumbbot/_chaincommandhandler.py:133 | A word without whitespace or quote, followed by whitespace or the end, is one part. |
| Tokenizer.WordMatchEnd | dumbbot/_chaincommandhandler.py:249-253 | `extract_command` on such a word ends exactly after the word. |
| Tokenizer.TokensAfterMatch | dumbbot/_chaincommandhandler.py:268-270 | `findall` yields the part matched at the start, stripped of quotes, then goes on after it. |
| Tokenizer.QuotedToken | dumbbot/_chaincommandhandler.py:133-135 | `"w"`, followed by whitespace or the end, is kept as the one part `w`, spaces included, when w does not end in `=`. |
| Tokenizer.KeyQuotedToken | dumbbot/_chaincommandhandler.py:133-135 | `key="w"`, followed by whitespace or the end, is kept as the one part `key=w`, when w does not end in `=`. |
| StringArgs.Classify | dumbbot/_stringargconverter.py:58-76 | Classification:<br>- a 1-tuple is required;<br>- a 2-tuple with a one-parameter callable second element is required with that cast;<br>- any other 2-tuple is optional with that default;<br>- a 3-tuple is optional with a default and a cast.<br>Anything else fails, as does a callable second element taking more than one parameter. |
| StringArgs.Classified | dumbbot/_stringargconverter.py:58-76 | Every keyword argument is classified in order, or the constructor fails exactly when one of them fails. |
| StringArgs.Filed | dumbbot/_stringargconverter.py:62-76 | Neither list of filed names is longer than the declaration. |
| StringArgs.NewConverter | dumbbot/_stringargconverter.py:53-78 | The loop over the keyword arguments builds the converter `Schema` describes, or fails as `Classified` does. |
| StringArgs.ClassifiedStep | dumbbot/_stringargconverter.py:58-76 | Classifying one more keyword argument extends the classified prefix by one entry. |
| StringArgs.FiledStep | dumbbot/_stringargconverter.py:62-76 | One more classified argument is appended to the list of its kind and to no other. |
| StringArgs.SchemaStep | dumbbot/_stringargconverter.py:58-76 | One more classified argument extends the dictionaries as the loop body does. |
| StringArgs.ClassifiedKeepsError | dumbbot/_stringargconverter.py:58-76 | Once a prefix of the keyword arguments fails to classify, so does the whole. |
| StringArgs.FiledFacts | dumbbot/_stringargconverter.py:62-76 | A name is filed as required exactly when its entry is required, and as optional exactly when it is optional. |
| StringArgs.FiledPartition | dumbbot/_stringargconverter.py:62-76 | Every declared name is filed exactly once: as required or as optional, never both. |
| StringArgs.FiledLength | dumbbot/_stringargconverter.py:77-78 | The required and optional lists together are as long as the declaration. |
| StringArgs.TargetFacts | dumbbot/_stringargconverter.py:60 | Every declared name has its first tuple element as target type. |
| StringArgs.DefaultFacts | dumbbot/_stringargconverter.py:72-75 | Exactly the optional names have a default, their second tuple element. |
| StringArgs.CastFacts | dumbbot/_stringargconverter.py:68-76 | A name has a cast function exactly when it was declared with one. |
| StringArgs.SchemaFacts | dumbbot/_stringargconverter.py:53-78 | The converter's lists, dictionaries and bounds are those the declarations give. |
| StringArgs.ConstructedIsWellFormed | dumbbot/_stringargconverter.py:53-78 | Every constructed converter is well formed:<br>- names are distinct and filed once;<br>- every name has a target type, every optional a default;<br>- `_MIN_LEN` is the number of required names, `_MAX_LEN` the number of all names. |
| StringArgs.Usage | dumbbot/_stringargconverter.py:80-82 | The usage line is `Usage: ` followed by the command text, or empty when the text is None or empty. |
| StringArgs.CheckArgLen | dumbbot/_stringargconverter.py:84-86 | On a well-formed converter, `check_arg_len` holds exactly when there are at least as many parts as required names, and at most as many as all names. |
| StringArgs.CheckArgLenBounds | dumbbot/_stringargconverter.py:84-86 | `check_arg_len` holds exactly when the number of parts is between the number of required names and the number of all names. |
| StringArgs.Cast | dumbbot/_stringargconverter.py:141-148 | A cast uses the argument's own cast function unless there is none or it is None, and otherwise the target type. A failure is the cast error for that name. |
| StringArgs.IndexOf | dumbbot/_stringargconverter.py:117 | It finds the first occurrence of a character at or after an index. |
| StringArgs.SplitNamed | dumbbot/_stringargconverter.py:117 | A match of `(\w+?)=(.+)` splits a part into a non-empty word name, `=`, and a non-empty value up to a newline. |
| StringArgs.SplitNamedOfJoin | dumbbot/_stringargconverter.py:117 | Splitting `name=value` gives back the name and the value. |
| StringArgs.FirstUnbound | dumbbot/_stringargconverter.py:126-129 | It gives the first optional, in declared order, that is still unbound, or `None` when all are bound. |
| StringArgs.DefaultValue | dumbbot/_stringargconverter.py:88-92 | A callable default is called without arguments, and a failing call fails as that name's default. A plain default is the value itself, and a name without one gets None. |
| StringArgs.Collect | dumbbot/_stringargconverter.py:139 | The result has one entry per declared name. |
| StringArgs.Parse | dumbbot/_stringargconverter.py:94-139 | A success has one value per declared name, and every required name has a part at its position that casts. |
| StringArgs.ParseArgs | dumbbot/_stringargconverter.py:94-139 | The three loops over the dictionary filled in place compute what `Parse` specifies. |
| StringArgs.BindRequiredArgs | dumbbot/_stringargconverter.py:106-110 | The first loop computes what `BindRequired` specifies, and succeeds only when there is a part for every required argument. |
| StringArgs.BindOptionalArgs | dumbbot/_stringargconverter.py:112-131 | The second loop, with its named-mode flag and its inner search for the next unbound optional, computes what `BindTokens` specifies. |
| StringArgs.FillDefaultArgs | dumbbot/_stringargconverter.py:133-137 | The third loop computes what `FillDefaults` specifies. |
| StringArgs.BindRequiredOk | dumbbot/_stringargconverter.py:109-110 | The first loop succeeds exactly when every required argument has a part at its position and that part casts. |
| StringArgs.BindRequiredValues | dumbbot/_stringargconverter.py:109-110 | Each required argument is bound to its own part, cast. Nothing else changes, and nothing else is bound. |
| StringArgs.TooFewParts | dumbbot/_stringargconverter.py:109-110 | With fewer parts than required arguments, parsing fails at the index of the first missing part. |
| StringArgs.BindTokensKeeps | dumbbot/_stringargconverter.py:113-131 | The second loop never changes a bound value and binds only optionals. |
| StringArgs.FillDefaultsFacts | dumbbot/_stringargconverter.py:134-137 | The default loop keeps bound values and gives each unbound optional its default. As written, it fails when any optional's default provider fails; worked out lazily, only when an unbound one's does. |
| StringArgs.BareTokensFill | dumbbot/_stringargconverter.py:124-129 | Plain parts before any named one fill the unbound optionals in declared order, one part each. The loop succeeds exactly when each such part casts, and parts beyond the last optional are dropped. |
| StringArgs.RequiredPhase | dumbbot/_stringargconverter.py:109-110 | After the first loop, every required name holds its cast part and no optional is bound. |
| StringArgs.PositionalBind | dumbbot/_stringargconverter.py:106-137 | When no part after the required ones is named, the dictionary holds:<br>- the required arguments' own parts;<br>- the optionals' following parts in order;<br>- the defaults of the rest. |
| StringArgs.CollectAt | dumbbot/_stringargconverter.py:139 | The result lists the required names' values, then the optional names' values, in declared order. |
| StringArgs.PositionalParts | dumbbot/_stringargconverter.py:94-139 | When no part after the required ones is named, the result lists:<br>- each required argument's own part, cast;<br>- then each optional's following part, cast, in order;<br>- then the defaults of the optionals left over. |
| StringArgs.SurplusDropped | dumbbot/_stringargconverter.py:124-129 | Plain parts beyond one per argument are silently ignored: parsing gives the same result without them. |
| StringArgs.ParseAgrees | dumbbot/_stringargconverter.py:94-139 | Parsing depends on the parts only through the first two loops. |
| StringArgs.NamedModeSticky | dumbbot/_stringargconverter.py:130-131 | Once a named part has been seen, the loop succeeds only if every later part is named. |
| StringArgs.NamedPartErrors | dumbbot/_stringargconverter.py:115-123 | When the first part after the required ones is named: naming a required argument assigns it twice, and naming no argument at all is unknown. |
| StringArgs.NamedBoundFails | dumbbot/_stringargconverter.py:115-121 | At any point of the second loop, a named part whose name is already bound fails as a duplicate, and one that names no optional fails as unknown. |
| StringArgs.BindOkStep | dumbbot/_stringargconverter.py:113-131 | One successful step of the second loop: a named part names an unbound optional, binds it and switches to named mode. A plain part comes before named mode and binds the first unbound optional, or nothing. |
| StringArgs.NamedKeysFresh | dumbbot/_stringargconverter.py:115-123 | When the second loop succeeds, every named part names an optional that was not bound when the loop reached part j. |
| StringArgs.NamedKeysDistinct | dumbbot/_stringargconverter.py:118-119 | When the second loop succeeds, no two named parts name the same optional. |
| StringArgs.PlainKeysNotRenamed | dumbbot/_stringargconverter.py:118-129 | When the second loop succeeds, no named part names an optional that an earlier plain part bound. |
| StringArgs.ParsedNamesFresh | dumbbot/_stringargconverter.py:106-131 | When `parse_args` succeeds, every named part after the required ones, at any position, names an optional and never a required argument. No two named parts name the same optional. None names the optional that a plain part has bound; the plain part at offset d after the required ones binds optional d. |
| StringArgs.PlainThenNamedSame | dumbbot/_stringargconverter.py:118-119 | When the first part after the required ones is plain and fills the first optional, a named part right after it for that optional fails as a duplicate. |
| StringArgs.PlainAfterNamed | dumbbot/_stringargconverter.py:130-131 | A plain part after a named one is a syntax error. |
| StringArgs.NamedPartsCommute | dumbbot/_stringargconverter.py:115-123 | Two adjacent named parts for different unbound optionals bind the same in either order. |
| StringArgs.NamedOrderIrrelevant | dumbbot/_stringargconverter.py:94-139 | Swapping two named parts right after the required ones does not change the result. |
| StringArgs.ProviderCalledForBoundOptional | dumbbot/_stringargconverter.py:134-137 | As written, parsing `"5"` for `n=(int, provider)` fails when the provider fails, although `n` is bound. Worked out lazily, it returns `[5]`. |
| StringArgs.FillLazyAllBound | dumbbot/_stringargconverter.py:134-137 | Worked out lazily, the default loop leaves a dictionary that binds every optional unchanged. |
| StringArgs.LazyDefaultsUnused | dumbbot/_stringargconverter.py:134-137 | With lazy defaults, a call whose parts bind every argument succeeds whatever the providers do, and its result does not depend on them. |

## Left out

- Updates that are not `Update` objects, or that have no message or text. Text is a plain string, and an absent text is the empty one.
- The order of commands in the `frozenset`: the commands are walked in the caller's order. Every error the model reports is one the library can raise in some order, and success does not depend on order.
- Unicode beyond ASCII in the patterns:
  - `\d` and `[a-z]` are taken as ASCII;
  - `\w` in `(\w+?)=(.+)` is ASCII letters, digits and `_`;
  - `str.lower()` is modelled for ASCII and the Kelvin sign only.
  Commands containing a non-ASCII decimal digit, such as `/٣`, are accepted by the library and rejected here.
- Regular-expression edge cases of the part pattern, which the scanner follows but no lemma states: unterminated quotes, a lone `"` becoming an empty part, and the full backtracking of `\S*="`.
- Filters, callbacks, casts and default providers are abstract partial functions. `inspect.signature` and `callable()` become the `Callable(fn, params)` element.
- A router's own filter is stored but never evaluated, as in the library.
- `block`, `__repr__` and the text of the localized error messages.
- The aliasing of the index stack: `check_update` builds it as a value and `HandleUpdate` pops it in place. Sharing the list between the verdict and later callers is not modelled.
- `StringArgs.Parse`: distinct keyword names are assumed, since Python's `**kwargs` cannot repeat a name.
- A `=`-part that `(\w+?)=(.+)` does not match raises AttributeError in the library; here it is the `Malformed` error.
- `ChainCommand.HandleUpdate`: its contract uses `old` and `modifies`; its partner is `Handle`, with `CheckThenHandle` about it.
- CollectAdditionalContext: a data key naming a read-only property of the context (`bot`, `job_queue` and the like) makes `context.update` raise in the library. Here it is set like any other attribute, because the context's properties are not modelled.

## Findings

| source | as written | input that shows it | evidently intended | confidence | as-written member | corrected member |
|---|---|---|---|---|---|---|
| dumbbot/_chaincommandhandler.py:126-130 | the empty command is accepted on a handler with sub-handlers | `ChainCommandHandler('', sub_command_handlers=[h])`: every text matches with stack `[-1]`, and handling pops `-1` and calls the missing default | the empty command only on leaves (it is meant for default handlers) | medium, not executed | ChainCommand.EmptyRouterHandleFails | ChainCommand.CheckThenHandle |
| dumbbot/_chaincommandhandler.py:127 | `re.match` with `$` accepts a command ending in a newline | command `"/a\n"` is accepted, and no text ever matches it | commands are exactly `/?[0-9a-z_-]{1,32}` and can all be matched | high, not executed | ChainCommand.NewlineCommandAccepted | ChainCommand.ValidCommandReachable |
| dumbbot/_stringargconverter.py:134-137 | the default provider of every optional is called, bound or not | `n=(int, provider)` with a provider that raises, parts `["5"]`: the call fails although `n` is `5` | call a provider only for an unbound optional | medium, not executed | StringArgs.ProviderCalledForBoundOptional | StringArgs.LazyDefaultsUnused |
