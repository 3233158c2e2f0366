# falcon-cli command router, modelled in Dafny

This project models the routing core of the Rust crate `falcon-cli`. The model covers:

- `CliRouter`, which registers commands in a tree of child routers;
- the prefilter that strips ignored and global flags from the process arguments;
- help detection and the tree walk that picks a handler;
- the typo fallback, which suggests a command by edit distance and asks the user;
- the partitioner that splits what is left into positional arguments, flags and flag values;
- the `CliRequest` accessors and format validators, and the `CliError` type with its display text.

Modules follow the program's structure:

- `Base`: strings, lowering, splitting and decimal text.
- `Errors`: `src/error.rs`.
- `Request`: `src/request.rs`.
- `Trie`: the router tree as a value.
- `Prefilter`: the `get_raw_args` pass as a function.
- `Resolver`: the `lookup_handler` walk, one token at a time.
- `EditDistance`: Levenshtein distance.
- `Similar`: the `lookup_similar` sort and bin scan.
- `Partition`: the `gather_flags` split.
- `Router`: the class `CliRouter`, whose methods are the imperative code, each proved against these functions.

The process environment becomes parameters and outcomes:

- The argument vector `argv` is a parameter; its first element is the program name.
- The iteration order of the command hash map is a parameter `order`, required to list each command exactly once.
- The answer to the confirmation prompt is a function `accept` from the prompt text to a boolean.
- The version message and the help screens end the process in the source. Here they are outcomes of `Lookup` (`PrintVersion`, `HelpIndex`, `HelpCategory`) and of `HasGlobal`/`GetGlobal` (`Exited`).

Where the code and its documentation disagree, the model follows the code:

- Tree segments are stored as given, not lowercased, while each token is lowercased before it is looked up. An alias or shortcut with a capital letter therefore never matches (`UpperCaseNeverMatches`).
- Handlers are keyed by the alias as given, but looked up under the lowered alias. A mixed-case alias reached through a lowercase shortcut finds no handler (`MixedCaseAliasUnroutable`).
- The prefilter never marks a global flag as present, so `has_global` always answers no (`HasGlobal`, `FilterFrame`).
- A bin's best candidate is offered only when the next bin begins, so the last bin (the fewest words) is never offered. With only one-word commands registered, a typo never gets a suggestion (`SingleBinNoSuggestion`).
- An accepted suggestion drains as many tokens as the next bin's commands have words, not as many as the suggestion has: fewer than the suggestion's words (`SimilarOfCorrect`).
- Within a bin, a candidate also replaces the best one when the best distance is 0. An exact match can therefore be replaced by a later, worse candidate of the same bin.
- The walk drains `length` tokens from `start`, counting segments, not positions. A flag between matched segments is drained, and the last matched segment stays as an argument (`InterleavedFlagDrained`).
- The token that breaks a partial match is not tried again from the root (`MismatchNotRetried`).
- A segment matched without a handler of its own is still counted in `length`, so it is drained with the handler found above it. With `db` and `db migrate sub` registered, `db migrate x` routes to `db` and leaves only `x`.

## Model

| member | source | states |
|---|---|---|
| Errors.Display | src/error.rs:28-39 | Each error's text: the fixed missing-parameters text; the missing-flag prefix followed by the flag; the invalid-parameter prefix, the decimal position, `: ` and the message; a generic error's message as it stands |
| Errors.FromIo | src/error.rs:41-45 | An I/O error becomes a generic error that displays as the I/O error's text |
| Errors.DisplayMissingFlagInjective | src/error.rs:32 | The text of a missing-flag error determines the flag |
| Errors.DisplayInvalidParamInjective | src/error.rs:33-35 | The text of an invalid-parameter error determines both its position and its message |
| Request.ParseI64 | src/request.rs:265-267 | A parsed value lies within the 64-bit signed range, and the text has a digit and only digits after an optional sign |
| Request.ParseI64RoundTrip | src/request.rs:265-267 | Every 64-bit integer parses back from its decimal rendering |
| Request.Utf8Len | src/request.rs:297 | The byte length of a string lies between its character count and four times it |
| Request.Utf8LenAscii | src/request.rs:297 | On ASCII text the byte length is the character count |
| Request.CliRequest.RequireParams | src/request.rs:91-96 | Passes exactly when at least `num` positional arguments were given, and otherwise fails with the missing-parameters error |
| Request.CliRequest.HasFlag | src/request.rs:209-211 | True exactly when the flag is among the boolean flags or has a value that `get_flag` returns |
| Request.CliRequest.RequireFlag | src/request.rs:123-129 | Passes exactly when the flag is among the boolean flags or is a key of the flag values, and otherwise fails naming the flag |
| Request.CliRequest.GetFlag | src/request.rs:151-156 | The value given with the flag, present exactly when the flag is a key of the flag values |
| Request.CliRequest.ValidateFlag | src/request.rs:183-187 | A missing value fails naming the flag; otherwise the value is checked as the parameter at position 0 |
| Request.CliRequest.Validate | src/request.rs:261-369 | `Any` always passes; `Integer` passes exactly when the text is a 64-bit integer; `Boolean` exactly when its lowered form is one of the six words; `Email` exactly when it holds both `@` and `.`; `StringRange` and `IntegerRange` exactly when the byte length or the parsed value lies in the half-open range; `OneOf` exactly when it is one of the options. An unparsable integer gives the "Expected integer" message, and every failure names the given position |
| Request.CliRequest.ValidateParams | src/request.rs:240-250 | Passes exactly when every position passes its check. A failure is the check of the first failing position, and a missing argument is a failure at its position: when fewer arguments than formats are given and all of them pass, the result is "Expected parameter at position n" at the first missing position n. Arguments beyond the formats are not checked |
| Request.BooleanIgnoresCase | src/request.rs:274-282 | The boolean check gives the same answer for a value and its lowered form |
| Request.IntegerAcceptsRendering | src/request.rs:264-321 | Every 64-bit integer in decimal passes the integer check, and passes the range check exactly when it lies in the range |
| Base.Drain | src/router.rs:447 | Removing the span `i..j` keeps the elements before `i` and moves those after `j` down by the span's length |
| Base.SplitJoinRoundTrip | src/router.rs:151 | Splitting on whitespace undoes joining non-empty, whitespace-free words with single spaces |
| Trie.WalkAppend | src/router.rs:151-154 | Walking a path one segment longer is walking the path, then that child |
| Trie.InsertHandlerAt | src/router.rs:149-155 | After one insertion the inserted path carries the handler alias; every other path keeps the alias it had |
| Trie.InsertHasPath | src/router.rs:151-154 | An insertion keeps every existing path and adds every prefix of the inserted one, and nothing else |
| Trie.InsertKeepsChildren | src/router.rs:151-154 | An insertion removes no child of any existing node |
| Trie.InsertAllHandlerAt | src/router.rs:149-156 | After inserting a queue of paths, each queued path carries the alias (the last write wins), and every other path keeps its alias |
| Trie.InsertAllHasPath | src/router.rs:149-156 | Inserting a queue of paths keeps every existing path and adds the prefixes of the queued ones |
| Prefilter.FindGlobal | src/router.rs:372-375 | The index of the first descriptor whose short or long form is the token, or none when no descriptor matches |
| Prefilter.FilterKeptOrdinary | src/router.rs:357-383 | Every token the prefilter keeps is ordinary: not the version trigger, not ignored, not a global flag |
| Prefilter.FilterAppend | src/router.rs:357-384 | The pass is left to right: after a stretch that settles (no version exit, no value still to skip), the rest is filtered on its own from the descriptors the stretch left, and its kept tokens follow the stretch's kept tokens in order |
| Prefilter.FilterKeepsOrdinary | src/router.rs:381-383 | An ordinary token is kept wherever it stands, after the tokens kept before it and before those kept after it |
| Prefilter.FilterDropsIgnored | src/router.rs:370-371 | An ignored flag is dropped wherever it stands, with the token after it when it takes a value; the descriptors are unchanged |
| Prefilter.FilterOrdinaryUnchanged | src/router.rs:381-383 | A stretch of ordinary tokens passes through unchanged and in order, and no descriptor changes |
| Prefilter.FilterFrame | src/router.rs:355-383 | The prefilter changes descriptors only in the `value` of value-bearing flags, and never sets `has` |
| Prefilter.FilterShapeIndependent | src/router.rs:357-383 | Two runs from descriptors differing only in their values keep the same tokens; their values differ only where neither run wrote one |
| Prefilter.PrefilterIdempotent | src/router.rs:351-391 | Running the prefilter again over the same arguments, from the descriptors the first run left, changes nothing |
| Prefilter.FilterVersionStops | src/router.rs:367-370 | The version trigger, wherever it stands after a settled stretch, ends the pass before the ignore and global checks: the tokens kept so far and the descriptors as they are, with the version outcome |
| Prefilter.FilterDropsGlobal | src/router.rs:358-380 | A global flag is dropped wherever it stands. When it takes a value and a token follows, that token becomes the value of the first descriptor naming the flag and is dropped too; the pass goes on after them |
| Prefilter.RawOutcome | src/router.rs:367-390 | The version outcome, with the version message, exactly when the trigger was seen; otherwise no arguments exactly when nothing was kept, or the kept tokens |
| Resolver.StepInv | src/router.rs:419-441 | One iteration of the walk keeps its invariant: the span starts at a non-flag token; its lowered non-flag tokens spell a tree path of `length` segments; the handler is the deepest on that path; a reset returns to the root with length 0 |
| Resolver.ScanHit | src/router.rs:419-447 | When the walk finds a handler, its span lies inside the arguments and starts at a non-flag token. Its lowered non-flag tokens spell a tree path of exactly `length` segments. The handler is the deepest one on that path, and no token after the span could extend it |
| Resolver.LastHandlerStored | src/router.rs:431-433 | The handler the walk reports is stored at some path of the tree |
| Resolver.ScanExactPath | src/router.rs:419-441 | Typing exactly the lowercase segments of a registered path finds that path's handler and spans every token |
| EditDistance.LevenshteinZero | src/router.rs:542 | The distance is zero exactly between equal strings |
| EditDistance.LevenshteinBounds | src/router.rs:542 | The distance is at least the difference of the lengths and at most the longer length |
| EditDistance.LevenshteinSymmetric | src/router.rs:542 | The distance does not depend on which string is the query |
| EditDistance.LevenshteinCons | src/router.rs:542 | One character added in front is one edit away |
| Similar.SortByWordCountCorrect | src/router.rs:508-513 | The sort is in non-increasing word count, is a permutation of its input, and keeps the input order among commands of equal word count |
| Similar.SuggestOffer | src/router.rs:514-547 | An offer names a listed command one to three edits from its query, from a bin with more words than the last command. Its drain length is the word count of a later bin, fewer than the command's words. When no command of its bin matches exactly, none of its bin is closer |
| Similar.SingleBinNoSuggestion | src/router.rs:517-547 | When every command has the same word count, nothing is ever offered |
| Similar.SimilarOfCorrect | src/router.rs:502-550 | Without a confirmed suggestion the arguments are unchanged. A confirmed suggestion is a listed command the user accepted, one to three edits from its query, and fewer tokens are removed than it has words |
| Partition.SplitShape | src/router.rs:467-484 | No positional argument starts with `-`, every flag is a dash and at least one more character, and every flag-value key is a declared value flag |
| Partition.SplitAppend | src/router.rs:467-484 | The split is left to right: after a stretch that leaves no value flag waiting, the rest is split on its own; positional arguments and flags follow in order and later flag values override earlier ones |
| Partition.SplitPositional | src/router.rs:479-481 | A token that is not a flag stays positional wherever it stands, between the positional arguments before and after it |
| Partition.SplitLongFlag | src/router.rs:473-474 | A `--` token that is not a declared value flag is pushed as a flag verbatim, wherever it stands |
| Partition.SplitCluster | src/router.rs:475-478 | Any other `-` token that is not a declared value flag becomes one `-c` flag per character after the dash, in order, wherever it stands |
| Partition.SplitValue | src/router.rs:468-472 | A declared value flag takes the token after it as its value wherever it stands, even when that token starts with `-`, and neither token becomes a positional argument or a flag |
| Partition.LastValueWins | src/router.rs:469 | A value flag keeps the value given with its last occurrence, whatever was given before |
| Partition.SplitTrailingValueFlag | src/router.rs:467-472 | A value flag with nothing after it is dropped |
| Partition.ClusterExample | src/router.rs:475-478 | `-abc` becomes the flags `-a`, `-b`, `-c` in that order |
| Router.HelpOf | src/router.rs:394-412 | A leading `help` or `-h` is removed and sets the help marker. Alone it renders the index; followed by a category's name, joined with spaces, it renders that category. Without the marker the arguments are unchanged |
| Router.PrefilterKeepsFlagsValid | src/router.rs:355-383 | The prefilter keeps the descriptors' invariant: none is marked present and only value-bearing ones have a value |
| Router.ResolveRegistered | src/router.rs:443-453 | A handler that lookup returns is stored under its own alias, and that alias names a command, so the command lookup in `lookup` cannot fail |
| Router.ResolveExact | src/router.rs:414-453 | Typing exactly a registered lowercase path returns its handler and leaves no arguments |
| Router.UpperCaseNeverMatches | src/router.rs:424 | Tokens are lowered before lookup while segments are stored as given (line 153): when no top-level segment is lowercase, the walk never leaves its initial state |
| Router.InterleavedFlagDrained | src/router.rs:419-447 | With `db migrate` registered, `db -x migrate a` routes to it and leaves `migrate a`: the flag is drained in place of the last segment |
| Router.MixedCaseAliasUnroutable | src/router.rs:452 | Handlers are keyed by the alias as given (line 141) but looked up lowered: with `Build` registered under the shortcut `b`, typing `b` finds no handler |
| Router.MismatchNotRetried | src/router.rs:435-440 | With `db migrate` and `x` registered, `db x` finds no handler in the tree |
| Router.ShortcutRouteExample | src/router.rs:324-349 | `b --out dist -v src`, with `build` registered under the shortcut `b` and the value flag `--out`, routes to `build` with argument `src`, flag `-v` and the value `dist` for `--out` |
| Router.RoutedRequest | src/router.rs:324-349 | A routed request names a registered command and carries that handler's shortcuts. Its positional arguments are not flags, its flag values belong to declared value flags, and the help marker is set only by a leading `help` or `-h` |
| Router.AddKeepsValid | src/router.rs:131-157 | Registering a command keeps the registry's invariant: handlers carry their key lowered, which names a command, and every alias in the tree is lowercase |
| Router.SortedCommands | src/router.rs:508-513 | The sorted command list is in non-increasing word count and holds only command names |
| Router.PendingStep | src/router.rs:357-383 | How the rest of the prefilter depends on a token that is not skipped: the version exit, an ignored flag, a global flag, or a kept token |
| Router.CliRouter.constructor | src/router.rs:99-101 | A new router has an empty tree, no handlers, commands, categories, ignored or global flags, and has not run the prefilter |
| Router.CliRouter.Add | src/router.rs:131-157 | Registers the handler under the alias as given and the command under its lowered form. The alias and each shortcut, split on whitespace, become paths that carry the lowered alias; every other path keeps its alias. Nothing else changes and the registry invariant holds |
| Router.CliRouter.SetAppName | src/router.rs:172-174 | Sets the application name |
| Router.CliRouter.SetVersionMessage | src/router.rs:189-191 | Sets the version message |
| Router.CliRouter.Global | src/router.rs:213-221 | Appends a descriptor that is not present and has no value |
| Router.CliRouter.Ignore | src/router.rs:310-312 | Records whether the ignored flag also drops the token after it |
| Router.CliRouter.AddCategory | src/router.rs:571-581 | Stores the category under its lowered alias |
| Router.CliRouter.GetRawArgs | src/router.rs:351-391 | The loop computes the prefilter of the arguments after the program name. The descriptors become the values it captured, the prefilter is marked as run, and the result is the version outcome, no arguments, or the kept tokens |
| Router.CliRouter.HasGlobal | src/router.rs:243-256 | Runs the prefilter first if it has not run. The answer is the `has` of the first matching descriptor, or no without one, and so always no |
| Router.CliRouter.GetGlobal | src/router.rs:278-291 | Runs the prefilter first if it has not run. The answer is the value of the first matching descriptor, or none without one; only a value-bearing descriptor has a value |
| Router.CliRouter.LookupHandler | src/router.rs:414-454 | The loop computes the walk. On a hit the span is drained and the handler is looked up under the walk's alias; otherwise it returns the typo fallback's handler and arguments |
| Router.CliRouter.GatherFlags | src/router.rs:456-486 | The loop computes the split of the arguments into positional arguments, flags and flag values |
| Router.CliRouter.PushCluster | src/router.rs:476-478 | Pushing a short-flag cluster appends one `-c` flag per character after the dash, in order, to the flags gathered so far |
| Router.CliRouter.LookupSimilar | src/router.rs:502-550 | The loop computes the fallback over the commands sorted by word count: the confirmed suggestion and the arguments with its span drained, or nothing and the arguments unchanged |
| Router.CliRouter.Lookup | src/router.rs:324-349 | Composes the prefilter, help detection, lookup and flag split. A routed request's command is always in the command table, and the descriptors are the prefilter's |

## Left out

- Terminal I/O: printing the version message, the help screens and the confirmation prompt are not modelled. The prompt's answer is the parameter `accept`, and the process exits are outcome values.
- The process arguments and the command hash map's iteration order are parameters, not the environment's.
- The command objects (`Box<dyn CliCommand>`) are not modelled. The command table is its set of lowered keys.
- The help screens (`src/help.rs`), the terminal helpers (`src/lib.rs`) and the output macros (`src/macros.rs`) are not part of this model.
- The `Decimal`, `DecimalRange`, `Url`, `File` and `Directory` formats are left out. They use floating point, a URL parser and the file system.
- Router.CliRouter.Add: the tree is a value that the method rebuilds. Child routers reached by `entry().or_insert` and updated in place are not modelled as objects, so aliasing between nodes is not captured.
- Base.Lower: lowercasing is modelled on ASCII letters only, not on all of Unicode.
- Request.Utf8Len: the byte length assumes each character is a Unicode scalar value.
- Similar.WordCount: whitespace is the Unicode White_Space set as `char::is_whitespace` defines it.
