# HomuraObfuscator in Dafny

HomuraObfuscator is a symbol obfuscator for Objective-C projects. It gets the
declarations of every source and header file from Clang's indexer and builds a
blacklist of names it must not touch. The blacklist holds the system symbols,
a few specified names and every public-header symbol. The obfuscator then
gives each admissible class, protocol, method piece and C function a random
identifier made of dictionary words. Finally it writes one
`#ifndef/#define/#endif` block per name to an output stream. Property names,
setter stems and xib names are never written.
The command-line front end has typed options (Bool, Int, Counter, String,
MultiString, Enum) and a parser. The parser handles `--` stoppers,
`=`-attached values, short-flag clusters, strict mode and required options.

The model has one module per source file, plus two modules of shared helpers:

- `Wrappers`: the `Option` type for Swift's `T?`.
- `Text`:
  - ASCII case mapping, prefixes and substrings;
  - `components(separatedBy:)` and `joined(separator:)`;
  - trimming and Swift's lexicographic `<` on strings;
  - `Int(_:)` on 64-bit integers.
- `Symbols`: `obfuscatableSymbols(skipImport:)` from `TranslationUnit+Extras.swift`.
  - Clang's translation unit is replaced by an `IndexRun`. This is the sequence of declaration records (kind, descriptor, file) the indexer reports, plus whether the run ended with an error.
- `Obf`: `HOObf.analyse()`.
  - Pure functions (`Blacklist`, `Xibs`, `ClassifyFiles`, `Emitted`) specify each phase.
  - The class `Obfuscator` holds the fields `blacklist`, `xibs`, `macros`, `properties` and `setMethods`. Its methods run the loops of `analyse()` and are proved equal to those functions.
  - `OutputSink` is the output stream. It is the sequence of blocks written, with a `hasSpace` oracle that sees what has been written so far.
- `StringUtils`: `randomElement`, `titleUpperCased`/`titleUpperCase` and `HOStringUtils.randomIdentifier`.
  - Randomness is an oracle `draw: nat -> nat`. The `k`-th random index is `draw(k) % count`, the range of `arc4random_uniform(count)`.
  - The class `Generator` counts the numbers it has drawn.
- `StringExtensions`: `split(by:maxSplits:)`, `padded(toWidth:with:)` and `wrapped(atWidth:wrapBy:splitBy:)`. Each is a looping method proved equal to a pure function.
- `Options`: `HOOption` and its subclasses.
  - The class `CLOption` has one `Value` per subclass, so `setValue` updates it in place.
  - `SetValue`, `WasSet` and `ClaimedValues` are the subclass behaviours as functions.
- `CommandLine`: `HOCommandLine`.
  - The class `Parser` holds the option list, the width cache and `unparsedArguments`.
  - `Parse` blanks strays in place. It is proved equal to the pure specification `ParseResultOf`, which is built from `Scan`, `ScanArg`, `Cluster` and `Claim`.

The engine's invariants are proved about the specification functions:
- a key keeps the value of its first insertion;
- no key is blacklisted;
- setter pieces never become keys;
- excluded names are never written;
- every block has the fixed 30-column format;
- writing stops for good when the stream is full.

`trimmingCharacters(in:)` drops `_` only at the two ends of a key, so `TrimUnderscores` trims only the ends, and two keys that trim to the same text tie under the sort's comparator.

## Model

| member | source | states |
|---|---|---|
| Text.Contains | HomuraObfuscator/Obf/HOObf.swift:196 | `s.contains(t)` holds exactly when `t` occurs at some position of `s` |
| Text.Components | HomuraObfuscator/Obf/HOObf.swift:159-160 | `components(separatedBy:)` gives at least one piece, no piece holds the separator, and a string without the separator is its only piece |
| Text.JoinComponents | HomuraObfuscator/Obf/HOObf.swift:241 | joining the pieces of `components(separatedBy:)` with the separator gives back the string |
| Text.ComponentsJoin | HomuraObfuscator/Obf/HOObf.swift:241 | splitting a join of separator-free pieces gives back the pieces |
| Text.TrimUnderscoresShape | HomuraObfuscator/Obf/HOObf.swift:287-289 | the trimmed key is the key with only underscores removed before and after it, and it neither starts nor ends with `_` |
| Text.LexTotal | HomuraObfuscator/Obf/HOObf.swift:288-289 | the string order used by the sort compares any two keys |
| Text.LexLeTransitive | HomuraObfuscator/Obf/HOObf.swift:288-289 | the string order used by the sort is transitive |
| Text.ParseInt | HomuraObfuscator/CommandLine/HOOption.swift:123 | `Int(s)` is a 64-bit value and only succeeds on text starting with a digit or a sign |
| Text.NatTextValue | HomuraObfuscator/CommandLine/HOOption.swift:123 | the decimal digits of a natural number read back as that number |
| Text.ParseIntDecimalText | HomuraObfuscator/CommandLine/HOOption.swift:123 | every 64-bit integer's decimal text parses back to it |
| Symbols.ObfuscatableSymbols | HomuraObfuscator/Obf/TranslationUnit+Extras.swift:14-37 | the loop over the reported declarations returns the names they contribute without `""`, whether or not indexing failed and whatever `skipImport` is |
| Symbols.SetOf | HomuraObfuscator/Obf/TranslationUnit+Extras.swift:21-23 | inserting the pieces one by one gives exactly the pieces |
| Symbols.CollectedMembers | HomuraObfuscator/Obf/TranslationUnit+Extras.swift:17-28 | a name is collected exactly when some declaration contributes it |
| Symbols.SymbolsOfDeclarations | HomuraObfuscator/Obf/TranslationUnit+Extras.swift:17-35 | the result holds exactly the non-empty `:`-pieces of methods and the non-empty descriptors of all other declarations |
| Symbols.MethodPiecesCollected | HomuraObfuscator/Obf/TranslationUnit+Extras.swift:20-23 | every `:`-piece of a method descriptor is collected, empty pieces included |
| Symbols.PlainDescriptorCollected | HomuraObfuscator/Obf/TranslationUnit+Extras.swift:24-25 | a descriptor without `:` is collected whole |
| Obf.HeaderSymbolsMembers | HomuraObfuscator/Obf/HOObf.swift:143-147 | the public-header symbols are exactly the non-empty names some parsed public header declares |
| Obf.BlacklistMembers | HomuraObfuscator/Obf/HOObf.swift:141-147 | a name is blacklisted exactly when it is a system symbol, `appSecret`, or a non-empty name a parsed public header declares |
| Obf.NamesOfMembers | HomuraObfuscator/Obf/HOObf.swift:151-167 | the names collected over the files are exactly the names some file gives |
| Obf.XibsMembers | HomuraObfuscator/Obf/HOObf.swift:150-168 | `xibs` holds `ViewController` and the base of every parsed file named `base.xib`, and nothing else |
| Obf.IsVendored | HomuraObfuscator/Obf/HOObf.swift:194-200 | the loop over `specifiedDirs` reports true exactly when the path contains `/ThirdLibrary/` or `/Pods/` |
| Obf.XibCompanionSkipped | HomuraObfuscator/Obf/HOObf.swift:185-192 | a file whose two-part name has a parsed `.xib` file's base as its first part is skipped |
| Obf.NewMacro | HomuraObfuscator/Obf/HOObf.swift:235-236 | after an only-if-absent insertion the key is present |
| Obf.NewMacroGrows | HomuraObfuscator/Obf/HOObf.swift:235-236 | an insertion keeps every existing key's value and adds only its own key |
| Obf.PiecesGrow | HomuraObfuscator/Obf/HOObf.swift:241-253 | over a method's pieces every key keeps its value, `properties` is unchanged, and each new key is one of the pieces and never a `set` piece |
| Obf.DeclGrows | HomuraObfuscator/Obf/HOObf.swift:209-273 | one declaration only grows the tables, and each key it adds is one of its names and not blacklisted |
| Obf.DeclsGrow | HomuraObfuscator/Obf/HOObf.swift:209-281 | over a file's declarations no key is overwritten and no blacklisted key is added |
| Obf.FilesGrow | HomuraObfuscator/Obf/HOObf.swift:175-283 | over the per-file loop no key is overwritten, the sets only grow, and no blacklisted key is added |
| Obf.MethodPieceRules | HomuraObfuscator/Obf/HOObf.swift:241-253 | a `set` piece only adds its lower-cased stem to `setMethods`; a present piece changes nothing; an absent `initWith` piece gets `initWith` plus an upper-case identifier; any other absent piece gets a lower-case identifier |
| Obf.DeclarationRules | HomuraObfuscator/Obf/HOObf.swift:232-273 | when absent, classes and protocols get an upper-case identifier and functions a lower-case one; properties, ivars and variables only enter `properties`; methods go piece by piece; other kinds change nothing |
| Obf.AdmissibleOnly | HomuraObfuscator/Obf/HOObf.swift:212-224 | keeps exactly the declarations that pass the three guards |
| Obf.InadmissibleIgnored | HomuraObfuscator/Obf/HOObf.swift:212-224 | an empty or blacklisted descriptor, or one with a blacklisted `:`-piece, contributes nothing |
| Obf.ProcessedOnly | HomuraObfuscator/Obf/HOObf.swift:178-204 | keeps exactly the files the loop does not skip |
| Obf.SkippedFilesIgnored | HomuraObfuscator/Obf/HOObf.swift:178-204 | unparsable, xib-companion and vendored files contribute nothing |
| Obf.TrimTrailingSpaces | HomuraObfuscator/Obf/HOObf.swift:297 | trimming the padding spaces off a key that does not end in a space gives the key back |
| Obf.PaddedWithSpaces | HomuraObfuscator/Obf/HOObf.swift:297 | the padded key is the key followed by spaces |
| Obf.BlockOpening | HomuraObfuscator/Obf/HOObf.swift:298 | a block starts with `#ifndef `, the padded key and a line break, then the `#define` and `#endif` lines |
| Obf.BlockNamesKey | HomuraObfuscator/Obf/HOObf.swift:297-298 | the key can be read back from its block whatever its length |
| Obf.BlockLength | HomuraObfuscator/Obf/HOObf.swift:297-298 | a block is the key padded to 30 columns twice, plus the value and 27 characters of markup |
| Obf.EmittedPrefix | HomuraObfuscator/Obf/HOObf.swift:288-300 | the loop writes the blocks of the allowed keys among a prefix of the sorted keys; the stream had space before each key of the prefix; the prefix ends at the first key where it had none, or at the last key |
| Obf.EmittedAllWithSpace | HomuraObfuscator/Obf/HOObf.swift:288-300 | a stream that never fills up receives the block of every allowed key, in order |
| Obf.BlocksMembers | HomuraObfuscator/Obf/HOObf.swift:293-299 | every block written belongs to a key that is not a property, setter stem or xib name, and carries that key's value |
| Obf.InsertByTrimmedKey | HomuraObfuscator/Obf/HOObf.swift:288-290 | inserting a key keeps the list sorted by trimmed key and free of duplicates, and adds exactly that key |
| Obf.InsertKeepsOrder | HomuraObfuscator/Obf/HOObf.swift:288-290 | a key placed between the keys ordered before it and those ordered after it keeps the list sorted and distinct |
| Obf.SortedKeys | HomuraObfuscator/Obf/HOObf.swift:288-290 | `macros.sorted(by:)` lists every key once, in non-decreasing order of the key with `_` trimmed at both ends |
| Obf.OutputSink.constructor | HomuraObfuscator/Obf/HOObf.swift:133-134 | a new stream has nothing written |
| Obf.OutputSink.HasSpaceAvailable | HomuraObfuscator/Obf/HOObf.swift:291 | `hasSpaceAvailable` is the oracle applied to what has been written |
| Obf.OutputSink.Write | HomuraObfuscator/Obf/HOObf.swift:299 | a write appends one whole block |
| Obf.Obfuscator.constructor | HomuraObfuscator/Obf/HOObf.swift:133-136 | the system symbols, an `obfuscatableSymbols()` result, hold no `""`; the obfuscator holds the project's files and stream, with empty tables |
| Obf.Obfuscator.BuildBlacklist | HomuraObfuscator/Obf/HOObf.swift:141-147 | the loop over the public headers builds exactly `Blacklist` |
| Obf.Obfuscator.DetectXibs | HomuraObfuscator/Obf/HOObf.swift:150-168 | the xib loop builds exactly `Xibs` |
| Obf.Obfuscator.Define | HomuraObfuscator/Obf/HOObf.swift:235-236 | an only-if-absent insertion with a freshly drawn identifier, as `NewMacro` |
| Obf.Obfuscator.IndexPiece | HomuraObfuscator/Obf/HOObf.swift:242-252 | one `:`-piece updates the tables as `ClassifyPiece` |
| Obf.Obfuscator.IndexPieces | HomuraObfuscator/Obf/HOObf.swift:241-253 | the `forEach` over the pieces updates the tables as `ClassifyPieces` |
| Obf.Obfuscator.IsAdmissible | HomuraObfuscator/Obf/HOObf.swift:212-224 | the guards accept exactly the non-empty, non-blacklisted descriptors with no blacklisted `:`-piece |
| Obf.Obfuscator.IndexDeclaration | HomuraObfuscator/Obf/HOObf.swift:209-275 | the indexer callback updates the tables as `ClassifyDecl` |
| Obf.Obfuscator.IndexFile | HomuraObfuscator/Obf/HOObf.swift:176-282 | one file of the loop updates the tables as `ClassifyFile` |
| Obf.Obfuscator.IndexFiles | HomuraObfuscator/Obf/HOObf.swift:175-283 | the per-file loop updates the tables as `ClassifyFiles` |
| Obf.Obfuscator.Emit | HomuraObfuscator/Obf/HOObf.swift:288-300 | the emission loop writes exactly `Emitted` |
| Obf.Obfuscator.Analyse | HomuraObfuscator/Obf/HOObf.swift:138-303 | the blacklist, xibs and tables are those of the specification with `""` removed from `macros`, and the stream receives `Emitted` over an order of the keys sorted by trimmed key |
| Obf.Obfuscator.Prepare | HomuraObfuscator/Obf/HOObf.swift:141-285 | before writing, the blacklist, xibs and tables are those of the specification, without the `""` key |
| Obf.Obfuscator.Publish | HomuraObfuscator/Obf/HOObf.swift:287-300 | the stream receives `Emitted` over an order of the keys sorted by trimmed key |
| Obf.Obfuscator.ClassifyAll | HomuraObfuscator/Obf/HOObf.swift:170-283 | starting from empty tables with a fresh generator, the files are classified as `Classified` says |
| Obf.EmittedKeysAreSafe | HomuraObfuscator/Obf/HOObf.swift:141-300 | whatever the order of tied keys and whenever the stream fills, each block written belongs to a key that is non-empty, not blacklisted, not a property, setter stem or xib name, and carries that key's value |
| StringUtils.RandomElement | HomuraObfuscator/Obf/HOStringUtils.swift:11-16 | nil exactly for an empty collection, otherwise one of its elements |
| StringUtils.TitleUpperCased | HomuraObfuscator/Obf/HOStringUtils.swift:20-22 | the first character upper-cased, the rest unchanged; requires a non-empty string because `first!` traps |
| StringUtils.TitleUpperCasedIdempotent | HomuraObfuscator/Obf/HOStringUtils.swift:20-22 | title-casing twice is title-casing once |
| StringUtils.TitleUpperCase | HomuraObfuscator/Obf/HOStringUtils.swift:24-26 | the mutating form replaces the string by its title-cased form |
| StringUtils.Identifier | HomuraObfuscator/Obf/HOStringUtils.swift:41-52 | `""` for an empty word list, otherwise `len + 1` dictionary words run together, the later ones title-cased |
| StringUtils.IdentifierUpperIsTitled | HomuraObfuscator/Obf/HOStringUtils.swift:43-45 | with `upper` the identifier is the lower form with its first word title-cased |
| StringUtils.IdentifierLength | HomuraObfuscator/Obf/HOStringUtils.swift:41-52 | an identifier is exactly as long as its words together |
| StringUtils.DefaultIdentifierHasFiveWords | HomuraObfuscator/Obf/HOStringUtils.swift:41 | the default `len = 4` gives identifiers of five words |
| StringUtils.NonEmptyWords | HomuraObfuscator/Obf/HOStringUtils.swift:36 | the word list keeps exactly the non-empty components |
| StringUtils.Generator.constructor | HomuraObfuscator/Obf/HOStringUtils.swift:30-39 | the generator holds the non-empty dictionary words and has drawn nothing |
| StringUtils.Generator.RandomWord | HomuraObfuscator/Obf/HOStringUtils.swift:11-16 | `words.randomElement()` with the next oracle number, drawing one only when there are words |
| StringUtils.Generator.RandomIdentifier | HomuraObfuscator/Obf/HOStringUtils.swift:41-52 | the loop builds `Identifier` from the next `len + 1` oracle numbers, or `""` without drawing on an empty list |
| StringExtensions.Split | HomuraObfuscator/CommandLine/HOStringExtensions.swift:35-53 | the specification of `split(by:maxSplits:)`: cuts at separators while the budget lasts, with no trailing empty piece |
| StringExtensions.SplitLoopCuts | HomuraObfuscator/CommandLine/HOStringExtensions.swift:39-50 | the loop state at any index leads to the pieces found so far followed by the cuts of the rest |
| StringExtensions.SplitBy | HomuraObfuscator/CommandLine/HOStringExtensions.swift:35-53 | the loop with `curIdx` and `numSplits` returns `Split` |
| StringExtensions.CutEmpty | HomuraObfuscator/CommandLine/HOStringExtensions.swift:48-50 | no pieces exactly for the empty string |
| StringExtensions.CutJoin | HomuraObfuscator/CommandLine/HOStringExtensions.swift:35-53 | joining the cuts of a string that does not end in the separator restores it |
| StringExtensions.SplitJoin | HomuraObfuscator/CommandLine/HOStringExtensions.swift:35-53 | for `s` not ending in `c`, joining `split(by: c)` with `c` gives back `s`, for any `maxSplits` |
| StringExtensions.SplitUnlimited | HomuraObfuscator/CommandLine/HOStringExtensions.swift:41 | with `maxSplits == 0` no piece contains the separator |
| StringExtensions.SplitBounded | HomuraObfuscator/CommandLine/HOStringExtensions.swift:41 | with `maxSplits > 0` at most `maxSplits` cuts are made |
| StringExtensions.SplitEdges | HomuraObfuscator/CommandLine/HOStringExtensions.swift:35-53 | a leading separator gives a leading `""`, the lone separator gives `[""]`, the empty string gives `[]` |
| StringExtensions.Padded | HomuraObfuscator/CommandLine/HOStringExtensions.swift:55-63 | the string followed by the pad character up to `width`, with length `max(count, width)` |
| StringExtensions.PadTo | HomuraObfuscator/CommandLine/HOStringExtensions.swift:55-63 | the `currlen` loop returns `Padded` |
| StringExtensions.PaddedIdempotent | HomuraObfuscator/CommandLine/HOStringExtensions.swift:55-63 | padding a padded string to the same width changes nothing |
| StringExtensions.Wrap | HomuraObfuscator/CommandLine/HOStringExtensions.swift:65-84 | the `currLineWidth` loop returns `Wrapped` |
| StringExtensions.WrapWordsAt | HomuraObfuscator/CommandLine/HOStringExtensions.swift:70-81 | each word is written with its separator; when `currLineWidth + wordLen + 1 > width` a break goes before it (and, for a word at least `width` long, a copy of the word before the break) and the line width restarts at `wordLen + 1`; otherwise the line width grows by `wordLen + 1` |
| StringExtensions.WrapFits | HomuraObfuscator/CommandLine/HOStringExtensions.swift:65-84 | words that fit on the current line are written with no break, each followed by the separator |
| StringExtensions.WrapOnlyInsertsBreaks | HomuraObfuscator/CommandLine/HOStringExtensions.swift:65-84 | when every word is shorter than the width, removing the breaks gives every word followed by the separator |
| StringExtensions.LongWordWrittenTwice | HomuraObfuscator/CommandLine/HOStringExtensions.swift:70-73 | a word at least as long as the width that causes a break is written before and after the break |
| StringExtensions.WrappedShortLine | HomuraObfuscator/CommandLine/HOStringExtensions.swift:65-84 | text that fits on one line comes back with one trailing separator |
| StringExtensions.SpacedJoin | HomuraObfuscator/CommandLine/HOStringExtensions.swift:79-81 | writing each word followed by the separator is the join plus one trailing separator |
| Options.Initial | HomuraObfuscator/CommandLine/HOOption.swift:24-26 | a new option of any kind is unset and has claimed nothing |
| Options.SetValue | HomuraObfuscator/CommandLine/HOOption.swift:73-306 | `setValue` never changes an option's kind, a refusal leaves the value as it was, and an accepted value claims at most the values given |
| Options.PlainRefuses | HomuraObfuscator/CommandLine/HOOption.swift:24-26 | the base option refuses every value and is never set |
| Options.BoolAlwaysSet | HomuraObfuscator/CommandLine/HOOption.swift:85-92 | a Bool option accepts anything and is then set |
| Options.CounterCounts | HomuraObfuscator/CommandLine/HOOption.swift:139-150 | each counter call adds one and succeeds; the counter is set exactly when positive |
| Options.EmptyValuesRefused | HomuraObfuscator/CommandLine/HOOption.swift:118-121 | every kind that takes values refuses an empty list and keeps its value |
| Options.IntStoresParsed | HomuraObfuscator/CommandLine/HOOption.swift:118-129 | an Int option accepts exactly a first value that parses as a 64-bit integer, and stores it |
| Options.IntRoundTrip | HomuraObfuscator/CommandLine/HOOption.swift:118-129 | an Int option given an integer's decimal text stores that integer |
| Options.StringsStored | HomuraObfuscator/CommandLine/HOOption.swift:213-253 | a String option stores the first value; a MultiString option stores the whole list and claims its length |
| Options.EnumAcceptsUnknown | HomuraObfuscator/CommandLine/HOOption.swift:295-306 | an Enum option refuses only an empty list; a first value naming no case is accepted and leaves the value as it was |
| Options.ClaimedIffSet | HomuraObfuscator/CommandLine/HOOption.swift:205-211 | for Int, String and Enum options one value is claimed exactly when the option is set |
| Options.AcceptedIsSet | HomuraObfuscator/CommandLine/HOOption.swift:89-253 | an accepted value makes the option set, except an Enum value naming no case |
| Options.FlagDescription | HomuraObfuscator/CommandLine/HOOption.swift:28-39 | `-s, --long`, `--long`, `-s` or `""` according to the flags present |
| Options.FlagDescriptionLength | HomuraObfuscator/CommandLine/HOOption.swift:28-39 | the description's length is each present flag with its prefix, plus two for `, ` between two flags |
| Options.MatchedFlagDescribed | HomuraObfuscator/CommandLine/HOOption.swift:69-71 | a matched flag appears in the description after a dash |
| Options.FlaglessNeverMatches | HomuraObfuscator/CommandLine/HOOption.swift:69-71 | an option without flags matches nothing |
| Options.CLOption.constructor | HomuraObfuscator/CommandLine/HOOption.swift:41-55 | a short flag is one character and neither flag is an integer; the option keeps its flags and starts unset |
| Options.CLOption.Set | HomuraObfuscator/CommandLine/HOOption.swift:73-306 | `setValue` updates the stored value in place as `SetValue` says and returns whether it accepted |
| Options.CLOption.Reset | HomuraObfuscator/CommandLine/HOOption.swift:143-145 | `reset` sets a counter to zero |
| CommandLine.Following | HomuraObfuscator/CommandLine/HOCommandLine.swift:91-104 | the loop of `_getFlagValues` takes at most the remaining arguments |
| CommandLine.FlagValues | HomuraObfuscator/CommandLine/HOCommandLine.swift:83-107 | the attached value comes first, and the values never outnumber it plus the remaining arguments |
| CommandLine.TakesAllAfterStopper | HomuraObfuscator/CommandLine/HOCommandLine.swift:92-96 | after `--` every remaining argument is a value |
| CommandLine.FollowingShape | HomuraObfuscator/CommandLine/HOCommandLine.swift:91-104 | the values are the arguments up to the first `--` (dropped, and everything after it taken) or the first non-numeric `-` argument (excluded) |
| CommandLine.UsedFlags | HomuraObfuscator/CommandLine/HOCommandLine.swift:22-32 | `_usedFlags` is exactly the flags of the registered options |
| CommandLine.AppendDisjoint | HomuraObfuscator/CommandLine/HOCommandLine.swift:109-117 | appending an option keeps all flags distinct exactly when the assertion of `addOption` holds |
| CommandLine.FlagWidth | HomuraObfuscator/CommandLine/HOCommandLine.swift:38-44 | the column width is the longest description's length, or 0 with no options |
| CommandLine.FlagWidthAsWritten | HomuraObfuscator/CommandLine/HOCommandLine.swift:40 | `sorted().first` is the shortest description's length, or 0 with no options |
| CommandLine.FlagColumnsAligned | HomuraObfuscator/CommandLine/HOCommandLine.swift:227-228 | with the longest width every flag line puts its description at column 2 and its `:` at column `width + 2` |
| CommandLine.ShortestWidthMisaligns | HomuraObfuscator/CommandLine/HOCommandLine.swift:38-44 | with the shortest width, `-h` and `-o, --output` put their `:` at different columns |
| CommandLine.FirstMatch | HomuraObfuscator/CommandLine/HOCommandLine.swift:164 | the first option that matches the flag, which has a flag; no earlier option matches |
| CommandLine.AttacherSplit | HomuraObfuscator/CommandLine/HOCommandLine.swift:160 | `split(by: "=", maxSplits: 1)` gives the text whole without `=`, else the text before the first `=` and the rest, if any |
| CommandLine.SplitAttached | HomuraObfuscator/CommandLine/HOCommandLine.swift:160-162 | the flag has no `=`, and the flag, `=` and the attached value make up the flag text |
| CommandLine.SplitFlag | HomuraObfuscator/CommandLine/HOCommandLine.swift:160-162 | the split that `parse` runs gives `SplitAttached` |
| CommandLine.Blank | HomuraObfuscator/CommandLine/HOCommandLine.swift:175-177 | exactly positions `lo` to `hi` become `""` |
| CommandLine.Claim | HomuraObfuscator/CommandLine/HOCommandLine.swift:165-178 | the specification of one matched option; it keeps the shapes of values and strays (its meaning is `ClaimEffect`) |
| CommandLine.ClaimEffect | HomuraObfuscator/CommandLine/HOCommandLine.swift:165-178 | a refusal is `InvalidValueForOption` and changes nothing; otherwise only the matched option changes, to what `setValue` gives, only the consumed strays are blanked, and only the unguarded claim traps |
| CommandLine.Cluster | HomuraObfuscator/CommandLine/HOCommandLine.swift:186-205 | the specification of the cluster loop; it keeps the shapes of values and strays (its meaning is `ClusterEffect`) |
| CommandLine.ClusterEffect | HomuraObfuscator/CommandLine/HOCommandLine.swift:186-205 | the cluster loop fails only after a match, by a refused value or (unguarded) a trap, and matches exactly when some character names an option |
| CommandLine.ScanArg | HomuraObfuscator/CommandLine/HOCommandLine.swift:146-210 | the specification of one argument; it keeps the shapes of values and strays (its meaning is `ScanArgEffect`) |
| CommandLine.ScanFlag | HomuraObfuscator/CommandLine/HOCommandLine.swift:160-210 | the specification of one flag; it keeps the shapes of values and strays |
| CommandLine.ScanArgEffect | HomuraObfuscator/CommandLine/HOCommandLine.swift:146-210 | plain arguments and a bare `-` or `--` change nothing; strict mode refuses exactly the unrecognised arguments; other errors are a refused value or (unguarded) a trap |
| CommandLine.Scan | HomuraObfuscator/CommandLine/HOCommandLine.swift:144-211 | the specification of the argument loop; it keeps the shapes of values and strays (its meaning is `ScanEffect`) |
| CommandLine.ScanEffect | HomuraObfuscator/CommandLine/HOCommandLine.swift:144-211 | the argument loop keeps every stray its argument or blank, and ends in error only by a refused value, an unrecognised argument in strict mode, or (unguarded) a trap |
| CommandLine.StopperEndsScan | HomuraObfuscator/CommandLine/HOCommandLine.swift:146-148 | nothing after the first `--` is scanned |
| CommandLine.MissingAmong | HomuraObfuscator/CommandLine/HOCommandLine.swift:213 | the missing options are exactly the required ones not set, in registry order |
| CommandLine.NonEmptyArgs | HomuraObfuscator/CommandLine/HOCommandLine.swift:218 | the filter keeps exactly the non-empty strays |
| CommandLine.ParseResultOf | HomuraObfuscator/CommandLine/HOCommandLine.swift:141-219 | the specification of `parse(strict:)`; there is one value per option afterwards |
| CommandLine.ParseResultProperties | HomuraObfuscator/CommandLine/HOCommandLine.swift:141-219 | the guarded parse never traps; only strict mode refuses arguments, and only unrecognised ones; success leaves every required option set and reports only non-empty arguments other than the program name; a missing-options error lists exactly the required options left unset |
| CommandLine.ClusteredAttachedValueTraps | HomuraObfuscator/CommandLine/HOCommandLine.swift:194-200 | as written, `prog -vx=3` with a Bool option `-v` traps on the inverted range |
| CommandLine.ClusteredAttachedValueParses | HomuraObfuscator/CommandLine/HOCommandLine.swift:174-178 | with the guard of line 174, the same arguments parse: `v` is set and `-vx=3` stays unparsed |
| CommandLine.Parser.constructor | HomuraObfuscator/CommandLine/HOCommandLine.swift:78-81 | a new parser keeps its arguments and has no options, no cached width and nothing unparsed |
| CommandLine.Parser.AddOption | HomuraObfuscator/CommandLine/HOCommandLine.swift:109-117 | with its flags unused, the option is appended and the cached width reset |
| CommandLine.Parser.AddOptions | HomuraObfuscator/CommandLine/HOCommandLine.swift:119-123 | the options are appended in order; the cache is reset unless the list is empty |
| CommandLine.Parser.SetOptions | HomuraObfuscator/CommandLine/HOCommandLine.swift:131-134 | the options are replaced by the list; an empty list keeps the stale cache |
| CommandLine.Parser.MaxFlagDescriptionWidth | HomuraObfuscator/CommandLine/HOCommandLine.swift:38-44 | the cache is recomputed only while it is 0, and with options the width is the corrected one, the longest description's length (the source's is the shortest) |
| CommandLine.Parser.DefaultFormat | HomuraObfuscator/CommandLine/HOCommandLine.swift:221-232 | the four output formats; only the flag line reads, and may fill, the width cache, padding to the corrected width |
| CommandLine.Parser.FlaggedOptionIsUnique | HomuraObfuscator/CommandLine/HOCommandLine.swift:109-117 | with distinct flags, an option with a flag is registered once |
| CommandLine.Parser.GetFlagValues | HomuraObfuscator/CommandLine/HOCommandLine.swift:83-107 | the `skipFlagChecks` loop returns `FlagValues` |
| CommandLine.Parser.FirstMatchIndex | HomuraObfuscator/CommandLine/HOCommandLine.swift:164 | the options loop finds `FirstMatch` |
| CommandLine.Parser.ClaimFor | HomuraObfuscator/CommandLine/HOCommandLine.swift:166-178 | the option takes the values in place and the strays are blanked as `Claim` says |
| CommandLine.Parser.ClusterChar | HomuraObfuscator/CommandLine/HOCommandLine.swift:188-204 | one character of the cluster loop takes the step `Cluster` takes |
| CommandLine.Parser.ClusterFor | HomuraObfuscator/CommandLine/HOCommandLine.swift:186-205 | the cluster loop, with the guard, reaches the result of `Cluster` |
| CommandLine.Parser.ScanArgument | HomuraObfuscator/CommandLine/HOCommandLine.swift:150-210 | one pass of the loop body takes the step `Scan` takes |
| CommandLine.Parser.ScanFlagFor | HomuraObfuscator/CommandLine/HOCommandLine.swift:160-210 | the rest of the loop body gives `ScanFlag` |
| CommandLine.Parser.Parse | HomuraObfuscator/CommandLine/HOCommandLine.swift:141-219 | the outcome and the options' values are those of the guarded `ParseResultOf`; `unparsedArguments` is assigned only on success |

## Left out

- Clang indexing is not modelled. `TranslationUnit`, `Index`, cursor kinds, `indexTranslationUnit` and `clangArgs` are a foreign library. Each file is an optional `IndexRun`: `None` when the translation unit cannot be created, otherwise the declarations reported and whether indexing failed.
- The system symbol set built from the `#import` source is an input set. It comes from running Clang. Like every `obfuscatableSymbols()` result it never holds `""`, which the `Obfuscator` constructor requires of it.
- The `XcodeProj/HOXcodeProj.swift` wrapper is not part of this model. Public headers are one list of files, and `sources ∪ internalHeaders` is another, in the order the set is iterated.
- `main.swift` is not part of this model: it is argument injection, file opening and exit codes.
- `HOPlatform.sdk` only builds a path and is not modelled.
- `toDouble`, `_localDecimalPoint` and `HODoubleOption` depend on `Double` parsing and the C locale. "Is a double" is the oracle `isDouble` of the parser, and the Double option kind is left out.
- Randomness is an oracle. `arc4random_uniform` is the index oracle `draw`, and the dictionary file is a given list of components.
- Text.Upper and Text.Lower map ASCII letters only. Unicode case mapping is not modelled.
- Strings are sequences of Unicode scalars. Swift's `count` counts grapheme clusters, and its `==`, `<`, `hasPrefix` and `Set` membership use canonical equivalence; neither is modelled. This affects `padded`, `wrapped`, the one-character short flag of `HOOption`'s initialiser, `flagDescription.count` and the cluster loop's `flag.count` and `flag.enumerated()`. For ASCII identifiers and flags the two agree.
- The output stream is modelled only as the list of whole blocks written plus a has-space oracle. These are not modelled:
  - bytes versus characters in `write(_:maxLength:)`;
  - partial writes;
  - `deinit` closing the stream;
  - the `print` diagnostics.
- `printUsage`, `formatOutput` and the stderr stream are output and are not modelled. `defaultFormat` is.
- `setlocale` in the `HOCommandLine` initialiser is not modelled.
- `HOParseError.description` only formats messages and is not modelled. `Outcome` names options by their position in the registry.
- Obf.SortedKeys: keys that trim to the same text are in no particular order. The comparator is a strict `<` on the trimmed keys, and the order Swift's sort gives tied keys is not modelled.
- StringUtils.Generator.RandomIdentifier: generated names are not claimed to be distinct, since the code never checks them.
- StringExtensions.SplitBounded: states only the count of pieces when `maxSplits > 0`. That later separators stay in the last piece follows with SplitJoin and is stated outright only for `maxSplits == 1`, in CommandLine.AttacherSplit.
- CommandLine.Parser.Parse: requires at least one argument, since `strays[0] = ""` traps on an empty list.
- CommandLine.Parser.MaxFlagDescriptionWidth and CommandLine.Parser.DefaultFormat use the corrected width `FlagWidth`, the longest description's length. The source's `sorted().first` is the shortest, `FlagWidthAsWritten` (see Findings).
- CommandLine.Parser.Parse, CommandLine.Parser.ClusterChar and CommandLine.Parser.ClusterFor run the guarded cluster loop. The unguarded trap is stated about `ParseResultOf` (see Findings).
- Options.CLOption.constructor: the initialiser's assertions also reject flags that `toDouble` reads as a number; the model checks only the integer part, since `toDouble` is not modelled.
- `addOption`'s `assert` is a precondition of CommandLine.Parser.AddOption. In release builds the Swift assertion is removed, and duplicate flags would be accepted.
- `addOptions(_: HOOption...)` and `setOptions(_: HOOption...)` are the same as the array forms and share their members.

## Findings

| source | as written | input that shows it | evidently intended | confidence | as-written member | corrected member |
|---|---|---|---|---|---|---|
| HomuraObfuscator/CommandLine/HOCommandLine.swift:38-44 | `maxFlagDescriptionWidth` takes `sorted().first`, the shortest description's length | options `-h` and `-o, --output`: width 2, so the second flag line's `:` is pushed right | the longest description's length, so the `:` of every flag line is in one column | not executed | CommandLine.ShortestWidthMisaligns | CommandLine.FlagColumnsAligned |
| HomuraObfuscator/CommandLine/HOCommandLine.swift:194-200 | the cluster loop blanks `idx ... claimedIdx` without the `claimedIdx >= idx` test of line 174 | `prog -vx=3` with a Bool option `-v`: `claimedIdx` is 0 below `idx` 1, and the range traps | skip the blanking when `claimedIdx < idx`, as line 174 does | not executed | CommandLine.ClusteredAttachedValueTraps | CommandLine.ClusteredAttachedValueParses |
