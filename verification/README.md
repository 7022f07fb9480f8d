# Verified model of Fast DDS Spy

This project models, in Dafny, the parts of Fast DDS Spy that carry the most state and the most
branching, and proves what they promise.

**The command-line engine** (`thirdparty/optionparser/optionparser.h`). `OptionTable.dfy` has
the text comparisons and table searches. `OptionSyntax.dfy` says what an argument vector
*means*: `Run` is one pass over a list of strings, with the options it performs, how it ends,
and where every string goes; `OptionMeaning.dfy` says the same without any search or scan, so
that what the pass computes is told independently of how. `ParserLoop.dfy` is the loop itself,
on an array, with the pointer arithmetic and the in-place rotations of the source, proved to do
what `Run` says for both actions the source passes to it. `OptionRing.dfy` and `OptionStore.dfy`
are the tagged, circular lists and the two arrays options are stored in. `TwoPass.dfy` puts
`Stats` and `Parser` together: the first pass sizes the arrays the second one fills.
`Reparse.dfy` and `Reordering.dfy` prove what a second pass over a reordered vector sees,
`Sizing.dfy` and `Chains.dfy` how many options it performs. `ToolArguments.dfy` is the tool's
own table and `parse_arguments` on top of all that, `ToolMeaning.dfy` which spelling sets what,
which text is which number, and which result a command line has.

**The usage printer** of the same header. `Utf8.dfy` is the decoding step behind screen widths,
`LineGrid.dfy` the grid of lines and cells a row of help text stands for, `LineParts.dfy` the
iterator that finds the parts of the grid by scanning the text again and again,
`ColumnWidths.dfy` the search for column widths that fit and the layout it gives, `Display.dfy`
what is written and where on the screen that is, `Wrapping.dfy` the word wrapper with its
16-slot ring, `PrintRow.dfy` the loops that print one row, `LineBreaks.dfy` where they start a
new line, `PrintUsage.dfy` the loops over rows and tables that make it a whole.
`GridMeaning.dfy`, `LayoutMeaning.dfy` and `PrintMeaning.dfy` tie all that to the bytes of the
usage and to plain arithmetic.

**The instance cache** (`fastddsspy_participants`). `CacheState.dfy` is the class, one method
per lock section. `CacheProtocol.dfy` lets any number of threads interleave those sections with
discovery; `CacheTrace.dfy` relates every run to the sequence of its effects; `CacheLimit.dfy`
shows that the bound on instances is reached, `CacheKeys.dfy` which key texts and key fields are
stored. `Streaming.dfy` is the streamer that feeds the cache and calls the user's callback.

**The views.** `JsonPrinter.dfy` is the recursive JSON printer with a lexer and a parser to read
its output back, `JsonLayout.dfy` the rule for its line breaks and spaces. `Endpoints.dfy` is
the partition filter and its character scan, `EndpointHistory.dfy` what filter and discovery
together do to the endpoint database, `UpdateSteps.dfy` what they do when an update is not one
step, `ModelParser.dfy` the grouping and counting of endpoints, `ViewMeaning.dfy` what they
select from the database.

Run `dafny verify dfyconfig.toml` in this directory to check everything.

## Reading the model

Text is a sequence without terminator: the character at the terminating 0 is the end of the
sequence. A pointer that may be NULL is a `Nullable`, or an index that may be `NULL`. The
sentinel that closes an option table is the end of the `usage` sequence. A separate argument
(`optarg == args[1]` in the source) is a flag. A tagged pointer is a reference and a Boolean.
Functions the source calls but does not contain (pattern matching, key serialisation, name
demangling, file access) are parameters, so every theorem holds for all of them.

Methods are proved against functions on values; the lemmas say what those functions promise.
Ghost parameters such as `st`, `now` or `rest` carry such values alongside the program state.

## Where code and documentation disagree

- The comment at `optionparser.h:1265-1267` says that a vector reordered once may be parsed
  again without the GNU flag. It holds for every vector exactly when the table is *settled*
  (`Reordering.StableExactlyWhenSettled`); `Reordering.UnstableForOptionalArgument` gives a
  table and a vector for which it fails. The tool's own table is settled.
- `Stats::buffer_max` is documented as the size needed to parse "the same argument vectors"
  (`optionparser.h:990-1000`). A GNU pass moves strings, so its own count can be too small for
  the vector it leaves: `Sizing.GreedyOverruns`. For which tables this cannot happen is decided by
  chains of words that take one another: `Chains.NoMoreExactlyWhenBalanced`. What a caller can
  check option by option is whether the table is *steady* or, weaker, *modest*
  (`Sizing.SteadyIsModest`, `Sizing.ModestIsHarmless`); the tool's table is. In POSIX mode, which
  the tool uses, it cannot happen at all.
- `MAX_INSTANCES_PER_TOPIC` is checked before the lock is dropped and not again after it is
  retaken. The limit holds in all runs exactly for at most one adding thread
  (`CacheLimit.LimitHoldsForOneThread`); with n threads the sharp bound is 1000 + n - 1.
- A writer that discovery has reported as gone can stay listed with an instance: until the
  second call of the report is made (`CacheTrace.ReportedNotYetRemoved`), and for good if its
  sample was being serialised meanwhile (`CacheTrace.RemovedWriterCanStay`). After the removal it
  is listed if and only if a sample was registered later than it (`CacheTrace.RemovedButListed`).
- An endpoint that discovery has reported as gone is shown again by the next update of the
  partition filter that it passes, and by every update without a filter
  (`EndpointHistory.DepartedShownAgain`).
- The second loop of `update_endpoints` copies an entry in one call and writes the copy back in
  another. A report between the two is lost, and no other (`UpdateSteps.LostExactly`,
  `UpdateSteps.ReportIsLost`).
- `indent` is documented to set its cursor to the wanted column (`optionparser.h:2170-2176`). It
  does so exactly if that column is positive or no line break is due (`Display.Indent`). The usage
  printer meets the other case: for the row `aaaaaaaaaaaa\tb\tc` on 10 columns the third part
  goes to a new line although it fits (`LineBreaks.NeedlessBreak`). Exactly when that happens is
  `LineBreaks.NeedlessExactly`; no part ever misses its tab stop for it (`PrintRow.PrintOneRow`).
- With 2^31 - 1 options or more, `Stats` stops counting, and the sentinel slot of the buffer is
  used (`TwoPass.ParseMeasured`); one string of that many flags is enough
  (`TwoPass.SentinelIsUsed`).

## Model

| member | source | states |
|---|---|---|
| OptionTable.StrEq | thirdparty/optionparser/optionparser.h:1482-1494 | The character loop accepts a name exactly if the long option is a prefix of it that ends there or at '='. |
| OptionTable.StrEqAbbr | thirdparty/optionparser/optionparser.h:1520-1533 | The loop decides by the longest common prefix: all of the long option, or at least `min` characters of it, and then the end of the name or '='. |
| OptionTable.AbbreviationExtendsExact | thirdparty/optionparser/optionparser.h:1498-1519 | A full match is an abbreviation match for every minimum; with abbreviations off the two are the same. |
| OptionTable.InStr | thirdparty/optionparser/optionparser.h:1541-1550 | The loop finds a character exactly if the short option text contains it. |
| OptionTable.FirstIsFirst | thirdparty/optionparser/optionparser.h:1848-1852 | A table search ends at the first entry that matches, or behind the table if none does. |
| OptionTable.SearchLong | thirdparty/optionparser/optionparser.h:1848-1875 | The three scan loops compute `FindLong`. |
| OptionTable.LongIsExactOrUnambiguous | thirdparty/optionparser/optionparser.h:1285-1289 | An exact match wins and is the first one; any other hit is the one and only abbreviation in the table, and abbreviations are on. |
| OptionSyntax.RunInterleaves | thirdparty/optionparser/optionparser.h:1259-1267 | A pass only moves strings: consumed strings and non-options each keep their order, together they are all strings, and what was skipped are non-options. |
| OptionSyntax.RunPermutes | thirdparty/optionparser/optionparser.h:1552-1567 | The vector after a pass is a permutation of the vector before. |
| OptionMeaning.WordKinds | thirdparty/optionparser/optionparser.h:1791-1821 | "--" alone ends the options; an option is anything else that begins with a minus and is longer than it; the empty string and the lone minus are non-options. |
| OptionMeaning.LongIsFound | thirdparty/optionparser/optionparser.h:1848-1937 | A long option belongs to the first row with that name, alone or in front of '='; otherwise to the only row it abbreviates, if abbreviations are on; otherwise to the first row without names, or to none. |
| OptionMeaning.ShortIsFound | thirdparty/optionparser/optionparser.h:1905-1937 | A short option belongs to the first row that lists the character; an unknown one to the first row without names, or to none. |
| OptionMeaning.WordIsRead | thirdparty/optionparser/optionparser.h:1823-1974 | Every option word is read as that relation says: its row is asked with the argument behind '=' or behind the letter or with the next string; it is rejected, performed with it, or performed without; without a row it is dropped; a group goes on behind each letter that takes nothing. |
| OptionMeaning.PassIsRead | thirdparty/optionparser/optionparser.h:1791-1981 | For every table, mode and vector the pass performs exactly the options, gives the verdict and reports the non-options that reading the strings one after the other gives. |
| OptionMeaning.NameLengthIs | thirdparty/optionparser/optionparser.h:853-877 | The name of an option is one character, or everything in front of the first '='. |
| ParserLoop.Workhorse | thirdparty/optionparser/optionparser.h:1769-2001 | For every table, mode, vector and action: the loop succeeds exactly if the pass does and no option is refused, performs the pass's options in order up to a refused one, leaves the vector as the pass says with everything behind the parsed strings untouched, reports the non-options, moves nothing in POSIX mode, and ends. |
| ParserLoop.HandleWord | thirdparty/optionparser/optionparser.h:1823-1974 | The inner loop over one option word performs exactly the options `ParseWord` gives, in order, and takes the next string exactly if `ParseWord` does. |
| ParserLoop.Shift | thirdparty/optionparser/optionparser.h:1552-1567 | The swaps rotate: element `at` moves in front of the `count` elements before it, the rest stays. |
| ParserLoop.Consume | thirdparty/optionparser/optionparser.h:1946-1981 | After an option, one or two strings have moved in front of the skipped ones; the vector is again consumed strings, skipped strings, untouched suffix. |
| ParserLoop.Finish | thirdparty/optionparser/optionparser.h:1985-2000 | The corrected or completed count, and the pointer, describe exactly skipped strings plus rest. |
| ParserLoop.TerminatorStep | thirdparty/optionparser/optionparser.h:1811-1821 | "--" is moved before the skipped strings and is not among the non-options. |
| ParserLoop.WordProgress | thirdparty/optionparser/optionparser.h:1839-1981 | One option word takes the loop invariant to the next one; a rejected or refused word ends the loop with what the whole pass performs. |
| ParserLoop.PosixMovesNothing | thirdparty/optionparser/optionparser.h:1791-1809 | In POSIX mode every string stays where it was and nothing is skipped. |
| ParserLoop.CountOrTerminator | thirdparty/optionparser/optionparser.h:1270-1274 | An argument count of -1 on a NULL-terminated vector means the exact count. |
| ParserLoop.HonestCount | thirdparty/optionparser/optionparser.h:1985-1998 | The reported number is the number of non-options if and only if the caller's count is honest or negative or no string is left over; an overlong count with strings left over makes it wrong. |
| ParserLoop.PerformAllIs | thirdparty/optionparser/optionparser.h:1632-1641 | Performing options one by one accepts all of them up to the overflow guard, in order, and fails exactly beyond it. |
| Reparse.WordKeeps | thirdparty/optionparser/optionparser.h:1941-1966 | With steady checks an accepted word means the same whatever string follows it, unless it takes that string. |
| Reparse.Replay | thirdparty/optionparser/optionparser.h:1262-1267 | With steady checks the consumed strings of a GNU pass, put before any tail, are consumed again with the same options, in either mode. |
| Reparse.RejectionIsStable | thirdparty/optionparser/optionparser.h:1944-1945 | With steady checks a rejected GNU pass is rejected again after the same options; a POSIX pass performs no others. |
| Reparse.GroupingIsNotation | thirdparty/optionparser/optionparser.h:166 | `-XYt` performs the same options with the same arguments, and reports the same non-options, as `-X -Y -t`, when the options before the last take no argument, no option character is '-', and single-minus long options are off. |
| Reparse.PassObeys | thirdparty/optionparser/optionparser.h:1941-1966 | Every performed option is in the table and its check accepted its argument, or accepted or declined its absence. |
| Reordering.WordTakes | thirdparty/optionparser/optionparser.h:1942-1966 | A word that leaves one following string alone either is the same word before another string or takes that string as the argument of its last option. |
| Reordering.SettledIsStable | thirdparty/optionparser/optionparser.h:1262-1267 | For a settled table, a second pass over the vector a successful GNU pass left, in either mode, performs the same options, reports the same non-options and moves nothing. |
| Reordering.SteadyIsSettled | fastddsspy_tool/src/cpp/user_interface/arguments_configuration.cpp:336-450 | A table whose checks each never take or always need a separate argument, such as the tool's, is settled. |
| Reordering.ReorderingIsStable | thirdparty/optionparser/optionparser.h:1262-1267 | The same whenever each check, asked about a separate argument, either never takes one or always needs one. |
| Reordering.StableExactlyWhenSettled | thirdparty/optionparser/optionparser.h:1262-1267 | The documented claim holds for all vectors if and only if the table is settled: a word that leaves what is behind it alone also leaves alone what reordering can put there. |
| Reordering.UnstableForOptionalArgument | thirdparty/optionparser/optionparser.h:1265-1267 | With one option that takes a separate argument but does without one, `5 -x` gives the option without argument and the non-option 5; the vector it leaves, parsed again in either mode, gives the option with argument 5 and no non-option. |
| OptionRing.Option.Init | thirdparty/optionparser/optionparser.h:853-877 | The option holds the given values and the length of its name, as a list of its own. |
| OptionRing.Option.First | thirdparty/optionparser/optionparser.h:613-621 | From any element the walk back over untagged pointers ends at the first one. |
| OptionRing.Option.Last | thirdparty/optionparser/optionparser.h:647-650 | The last element, from any element. |
| OptionRing.Option.Next | thirdparty/optionparser/optionparser.h:702-705 | The next element of the list, NULL behind the last. |
| OptionRing.Option.Prev | thirdparty/optionparser/optionparser.h:668-671 | The previous element of the list, NULL before the first. |
| OptionRing.Option.Count | thirdparty/optionparser/optionparser.h:564-574 | The number of elements, from any element; 0 for an unused option. |
| OptionRing.Option.Append | thirdparty/optionparser/optionparser.h:738-747 | Appending through any element gives the list with the new element last, contents untouched. |
| OptionStore.CountOptionsAction.Perform | thirdparty/optionparser/optionparser.h:1632-1641 | Counts an option unless the count is at 2^31 - 1. |
| OptionStore.StoreOptionAction.constructor | thirdparty/optionparser/optionparser.h:1666-1685 | The scan stops at the first unused slot or at the bound, so parsing goes on behind what the arrays contain, and stores nothing if they contain the bound or more already. |
| OptionStore.StoreOptionAction.Perform | thirdparty/optionparser/optionparser.h:1687-1710 | Stays inside both arrays, stores the option behind the ones before, drops it silently if a bounded buffer is full, and refuses it only at the overflow guard. |
| OptionStore.KeptIs | thirdparty/optionparser/optionparser.h:1687-1710 | What is kept is a beginning of everything, up to the bound or what exceeded it before. |
| OptionStore.StoreInto | thirdparty/optionparser/optionparser.h:1697-1706 | The option is in its buffer slot and last in the list of its index; the lists of all other indices are unchanged. |
| OptionStore.RingsDisjoint | thirdparty/optionparser/optionparser.h:1275-1278 | Lists of different indices share no object. |
| OptionStore.ListElement | thirdparty/optionparser/optionparser.h:1275-1278 | Element i of the list headed by `options[idx]` holds the i-th option of that index on the command line. |
| OptionStore.Collect | thirdparty/optionparser/optionparser.h:564-574 | Walking a list with next() yields exactly the stored options of its index in command-line order, and count() is their number. |
| OptionStore.SlotUsed | thirdparty/optionparser/optionparser.h:749-752 | `options[idx]` tests true exactly if an option of that index was stored. |
| TwoPass.StatsAdd | thirdparty/optionparser/optionparser.h:1745-1767 | The sizes are one more than every index needs, and the number of options the pass performs added to the count so far, up to 2^31 - 1. |
| TwoPass.Parse | thirdparty/optionparser/optionparser.h:1730-1743 | Into arrays that already contain options, more than the bound allows included: what the pass performs is appended as far as the bound and the guard allow, the verdict is that of the pass, and only a non-empty list replaces the remembered non-options. |
| Chains.NoMoreExactlyWhenBalanced | thirdparty/optionparser/optionparser.h:990-1000 | Whatever the vector, accepted or rejected, the pass over the vector a GNU pass leaves performs no more options than that pass, if and only if no chain of words gains more than it pays: a word that leaves a non-option alone takes the first of a row of options with arguments, and each of those arguments is parsed as a word in front of the next option; for a second GNU pass no such chain may take the terminator. For tables of fair checks. |
| Chains.BalancedIsHarmless | thirdparty/optionparser/optionparser.h:990-1000 | For every table at all, that no chain gains suffices. |
| Chains.FairChecks | thirdparty/optionparser/optionparser.h:1942-1966 | A table is fair if each check that does not reject some separate argument does not reject every one that is no option word. |
| Sizing.SteadyIsModest | fastddsspy_tool/src/cpp/user_interface/arguments_configuration.cpp:35-162 | A table whose checks each never take or always need a separate argument, such as the tool's, is modest. |
| Sizing.ModestIsHarmless | thirdparty/optionparser/optionparser.h:1942-1966 | A table is harmless if no word that leaves a non-option alone takes a string that starts with a minus. |
| Sizing.HarmlessLeavesTerminator | thirdparty/optionparser/optionparser.h:1811-1821 | In GNU mode a table is not harmless if such a word takes the terminator. |
| Sizing.HarmlessCostsNoGroup | thirdparty/optionparser/optionparser.h:1946-1955 | Nor if it takes an option whose own argument is an option word that performs more options. |
| Sizing.GreedyOverruns | thirdparty/optionparser/optionparser.h:990-1000 | A table and the vector `-w n -v -abc`: the sizing GNU pass performs 2 options, the pass over the vector it leaves performs 4, in either mode. |
| TwoPass.SecondPass | thirdparty/optionparser/optionparser.h:980-1000 | The pass that fills the arrays performs the same options, and reports the same verdict and non-options, as the pass that sized them: in POSIX mode always, and in either mode after a successful GNU pass if the table is settled. |
| TwoPass.WhenItSuffices | thirdparty/optionparser/optionparser.h:990-1000 | A buffer of the reported size suffices, sentinel included, when both passes are POSIX, when a successful GNU pass sized it for a settled table, and whenever a GNU pass sized it for a harmless one. |
| TwoPass.ItNeedNotSuffice | thirdparty/optionparser/optionparser.h:990-1000 | For the table and vector of `Sizing.GreedyOverruns` it does not suffice. |
| TwoPass.ParseMeasured | fastddsspy_tool/src/cpp/user_interface/arguments_configuration.cpp:201-204 | Sizing and then parsing the same vector, each in its own mode, on success and on abort: as long as the size suffices, every write is in range and arrays, verdict and non-options are those of the second pass; the options array keeps its sentinel, and the buffer keeps its own exactly if the second pass performs no more options than the first and fewer than 2^31 - 1. |
| TwoPass.SentinelIsUsed | thirdparty/optionparser/optionparser.h:1632-1641 | One string of n flags performs n options; from n = 2^31 - 1 on, and for no smaller n, the second pass fills all of the reported size. |
| ToolArguments.ToolTableIsSteady | fastddsspy_tool/src/cpp/user_interface/arguments_configuration.cpp:35-162 | Each check of the tool's table either never takes a separate argument or always needs one. |
| ToolArguments.ToolOptionsCarryArguments | fastddsspy_tool/src/cpp/user_interface/arguments_configuration.cpp:336-450 | Whatever the arguments are, a kept option has an argument exactly if its kind takes one, and one its check accepts; so no NULL argument is read later. |
| ToolArguments.LastOccurrenceWins | fastddsspy_tool/src/cpp/user_interface/arguments_configuration.cpp:232-302 | The option loop ends in success exactly if no option is unknown and no domain or reload time is out of range; then the last occurrence of each setting wins and missing ones keep their value. |
| ToolArguments.LastLogOptionWins | fastddsspy_tool/src/cpp/user_interface/arguments_configuration.cpp:241-261 | Debug mode writes both log settings: for the filter and for the verbosity the last of two kinds of options decides; the last reload time counts, in milliseconds. |
| ToolArguments.ParseArguments | fastddsspy_tool/src/cpp/user_interface/arguments_configuration.cpp:197-305 | For every argument vector, settings and result are those of the specification: parse verdict, then non-options, help, version, then the options in order. |
| ToolMeaning.IntegersAreNumbers | fastddsspy_tool/src/cpp/user_interface/arguments_configuration.cpp:336-352 | The texts a numeric option accepts are exactly spaces, a sign or none, and a decimal numeral, zeros in front allowed; each is read as its number. |
| ToolMeaning.LongOfTool | fastddsspy_tool/src/cpp/user_interface/arguments_configuration.cpp:35-162 | For each of the eight long names, with the argument behind '=' or in the next string, and for every unknown name: which option is performed, with which argument, or whether the word is rejected. |
| ToolMeaning.LettersOfTool | fastddsspy_tool/src/cpp/user_interface/arguments_configuration.cpp:35-162 | The same for the letters h, v, c, r and d and all others, in a group. |
| ToolMeaning.VectorUnknown | fastddsspy_tool/src/cpp/user_interface/arguments_configuration.cpp:293-296 | An accepted command line performs the option for unknown ones exactly if one of its words, up to the first non-option, has a name or letter the tool does not know. |
| ToolMeaning.ResultOf | fastddsspy_tool/src/cpp/user_interface/arguments_configuration.cpp:197-305 | A rejected command line is incorrect and changes nothing; help goes before version, and both before the options; otherwise it succeeds if and only if no option is unknown, every domain is a number from 0 to 232 and every reload time fits 64 bits; the non-options become the one-shot command. |
| Utf8.DecodesCodePoint | thirdparty/optionparser/optionparser.h:2294-2304 | For every well-formed sequence the mask and shift steps give the character number of section 3 of RFC 3629 and stop behind it. |
| Utf8.Decode | thirdparty/optionparser/optionparser.h:2732-2743 | The loop over continuation bytes, common to both width computations, computes code and length of the character. |
| Utf8.TextWidth | thirdparty/optionparser/optionparser.h:2288-2313 | For every text of well-formed characters, one-byte ones included, the screen width is the sum over its characters: 2 for the numbers of wide characters, 1 for the others. |
| Utf8.WideIs | thirdparty/optionparser/optionparser.h:2202-2232 | Wide are the characters of ten ranges, save 303F. |
| Utf8.WidthAtMostLength | thirdparty/optionparser/optionparser.h:2719 | No text is wider on the screen than it has bytes. |
| LineGrid.GridIsSplit | thirdparty/optionparser/optionparser.h:2254-2268 | Part (line, column) is that line of that cell of the row split at tabs and vertical tabs, empty if the cell is shorter; the split joined again is the row. |
| GridMeaning.SplitIsComplete | thirdparty/optionparser/optionparser.h:2242-2250 | No cell contains a tab or a line break, no line of a cell a vertical tab either: the split is the one at all separators. |
| GridMeaning.HeightIs | thirdparty/optionparser/optionparser.h:2262-2267 | The grid of a row has as many lines as its highest cell. |
| GridMeaning.SeparatedIs | thirdparty/optionparser/optionparser.h:2251-2254 | A part counts for the layout exactly if a tab or a vertical tab occurs anywhere in its row. |
| LineGrid.RowPartsAreTheGrid | thirdparty/optionparser/optionparser.h:2254-2268 | With n cells of at most m lines the iteration has exactly n * m parts, line by line. |
| LineParts.LinePartIterator.UpdateLength | thirdparty/optionparser/optionparser.h:2288-2313 | Length in bytes is the distance to the end of the line; length in columns is the screen width of the part as a text of its own. |
| LineParts.LinePartIterator.Next | thirdparty/optionparser/optionparser.h:2410-2499 | The scan over the raw text ends, and moves from every part of the grid to its successor, with position, length and width of that part; it returns false exactly behind the last. |
| LineParts.LinePartIterator.NextRow | thirdparty/optionparser/optionparser.h:2375-2408 | Moves to the next row of the table, across entries but not across a table break. |
| LineParts.LinePartIterator.NextTable | thirdparty/optionparser/optionparser.h:2338-2360 | Moves behind the current table to the first entry with help. |
| LineParts.RowsMakeTable | thirdparty/optionparser/optionparser.h:2242-2250 | The rows of a table, joined by line breaks, are its help texts joined by line breaks. |
| PrintMeaning.TablesAre | thirdparty/optionparser/optionparser.h:2237-2240 | The tables are the maximal runs of entries with help, in order. |
| ColumnWidths.DetermineWidths | thirdparty/optionparser/optionparser.h:2860-2913 | The loop ends for every table; the columns it finds are those under the greatest threshold up to 10000 that lets them fit. |
| ColumnWidths.BestFits | thirdparty/optionparser/optionparser.h:2890-2900 | Under that threshold everything left of the last column fits the width; under any greater one it does not. |
| ColumnWidths.BestJumps | thirdparty/optionparser/optionparser.h:2902-2913 | While the columns do not fit, the next threshold is strictly smaller, and none of the thresholds jumped over would have let them fit. |
| ColumnWidths.TableWidths | thirdparty/optionparser/optionparser.h:2863-2888 | One pass over the parts of a table gives every column the width of its widest part below the threshold that is not an interjection. |
| GridMeaning.TableSizesAre | thirdparty/optionparser/optionparser.h:2870-2888 | The search looks at all rows of the table, each once. |
| GridMeaning.RowSizesAre | thirdparty/optionparser/optionparser.h:2872-2886 | Of a row it looks at every part: its column, its screen width, and whether the row uses separators. |
| LayoutMeaning.ThresholdIsGreatest | thirdparty/optionparser/optionparser.h:2889-2913 | Under the threshold of the layout the columns left of the last one fit into the width; under every greater one up to 10000 they do not. |
| LayoutMeaning.TabStopsAre | thirdparty/optionparser/optionparser.h:2917-2922 | From one tab stop to the next it is as far as the widest part of the column below the threshold; the last column is the last of eight that has a part. |
| LayoutMeaning.PercentIs | thirdparty/optionparser/optionparser.h:2843-2844 | A percentage of the width is rounded to the nearest column, halves up. |
| LayoutMeaning.LastColumnGets | thirdparty/optionparser/optionparser.h:2924-2948 | With r columns left on the line, the last column gets lines of its own if and only if it is not the only column, r is less than its rounded minimum share, and r is less than its widest part or there is none; then it gets its rounded own share, and otherwise the r columns. |
| ColumnWidths.LayOutTable | thirdparty/optionparser/optionparser.h:2862-2948 | The loops and the arithmetic give the layout of the table: the tab stops are the total widths under the greatest threshold that lets the columns fit, and the last column gets the rest of the line, or lines of its own when that is too narrow for it. |
| ColumnWidths.LayoutFits | thirdparty/optionparser/optionparser.h:2833-2948 | In every layout the last tab stop lies within the width, only a table of several columns has its last column on lines of its own, and for percentages from 0 to 100 the last column has a width between 0 and the whole. |
| ColumnWidths.LayoutIsTidy | thirdparty/optionparser/optionparser.h:2889-2900 | Under its own layout every part of a table fits its column or reaches the threshold, which is greater than every column width. |
| ColumnWidths.OneColumnIsNeverCrowded | thirdparty/optionparser/optionparser.h:2935-2943 | A table of one column never asks for lines of its own unless more than 100 percent is requested. |
| Wrapping.ChunksRejoin | thirdparty/optionparser/optionparser.h:2717-2792 | The chunks, with one space where one was dropped, are the text: nothing is lost or reordered. |
| Wrapping.ChunksFit | thirdparty/optionparser/optionparser.h:2717-2791 | No chunk is wider on the screen than the column. |
| Wrapping.ChunksAreWhole | thirdparty/optionparser/optionparser.h:2758-2790 | Every chunk of a text of well-formed characters consists of whole characters. |
| Wrapping.FirstChunkIsGreedy | thirdparty/optionparser/optionparser.h:2758-2790 | A chunk that was cut off could not have ended at any later space, nor at the end of the text. |
| Wrapping.ChunksAreWellCut | thirdparty/optionparser/optionparser.h:2717-2792 | Every chunk is all that is left if that fits; otherwise it ends at the last space that lets it fit; without a space it ends behind the last character that fits. |
| Wrapping.StoreAppends | thirdparty/optionparser/optionparser.h:2614-2621 | Storing into a ring that is not full appends and overwrites no queued entry. |
| Wrapping.NextRemoves | thirdparty/optionparser/optionparser.h:2623-2627 | Moving the tail on takes the oldest entry and keeps the others in order. |
| Wrapping.LineWrapper.Output | thirdparty/optionparser/optionparser.h:2633-2644 | A full queue writes its oldest entry first; then the new entry is last. |
| Wrapping.LineWrapper.Process | thirdparty/optionparser/optionparser.h:2710-2797 | The text's chunks go behind the queued ones and the oldest are written: as many as exceed 15, and at least one if there is any. The loop ends because the width is at least 2. |
| Wrapping.LineWrapper.Flush | thirdparty/optionparser/optionparser.h:2675-2690 | Everything queued is written, one entry a line, and the queue is empty. |
| Display.Indent | thirdparty/optionparser/optionparser.h:2179-2200 | Breaks the line exactly if the wanted column is further left and writes the spaces missing; the cursor is at the wanted column afterwards if and only if that is positive or no break was due. |
| PrintRow.PrintPart | thirdparty/optionparser/optionparser.h:2957-2994 | Behind exactly the breaks and spaces of `indent`, a part goes to the screen at the tab stop of its column, to the wrapper of the last column or to that of the interjections, or nowhere, as its column and its separators say; the cursor afterwards is given exactly. |
| PrintMeaning.KindIs | thirdparty/optionparser/optionparser.h:2957-2994 | A row without separators is wrapped over the whole width; in others the parts left of the last column are printed as they are, those of the last are wrapped, those behind it dropped. |
| PrintRow.PrintOneRow | thirdparty/optionparser/optionparser.h:2954-3016 | Over both loops and both flushes of a row, for every layout tidy for it: the texts on the screen are exactly the plain parts, each starting in the screen column of its tab stop, the chunks of the lines of the last column, each where that column starts, and the chunks of the lines without separators, each at the left margin, all in the order of the row; only parts behind the last column are dropped; both wrappers end empty and the screen at the left margin. The row takes a line, one more for each further line of the grid and each column that finds no room, and one for each wrapped chunk, where a chunk may begin in a line already counted, once in each wrapped part. |
| PrintMeaning.LineBegins | thirdparty/optionparser/optionparser.h:2962-2971 | Within a row a new line begins in front of a part exactly if it is in the first column, save the very first part, or the cursor is to the right of its tab stop. |
| PrintMeaning.CursorOfLine | thirdparty/optionparser/optionparser.h:2971-2978 | In front of a part the cursor is where the widths of the parts left of it in its line put it. |
| LineBreaks.BreaksExactly | thirdparty/optionparser/optionparser.h:2971 | A column starts on a new line if and only if a part left of it in that line is overlong and every tab stop between the two columns is 0. |
| LineBreaks.NeedlessExactly | thirdparty/optionparser/optionparser.h:2179-2200 | Behind a part that fits its column the line is broken if and only if that part itself stands on a new line at tab stop 0. |
| LineBreaks.NeedlessBreak | thirdparty/optionparser/optionparser.h:2179-2200 | A usage of one row, with the layout found for it on 10 columns, for which that happens: the third part would fit, the cursor is thought to be in column 13 and is in column 1. |
| PrintUsage.PrintRows | thirdparty/optionparser/optionparser.h:2954-3016 | All rows of a table, in order, each printed as a row in the one layout, and no line between them. |
| PrintUsage.PrintUsage | thirdparty/optionparser/optionparser.h:2826-3019 | For every usage, width and percentages the printer ends, and what is on the screen is every table of the usage, in order, row by row, each in the layout found for that table. |
| CacheState.InstanceCache.BeginAdd | fastddsspy_participants/src/cpp/model/InstanceCache.cpp:36-85 | The first lock section: null type, missing key fields, known instance, limit reached, or on to serialising. |
| CacheState.InstanceCache.CommitAdd | fastddsspy_participants/src/cpp/model/InstanceCache.cpp:95-102 | The second lock section: the instance has the key and the writer among its writers, created if missing. |
| CacheState.InstanceCache.OnWriterChanged | fastddsspy_participants/src/cpp/model/InstanceCache.cpp:156-192 | Erasing while iterating removes the writer from every instance of the topic and exactly the instances that have no writer left. |
| CacheState.InstanceCache.GetActiveInstances | fastddsspy_participants/src/cpp/model/InstanceCache.cpp:118-140 | The key texts of the instances of the topic that have a writer. |
| CacheProtocol.Reachable | fastddsspy_participants/src/cpp/model/InstanceCache.cpp:43-102 | In every run of any number of threads, each stored instance has a key and a writer, its topic has key fields, pending adds hold good references, and stored plus pending stay within 1000 + T - 1. |
| CacheProtocol.InstanceBound | fastddsspy_participants/src/cpp/model/InstanceCache.cpp:76-83 | With n threads no topic ever has more than 1000 + n - 1 instances, and never more than 1000 with one. |
| CacheLimit.BoundIsReached | fastddsspy_participants/src/cpp/model/InstanceCache.cpp:76-102 | For every number of threads some run reaches that bound. |
| CacheLimit.LimitHoldsForOneThread | fastddsspy_participants/include/fastddsspy_participants/model/InstanceCache.hpp:56 | The configured limit holds in all runs if and only if at most one thread adds. |
| CacheTrace.WritersArePublishers | fastddsspy_participants/src/cpp/model/InstanceCache.cpp:68-102 | In every run without clear(), a writer is listed for an instance exactly if its last registered sample of it is later than its last removal from the topic. |
| CacheTrace.StoredExactlyIfPublished | fastddsspy_participants/src/cpp/model/InstanceCache.cpp:174-191 | An instance is stored exactly if it has such a writer. |
| CacheTrace.ReportsAreFollowed | fastddsspy_participants/src/cpp/participant/SpyParticipant.cpp:88-92 | In every run, a report that a writer is gone is followed by its removal from the cache, unless that is still to come. |
| CacheTrace.RemovedButListed | fastddsspy_participants/src/cpp/participant/SpyParticipant.cpp:81-94 | In runs without clear(), for a writer whose last report says it is gone from a topic: once its removal is done, it is listed if and only if a sample of it was registered after a removal that followed that report and was not removed since; until then it is listed as if not reported. |
| CacheTrace.RemovedWriterCanStay | fastddsspy_participants/src/cpp/model/InstanceCache.cpp:85-100 | With one adding thread: a writer reported and removed while its sample is being serialised is listed afterwards. |
| CacheTrace.ReportedNotYetRemoved | fastddsspy_participants/src/cpp/participant/SpyParticipant.cpp:88-92 | With one adding thread: a writer is listed between the two calls of its report. |
| CacheTrace.FilterLeavesCacheAlone | fastddsspy_tool/src/cpp/tool/Controller.cpp:1173-1178 | In every run, the writes of the partition filter to the endpoint database change neither the cache nor the sequence of its effects. |
| CacheTrace.KeyFieldsStay | fastddsspy_participants/src/cpp/model/InstanceCache.cpp:204-241 | Key fields of a topic, once found, never change in a run without clear(). |
| CacheTrace.ReportedCount | fastddsspy_participants/src/cpp/visualization/ModelParser.cpp:476-481 | In every reachable state the reported number of instances is at most the number of stored handles, and equal to it exactly if no two of them have the same key text. |
| CacheKeys.BeginAnswers | fastddsspy_participants/src/cpp/model/InstanceCache.cpp:36-85 | An add without a type or key fields is refused; a stored instance is answered at once and keeps its key; at 1000 instances a new one is refused; otherwise its key is serialised. |
| CacheKeys.KeysAreLastSerialised | fastddsspy_participants/src/cpp/model/InstanceCache.cpp:69-102 | In every run without clear(), a stored instance has the key text serialised last for it; nothing else changes it. |
| CacheKeys.PendingIsItsAdd | fastddsspy_participants/src/cpp/model/InstanceCache.cpp:85-100 | What a pending add will register is the sample and key of its own first section. |
| CacheKeys.ReportedKeys | fastddsspy_participants/src/cpp/model/InstanceCache.cpp:118-140 | The key texts reported for a topic are exactly those last serialised for the instances some writer publishes. |
| CacheKeys.KeyFieldsAreTheTypes | fastddsspy_participants/src/cpp/model/InstanceCache.cpp:204-241 | The key fields of a topic are those of the first type with any that an add on it brought. |
| CacheKeys.GoneIsWriter | fastddsspy_participants/src/cpp/participant/SpyParticipant.cpp:81-94 | Only a report of a writer that is not active brings a removal from the cache. |
| Streaming.StateIsHistory | fastddsspy_participants/src/cpp/model/DataStreamer.cpp:31-64 | After every sequence of operations the streamer is activated exactly if a callback is set, and selection and callback are those of the last activation not followed by a deactivation. |
| Streaming.TypesAreHistory | fastddsspy_participants/src/cpp/model/DataStreamer.cpp:66-80 | The known types are the last ones added under their names. |
| Streaming.CallsFollowHistory | fastddsspy_participants/src/cpp/model/DataStreamer.cpp:82-122 | A sample reaches a callback exactly if its type was added before and the selection in force matches its topic. |
| Streaming.UnknownTypeIsIgnored | fastddsspy_participants/src/cpp/model/DataStreamer.cpp:94-101 | A sample of a type never added changes nothing, the cache included. |
| Streaming.StreamerIsProtocol | fastddsspy_participants/src/cpp/model/DataStreamer.cpp:82-122 | Every sequential run of the streamer leaves the cache as a run of the concurrent protocol with one thread does. |
| Streaming.SequentialCache | fastddsspy_participants/src/cpp/model/DataStreamer.cpp:113 | So there no topic exceeds 1000 instances, and a writer is listed exactly if its last registered sample is later than its last removal. |
| Streaming.DataStreamer.AddSample | fastddsspy_participants/src/cpp/model/DataStreamer.cpp:82-122 | The method takes the specified step and makes the specified call. |
| Streaming.SpyModel.NewEndpointInfo | fastddsspy_participants/src/cpp/participant/SpyParticipant.cpp:81-94 | Two steps of the protocol: the database is written, and then, for a writer that is gone, it is removed from the cache. |
| JsonPrinter.PrintJsonArraysInline | fastddsspy_tool/src/cpp/tool/Controller.cpp:45-118 | The recursive method with its iterator loops writes the specified text. |
| JsonPrinter.PrintedTextReadsBack | fastddsspy_tool/src/cpp/tool/Controller.cpp:45-118 | For every tree, indent and step, the text has the tokens of the compact form, and a parser for sections 2, 4 and 5 of RFC 8259 gives the tree back from either. |
| JsonPrinter.FormattingIsIdempotent | fastddsspy_tool/src/cpp/tool/Controller.cpp:45-118 | Reading a printed text and printing it again with another step gives what printing the tree with that step gives. |
| JsonPrinter.PrimitiveArrayOnOneLine | fastddsspy_tool/src/cpp/tool/Controller.cpp:73-95 | An array of primitives contains no line break. |
| JsonLayout.TextIsSpread | fastddsspy_tool/src/cpp/tool/Controller.cpp:45-118 | Where every line break and space stands, told by two neighbouring tokens and the nearest brackets: the text is its tokens, one space behind a colon and behind a comma of an array without brackets; a new line behind every other opening bracket and comma and in front of every other closing bracket, indented by the brackets open there; an empty line in an empty object. |
| Endpoints.SplitJoins | fastddsspy_tool/src/cpp/tool/Controller.cpp:1117-1151 | The pieces contain no bar and, joined by bars, are the text. |
| Endpoints.JoinSplits | fastddsspy_tool/src/cpp/tool/Controller.cpp:1117-1151 | They are the only bar-free pieces that do so. |
| Endpoints.ScanPartitions | fastddsspy_tool/src/cpp/tool/Controller.cpp:1120-1165 | The character loop finds a match exactly if some piece of the split text matches some filter in either direction. |
| Endpoints.Controller.UpdateEndpoints | fastddsspy_tool/src/cpp/tool/Controller.cpp:1096-1179 | Each endpoint is active exactly if there is no filter or some piece of some partition set matches; no key and no other field changes. |
| Endpoints.UpdatedIs | fastddsspy_tool/src/cpp/tool/Controller.cpp:1096-1179 | An endpoint is active exactly if there is no filter, or one of the bar-free pieces of one of its partition sets matches a filter as pattern or as text. |
| Endpoints.LastFilterWins | fastddsspy_tool/src/cpp/tool/Controller.cpp:1105-1119 | The outcome depends on the last filter only, and without a filter everything is active again. |
| EndpointHistory.ShownExactly | fastddsspy_tool/src/cpp/tool/Controller.cpp:1096-1179 | After every sequence of reports, filter changes and updates, an endpoint is in the database exactly if it was reported, with the data of its last report, and is shown exactly if the last step that touched it was a report of it as active or an update whose filter it passes. |
| EndpointHistory.DepartedShownAgain | fastddsspy_tool/src/cpp/tool/Controller.cpp:1173-1178 | An endpoint reported as gone is shown again if and only if an update came after its last report and the filter in force at the last update passes it; with no filter it always is. |
| UpdateSteps.LostExactly | fastddsspy_tool/src/cpp/tool/Controller.cpp:1173-1178 | With discovery reporting between any two calls of an update, the entry of an endpoint has the data of its last report, unless a copy found before that report was written after it; then it has the data the entry had when that copy was found. |
| UpdateSteps.ReportIsLost | fastddsspy_tool/src/cpp/tool/Controller.cpp:1173-1178 | A run with one such report: the database ends with the old state of the endpoint, marked active. |
| ModelParser.EndpointVector.AddEndpoint | fastddsspy_participants/src/cpp/visualization/ModelParser.cpp:62-88 | Index map and vector stay the groups of the endpoints added so far: one per topic, with its number. |
| ModelParser.FirstSeenOrder | fastddsspy_participants/src/cpp/visualization/ModelParser.cpp:69-82 | The groups come in the order in which their topics first occur, each made from the first endpoint on its topic. |
| ModelParser.FirstsAreTopics | fastddsspy_participants/src/cpp/visualization/ModelParser.cpp:69-87 | There is one group for every topic that occurs, and no topic has two. |
| ModelParser.Participants | fastddsspy_participants/src/cpp/visualization/ModelParser.cpp:90-138 | The loop over the database gives the groups of the participant's writers and of its readers; an unknown participant has none. |
| ModelParser.ParticipantNumbers | fastddsspy_participants/src/cpp/visualization/ModelParser.cpp:113-134 | The numbers add up to the participant's endpoints of that kind. |
| ViewMeaning.ParticipantsOwn | fastddsspy_participants/src/cpp/visualization/ModelParser.cpp:113-134 | They are the endpoints with the participant's guid prefix, and of that kind. |
| ViewMeaning.GroupIs | fastddsspy_participants/src/cpp/visualization/ModelParser.cpp:62-88 | A group has the names of the first endpoint on its topic, demangled in ROS 2 mode, and the number of endpoints on it. |
| ModelParser.SimpleTopicData | fastddsspy_participants/src/cpp/visualization/ModelParser.cpp:328-343 | The counters are the active endpoints of each kind on the topic. |
| ModelParser.ComplexTopicData | fastddsspy_participants/src/cpp/visualization/ModelParser.cpp:368-393 | The lists are those same endpoints, in order, each with the partition set stored under its own guid. |
| ViewMeaning.TopicsOwn | fastddsspy_participants/src/cpp/visualization/ModelParser.cpp:328-393 | They are the active endpoints with the name of the topic, and of that kind. |
| ViewMeaning.ShownIs | fastddsspy_participants/src/cpp/visualization/ModelParser.cpp:368-393 | Each is shown under its own guid with the partition stored under the text of that guid, or with none. |
| ModelParser.ViewsFollowFilter | fastddsspy_tool/src/cpp/tool/Controller.cpp:1096-1179 | After the filter has been applied the views show exactly the endpoints whose partitions pass it, whatever was active before. |

## Left out

- NULL argument vector: the guard at `optionparser.h:1779-1783` is not modelled; a vector is always an array.
- `Arg` messages: checks are functions of the option; what they print is not modelled.
- Descriptor indices are below 2^31 - 1: `int idx = desc->index` makes larger ones meaningless.
- Stats constructors that add up several vectors with different tables, and the thin overloads of `parse` and `add`.
- TwoPass.ParseMeasured: its condition on the size is the one for which every write is in range; in GNU mode it also asks for fewer than 2^31 - 1 options in the sizing pass, because a refused option leaves the vector half reordered.
- Help texts contain no byte 0xFF: it is never valid UTF-8, and the leading zeros of its complement are undefined.
- LineParts.LinePartIterator.NextRow: leaving a row in the middle is modelled, but when it also returns false the next call must restart the row or the table, as the length of the old part is then stale.
- PrintRow.PrintOneRow: the number of lines is bounded from both sides, up to one line for each wrapped part; it is not stated when the own share of the last column exceeds 100 percent, where each of its indentations breaks the line once more.
- Percentages for which `width * percent` exceeds an int.
- ToolArguments.ParseArguments: starts after the program name has been dropped, with an argument count that counts existing strings, as the C standard grants to main; a reload time that does not fit a 64-bit long ends in an uncaught exception, modelled as the result OutOfRange, and the later product with 1000 is not checked for overflow.
- CacheState.InstanceCache.Clear: in the protocol it is a step only while no add is pending, since a pending add holds a reference into the map.
- Updates taken apart: one thread runs them, as in the tool; what the marks of several endpoints are together after an interrupted update is not stated.
- Chains.NoMoreExactlyWhenBalanced: without fair checks, that chains do not gain is sufficient (`Chains.BalancedIsHarmless`) but not shown to be necessary, since a word may be accepted only in front of strings that no pass can put there; `Sizing.NoMoreExactlyWhenHarmless` is an equivalence for all tables, in terms of whole passes.
- Deactivation while a sample is being added: `DataStreamer` runs are sequential.
- Times of last sight, topic rates, and logging.
- Foreign code: pattern matching, topic filters, key serialisation, dynamic types, demangling and guid texts are arbitrary functions; JSON scalars are the texts the JSON library dumps.
- Endpoints: partition sets and filters are visited in an arbitrary order, the database in an order given by its keys; the results do not depend on it except where ModelParser lists in key order.
- YAML, views and command dispatch, configuration reload, and the backend calls: plumbing around the modelled parts.
