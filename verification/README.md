# Verified models of fmt, futex_like and gflags components

A Dafny project that models the parts of this repository whose correctness is hardest to see by
reading them, and proves what they keep. `dafny verify dfyconfig.toml` checks all of it.

* **The futex mutex** (`FutexMutex`): a lock whose `Unlock` is prepare, store, wake one, and the client
  whose threads count under it. It is a step system over any number of threads and rounds, with the
  kernel's compare-and-park, the reload of the wait loop and spurious wake-ups as separate steps.
* **The printable-codepoint index of fmt** (`PrintableTables`): the generator that squeezes a set of
  escaped codepoints into byte tables, and the lookup that decodes them.
* **The format-string front ends of fmt** (`FormatSpecs`, `FormatGrammar`, `FormatPrinter`, `FormatStrings`,
  `FormatItems`, `FormatCompile`, `FormatCompiled`): the specification parser, the run-time format string
  parser and the compiler that reads the same language on its own. For each there is a grammar with its
  meaning, stated without the code, and the proof that the code accepts exactly the texts of the grammar and
  reads out of them exactly what they mean; and a printer that the parser undoes.
* **The output buffers of fmt** (`Buffers`): flushing, bounded and counting buffers, against the plain
  stream of what was appended.
* **docopt** (`DocoptPatterns`, `DocoptTransform`, `DocoptMatch`, `DocoptCollect`, `DocoptWrites`): the
  worklist rewrite of pattern trees, the matcher over lists of objects, what repeated leaves collect, and what
  the matcher writes into objects.
* **gflags** (`GflagsValues`, `GflagsRegistry`, `GflagsText`, `GflagsAssignments`, `GflagsLines`,
  `GflagsParser`, `GflagsArgv`): flag values, setting with validation, save and restore, the flag printer and
  its reader, and the argv pass. What a text and a command line do is stated by the assignments that stand in
  them, line by line and argument by argument.
* **Arithmetic kernels of fmt** (`TrailingZeros`, `IsoWeek`, `DurationCast`, `FractionalSeconds`):
  division by modular inverses, ISO weeks, checked duration conversion, digits of fractional seconds.

`Decimals`, `Arithmetic` and `Wrappers` hold what several of these share. Code that updates state in the
repository is a method or a class here, proved against a function; the laws are lemmas about that function.

## Where the code and its promises part

Seven promises hold on less than all inputs. The code is modelled as it is, and the exact condition is proved.

* A range of one or two escaped codepoints that starts at 0x20000 ends up in the tables of the first plane,
  because line 146 of `printable.py` compares with `>`. The tables are exact if and only if there is no such
  range (`TablesAreExact`), and they are bytes in the same case (`TablesAreBytes`). `ShortRangeExample` is one.
* The 64-bit `remove_trailing_zeros` keeps only 32 bits of the quotient by 10^8. It is wrong exactly for
  multiples of 10^8 from 2^32 * 10^8 on (`RemoveTrailingZeros64`).
* `write_fractional_seconds` appends zeros after the digits of its own unit, so a period such as 1/3 second
  prints 3333330 for seven digits. When the digits are the true ones is `WrittenIsTrue` for one value and
  `PeriodDecides` for a whole period.
* `tm_iso_week_of_year` names 52 where the calendar has week 53 of a negative year, because `%` of a negative
  sum is negative. When that is so can be read off year, yday and wday (`IsoWeekExact`, `NegativeYearExample`).
* `SetFlagLocked` is documented to leave a flag unchanged when it fails; it refreshes the modified bit first.
  Both values stay, and the whole flag stays if and only if that bit was already right (`FailedSet`, `FailedSetExample`).
* The format string compiler accepts more than the run-time parser: a lone `}`, a dynamic argument that does
  not exist, an automatic id inside a field with an explicit one, and a name. These are all the differences
  (`AcceptedExactly`, `CompiledExactly`); each is shown (`LoneBrace`, `MissingWidthCompiles`, `AutomaticInManual`,
  `NamedFieldCompiles`).
* docopt's `match` returns a pair of lists that a failed attempt leaves alone, and Either discards all outcomes
  but one. But lines 124 and 128 of `docopt.py` assign to the value of an object, and nothing undoes that: the
  question at line 257, whether an attempt that did not match can have changed the lists, has the answer that
  it cannot change which objects they hold, but can change their values. `((-v x) | -v)...` counts two options
  as three (`CountedThrice`). An object keeps its value if and only if no accumulating leaf was tried on it
  with success (`ValueStays`, `FailedMatch`).

## Model

| member | source | states |
|---|---|---|
| `FutexMutex.EnterAndLeave` | futex_like/examples/mutex/mutex.hpp:14-28 | The only way into the critical section is an exchange that finds Unlocked, the only way out is the store; no other step of any thread changes who is inside. |
| `FutexMutex.EveryMove` | futex_like/source/futex_like/atomic/wait.hpp:11-24 | From where, and with which word, a thread comes to each place of the code; a step moves its own thread and nobody else but the one sleeper a WakeOne takes off the queue. |
| `FutexMutex.RunKeepsInv` | futex_like/examples/mutex/mutex.hpp:14-28 | Every run from a good state keeps mutual exclusion, no lost wake-up, the exact counter and the round limits. |
| `FutexMutex.MutexIsExclusive` | futex_like/examples/mutex/mutex.hpp:14-28 | In every reachable state at most one thread is between its successful Lock and its store, and the word is Locked exactly when there is one. |
| `FutexMutex.NoWakeupIsLost` | futex_like/source/futex_like/atomic/wait.hpp:11-24 | In every reachable state, if the word is Unlocked and a thread sleeps, some unlocker still owes its WakeOne or an awake thread is about to look at the word. |
| `FutexMutex.CountersAddUp` | futex_like/examples/mutex/main.cpp:14-25 | When all n threads have finished k rounds, on any schedule, the unprotected counter is n * k. |
| `FutexMutex.StepPays` | futex_like/examples/mutex/mutex.hpp:14-28 | Every own step of a thread lowers a potential by at least one, and a spurious wake-up raises it by at most two. |
| `FutexMutex.EveryScheduleIsBounded` | futex_like/examples/mutex/main.cpp:14-25 | Every schedule is at most n * (18 * n * k + 4) steps long, plus three for each spurious wake-up: no thread spins for ever. |
| `FutexMutex.NeverDeadlocked` | futex_like/examples/mutex/mutex.hpp:14-28 | In every reachable state that is not finished some thread can take a step of its own. |
| `FutexMutex.EveryRunCanFinish` | futex_like/examples/mutex/main.cpp:14-25 | Every run can be extended to one where all threads are done and the counter is n * k. |
| `PrintableTables.ToRanges` | fmt/support/printable.py:18-28 | The ranges hold exactly the given points, are maximal, and never cross the start of a plane. |
| `PrintableTables.ClassifyRange` | fmt/support/printable.py:146-166 | The branches put one range where its start and length say. |
| `PrintableTables.Classify` | fmt/support/printable.py:138-166 | The singletons, runs and extra ranges of each plane hold exactly the points of their ranges, in order, and no three singletons are neighbours. |
| `PrintableTables.PlacedByLength` | fmt/support/printable.py:146-166 | Range by range and in order: one or two points are singletons, longer ranges are runs of their plane, and those behind the second plane are extra. |
| `PrintableTables.ClassesAreUnique` | fmt/support/printable.py:138-166 | A set of points has one list of ranges and one classification, so the points alone decide whether tables can be made. |
| `PrintableTables.CompressSingletons` | fmt/support/printable.py:73-87 | The groups and low bytes spell the singletons in order, one group for each high byte. |
| `PrintableTables.CountsFitByte` | fmt/support/printable.py:77-85 | No group of singletons counts more than 255, since three neighbours would have been a run. |
| `PrintableTables.CompressNormal` | fmt/support/printable.py:89-115 | Runs are encoded exactly when every gap and every length is below 0x8000, as alternating lengths. |
| `PrintableTables.CompressEntry` | fmt/support/printable.py:101-111 | One entry is the two length codes, each of one or two bytes. |
| `PrintableTables.CodeIsShortest` | fmt/support/printable.py:101-111 | A length takes one byte exactly when seven bits hold it, else two, and the high bit of the first tells which. |
| `PrintableTables.Generate` | fmt/support/printable.py:133-171 | The whole generator: tables exist if and only if the runs of both planes can be encoded; they can be read safely and answer membership unless a short range starts at 0x20000. |
| `PrintableTables.WalkBytes` | fmt/include/fmt/format-inl.h:1782-1791 | The byte loop finds the same answer as walking the decoded lengths. |
| `PrintableTables.IsPrintable16` | fmt/include/fmt/format-inl.h:1763-1792 | The two loops answer no exactly for singletons of the tables and for codes inside an encoded run. |
| `PrintableTables.IsPrintable` | fmt/include/fmt/format-inl.h:1923-1942 | The lookup by plane and extra ranges, for every 32-bit codepoint. |
| `PrintableTables.HitsAreSingletons` | fmt/include/fmt/format-inl.h:1768-1780 | The search through the groups hits exactly the singletons they were made from. |
| `PrintableTables.CodesDecode` | fmt/support/printable.py:90-111 | Decoding the length codes gives back the gaps and lengths that were encoded. |
| `PrintableTables.WalkFindsRuns` | fmt/include/fmt/format-inl.h:1782-1791 | Walking the alternating lengths finds exactly the codes outside every run. |
| `PrintableTables.CompressedIsReadable` | fmt/include/fmt/format-inl.h:1784-1790 | What the generator writes never sends the lookup past the end of a table. |
| `PrintableTables.TablesAreExact` | fmt/support/printable.py:145-171 | The lookup answers "below 0x110000 and not escaped" for every codepoint if and only if no range of one or two starts at 0x20000. |
| `PrintableTables.TablesAreBytes` | fmt/support/printable.py:117-131 | Every number in the tables fits the byte it is stored in, under the same condition. |
| `PrintableTables.ShortRangeExample` | fmt/support/printable.py:145-151 | 0x20000 alone is put into the tables of the first plane with a high byte of 0x200, and the lookup calls it printable. |
| `PrintableTables.GenerateAndLookUp` | fmt/support/printable.py:133-171 | Generator and lookup run one after the other give plain set membership, and no answer exactly when a stretch is too long for the two-byte code. |
| `FormatSpecs.ParseContext.NextArgId` | fmt/include/fmt/base.h:898-906 | An automatic id is refused in manual mode, else it is the counter, which moves on. |
| `FormatSpecs.ParseContext.CheckArgId` | fmt/include/fmt/base.h:910-917 | An explicit id is refused once an automatic one was taken, else the mode is manual from now on. |
| `FormatSpecs.ParseNonnegativeInt` | fmt/include/fmt/base.h:1276-1299 | The wrapping 32-bit accumulation yields the number itself when it is at most INT_MAX, and the error value otherwise. |
| `FormatSpecs.OverflowTest` | fmt/include/fmt/base.h:1291-1298 | The test on the last two accumulator values decides overflow exactly. |
| `FormatSpecs.RunParseArgId` | fmt/include/fmt/base.h:1314-1340 | A number without leading zeros that is followed by a brace or colon, or a name. |
| `FormatSpecs.RunParseDynamic` | fmt/include/fmt/base.h:1342-1397 | A dynamic width or precision and what it does to the parse context. |
| `FormatSpecs.RunDynamicPart` | fmt/include/fmt/base.h:1399-1422 | Width and precision are stored as a value or as a reference. |
| `FormatSpecs.RunTurn` | fmt/include/fmt/base.h:1441-1562 | One turn of the switch: what it accepts, stores and consumes. |
| `FormatSpecs.RunParseSpecs` | fmt/include/fmt/base.h:1427-1563 | The parser's loop computes the recursive reading that the laws below are about, and leaves the context in its mode. |
| `FormatGrammar.SpecsExactly` | fmt/include/fmt/base.h:1424-1563 | In front of a closing brace the parser accepts exactly the texts of [[fill]align][sign]["#"]["0"][width]["." precision]["L"][type] of section 20.20.2.2 of ISO C++20, each part where the type takes it, and returns exactly the specs and the indexing mode that the parts say. |
| `FormatGrammar.ParsedSays` | fmt/include/fmt/base.h:1424-1563 | What is accepted denotes the specs that are returned, also where no brace follows. |
| `FormatGrammar.ReadsIsParsed` | fmt/include/fmt/base.h:1441-1562 | Every text of the grammar is read to its end, part by part. |
| `FormatGrammar.LettersAgree` | fmt/include/fmt/base.h:1505-1534 | A letter is read as a presentation exactly when the type admits it and that is its letter, for all types, presentations and cases. |
| `FormatGrammar.TypesAgree` | fmt/include/fmt/base.h:1471-1504 | Which types take a sign, "#", "0" and "L", and a precision. |
| `FormatGrammar.IdSays` | fmt/include/fmt/base.h:1314-1340 | An accepted id is a number without leading zeros or a name, and is read as that; beyond INT_MAX it is INT_MAX. |
| `FormatGrammar.IdIsRead` | fmt/include/fmt/base.h:1314-1340 | Every such id is read where a closing brace or a colon follows. |
| `FormatGrammar.RefIsRead` | fmt/include/fmt/base.h:1365-1397 | A braced id as width or precision is the argument it names, or the next one, in the mode that allows it. |
| `FormatGrammar.NumberIsRead` | fmt/include/fmt/base.h:1276-1299 | Up to ten digits that stay below INT_MAX are read as their number. |
| `FormatGrammar.FillIsRead` | fmt/include/fmt/base.h:1432-1439 | The lookahead takes every fill character as fill, whatever it is, UTF-8 sequences included. |
| `FormatPrinter.ParseUndoesPrint` | fmt/include/fmt/base.h:1424-1563 | For all well-formed specs, argument types and surroundings, parsing the printed text stops at the closing brace with the same specs and the right indexing mode. |
| `FormatPrinter.ParsedCanBePrinted` | fmt/include/fmt/base.h:1424-1563 | Every parse yields well-formed specs, so printing and parsing again changes nothing: well-formed is exactly what can be parsed. |
| `FormatPrinter.PrintDenotes` | fmt/include/fmt/base.h:1424-1563 | The printed text of well-formed specs denotes them. |
| `FormatStrings.FormatHandler.OnArgId` | fmt/include/fmt/format.h:3597-3607 | The handler's ids: automatic, explicit, or a name that is not found. |
| `FormatStrings.FormatHandler.OnReplacementField` | fmt/include/fmt/format.h:3609-3611 | A field without specs is reported if its argument exists. |
| `FormatStrings.FormatHandler.OnFormatSpecs` | fmt/include/fmt/format.h:3613-3630 | Specs are reported when the argument and its dynamic arguments exist, those are integers, and a character allows them. |
| `FormatStrings.ParseReplacementField` | fmt/include/fmt/base.h:1565-1610 | One replacement field or escaped brace: what is reported, where it ends, and when it is an error. |
| `FormatStrings.ParseFormatString` | fmt/include/fmt/base.h:1612-1630 | The pieces the parser reports are together the items of the string, and it fails on exactly the strings without items; what items are is `FormatItems.ItemsExactly`. |
| `FormatItems.ItemsExactly` | fmt/include/fmt/base.h:1612-1630 | A format string is accepted as some items exactly when it is spelled by them: characters, doubled braces, and fields with an id and specs that denote what is reported, for an argument that is there. |
| `FormatItems.FieldIsRead` | fmt/include/fmt/base.h:1565-1610 | Every text of a field is read as that field, to its end and with the mode it leaves. |
| `FormatItems.ChecksAgree` | fmt/include/fmt/format.h:3613-3630 | Which specs a character takes, and which arguments can be a width or a precision. |
| `FormatItems.PrintedFieldIsRead` | fmt/include/fmt/base.h:1565-1610 | Wherever "{n}" or "{n:" printed specs "}" stands, it is read as the field of argument n with these specs. |
| `FormatCompile.ParseText` | fmt/include/fmt/compile.h:249-255 | The loop finds the next brace. |
| `FormatCompile.RunCompileSpecs` | fmt/include/fmt/compile.h:282-292 | Specs are read in a context of their own, and the next id comes from it except in manual mode. |
| `FormatCompile.HeadAgrees` | fmt/include/fmt/compile.h:373-412 | The compiler and the parser take the same argument id and indexing mode for a field. |
| `FormatCompile.FromModes` | fmt/include/fmt/compile.h:348-349 | Reading specs in manual mode with the counter at 0 gives what the parser gives, unless an id is taken automatically. |
| `FormatCompile.FromNext` | fmt/include/fmt/compile.h:282-292 | The counter a field's specs leave behind has passed exactly the ids taken, including those of nested width and precision. |
| `FormatCompile.SpecsAgree` | fmt/include/fmt/compile.h:336-360 | A field's specs, its end and the mode after it are the same in both readers, unless the specs are lax. |
| `FormatCompile.CompileAgrees` | fmt/include/fmt/compile.h:362-425 | From every position and mode, the compiled tree emits the parser's items, and only lax steps separate the two. |
| `FormatCompile.CompilerKeepsMeaning` | fmt/include/fmt/compile.h:427-438 | Every string the run-time parser accepts compiles, and the tree emits the same text and (id, specs) fields in order. |
| `FormatCompile.AcceptedExactly` | fmt/include/fmt/compile.h:362-425 | The run-time parser accepts exactly the strings that compile without a lax step. |
| `FormatCompile.LoneBrace` | fmt/include/fmt/compile.h:413-416 | "}x" compiles and drops the x; the parser rejects it. |
| `FormatCompile.AutomaticInManual` | fmt/include/fmt/compile.h:348-349 | "{0:{}}" compiles; the parser rejects it. |
| `FormatCompile.NamedFieldCompiles` | fmt/include/fmt/compile.h:395-412 | "{a}" compiles without arguments; the parser rejects it. |
| `FormatCompile.MissingWidthCompiles` | fmt/include/fmt/compile.h:282-292 | "{:{}}" compiles for one argument; the parser rejects it. |
| `FormatCompile.NamedSpecsAreUnknown` | fmt/include/fmt/compile.h:395-412 | A name with specs is left to the run time. |
| `FormatCompiled.CompiledExactly` | fmt/include/fmt/compile.h:362-438 | The compiler accepts exactly the strings made of its pieces, and its tree emits their items: those of the parser, but with a name in a field, any character behind a "}", and specs whose dynamic arguments need not be there and are counted from 0 behind an explicit id. |
| `FormatCompiled.CompileSpecsSays` | fmt/include/fmt/compile.h:282-292 | Specs are compiled to what they denote, and the next id is the one after them, or manual. |
| `Buffers.BoundedAppend` | fmt/include/fmt/base.h:1831-1844 | Delivering a further piece cut to the remaining room keeps the delivered text the first n units of the stream. |
| `Buffers.Buffer.Limit` | fmt/include/fmt/base.h:1831-1844 | The limiter passes on at most what is left and counts everything. |
| `Buffers.Buffer.FlushToIterator` | fmt/include/fmt/base.h:1858-1864 | Flushing empties the buffer and keeps the stream accounted for. |
| `Buffers.Buffer.FlushPointer` | fmt/include/fmt/base.h:1899-1906 | The first flush, full or not, leaves the caller's array for the scratch array without losing or exceeding anything; later ones only count. |
| `Buffers.Buffer.Grow` | fmt/include/fmt/base.h:1983-1987 | Growing always makes room for at least one unit, in all three buffers, even of capacity 0. |
| `Buffers.Buffer.TryReserve` | fmt/include/fmt/base.h:1785-1787 | After it there is room for one more unit. |
| `Buffers.Buffer.PushBack` | fmt/include/fmt/base.h:1789-1792 | The stream grows by one unit and nothing beyond the bound is written. |
| `Buffers.Buffer.Append` | fmt/include/fmt/base.h:1794-1814 | The stream grows by the whole source, however often the buffer flushes on the way. |
| `Buffers.Buffer.AppendPiece` | fmt/include/fmt/base.h:1803-1813 | Every turn of the loop takes at least one unit, also with capacity 0. |
| `Buffers.Buffer.Count` | fmt/include/fmt/base.h:1926-1928 | count() is the length of the full stream for bounded and counting buffers, and what is not flushed yet for an unlimited iterator. |
| `Buffers.Buffer.Out` | fmt/include/fmt/base.h:1922-1925 | out() has delivered exactly the first min(n, total) units and returns the position behind them. |
| `Buffers.FormatToN` | fmt/include/fmt/base.h:1846-1884 | Any sequence of push_back and append to an iterator with limit n delivers the first n units and the total. |
| `Buffers.FormatToArray` | fmt/include/fmt/base.h:1886-1929 | The same for a caller's array, which is unchanged beyond n. |
| `Buffers.FormattedSize` | fmt/include/fmt/base.h:1976-1995 | The counting buffer returns the total. |
| `DocoptTransform.Transform` | fmt/support/docopt.py:72-96 | It ends on every tree, in one Either of flat Required cases whose leaves, as bags, are the choice-by-choice expansion with OneOrMore doubled. |
| `DocoptTransform.Expand` | fmt/support/docopt.py:85-93 | Expanding one branch of a group keeps its cases and lowers the measure. |
| `DocoptTransform.ExpandEither` | fmt/support/docopt.py:87-89 | An Either gives one group for each child. |
| `DocoptTransform.ReplacementStep` | fmt/support/docopt.py:84-93 | The groups that replace a branch have the same cases, and the sum of products of node weights falls. |
| `DocoptTransform.ChildToFront` | fmt/support/docopt.py:85-86 | Moving the first branch to the front of its group keeps the cases. |
| `DocoptTransform.CasesOfAllConcat` | fmt/support/docopt.py:90-93 | The cases of a joined group are all pairs of cases, one from each part. |
| `DocoptMatch.SingleMatch` | fmt/support/docopt.py:150-208 | A match is the first leaf that fits; there is none only if nothing fits, or if the first argument is not the command's word. |
| `DocoptMatch.PlusAdds` | fmt/support/docopt.py:128-128 | The increment adds numbers, with True as 1, and joins lists in their order. |
| `DocoptMatch.MatchTree` | fmt/support/docopt.py:219-279 | Matching ends on every tree; the list of what is left gets shorter or is the very same, and no object vanishes. |
| `DocoptMatch.MatchIsClean` | fmt/support/docopt.py:219-265 | A match that fails returns the lists it was given, of the same objects in the same order, and one that takes nothing collects nothing. The values of the objects may have changed: see `DocoptWrites.FailedMatch`. |
| `DocoptMatch.MatchIsFramed` | fmt/support/docopt.py:112-130 | What is left is a subsequence; collected objects keep their places, and each object taken adds at most one; objects keep class and name, and only collected objects and options of the list get new values. |
| `DocoptMatch.ListsDecide` | fmt/support/docopt.py:112-130 | What a match takes and returns depends on the lists and not on the values accumulated so far, which only decide whether an addition raises. |
| `DocoptMatch.MatchReplays` | fmt/support/docopt.py:219-279 | Positions taken and names collected are those of leaves matched one after the other in a way the pattern allows: Required all children in turn, Optional each or not, Either one, OneOrMore again and again. A match that fails takes and collects nothing, though its writes stay. |
| `DocoptMatch.RequiredIsAll` | fmt/support/docopt.py:219-229 | Required matches if and only if each child matches what its elders left, and the first that does not ends it. |
| `DocoptMatch.OptionalTakesAll` | fmt/support/docopt.py:232-238 | Optional tries each child on what its elders left, takes what they take, and matches. |
| `DocoptMatch.EitherIsShortest` | fmt/support/docopt.py:268-279 | Either tries every child on the same lists, each from the values its elder siblings have left; it returns a child's lists that leave the least, and the values all children together have written. |
| `DocoptMatch.BestIsShortest` | fmt/support/docopt.py:270-279 | It is the first of the shortest, as Python's min picks it. |
| `DocoptMatch.ShortestIsFirst` | fmt/support/docopt.py:276-278 | The minimum leaves least, and every outcome before it leaves more. |
| `DocoptMatch.RepeatIsExhaustive` | fmt/support/docopt.py:256-262 | OneOrMore stops only where one more match of its child, if it does not raise, would take and collect nothing; what it would write is `DocoptWrites.ValueStays`. |
| `DocoptMatch.OneOrMoreNeedsOne` | fmt/support/docopt.py:246-265 | OneOrMore succeeds if and only if its child matches at first. |
| `DocoptMatch.RunLeaf` | fmt/support/docopt.py:112-130 | The two assignments to a value are done in place on the objects, and the lists are those of the recursive meaning. |
| `DocoptMatch.RunRequired` | fmt/support/docopt.py:219-229 | The loop of Required computes the recursive meaning, the writes of a failing child included. |
| `DocoptMatch.RunOptional` | fmt/support/docopt.py:232-238 | The loop of Optional computes the recursive meaning, writes included. |
| `DocoptMatch.RunOneOrMore` | fmt/support/docopt.py:246-265 | The loop of OneOrMore, with its early exit, computes the recursive meaning, the writes of the last attempt included. |
| `DocoptMatch.RunEither` | fmt/support/docopt.py:268-279 | Collecting the outcomes and taking the minimum computes the recursive meaning, the writes of discarded outcomes included. |
| `DocoptCollect.RepeatedArgument` | fmt/support/docopt.py:112-130 | `<file>...` collects all words of the command line in their order, in one new object, leaves the options, and matches if and only if there is a word. |
| `DocoptCollect.RepeatedOption` | fmt/support/docopt.py:112-130 | `-v...` takes every -v, collects the first one and gives it their number, and changes nothing else. |
| `DocoptWrites.AttemptsExplain` | fmt/support/docopt.py:112-130 | The attempts of all leaves, failed siblings and discarded children included, each starting from the values the one before left, end in exactly the values the match leaves. |
| `DocoptWrites.AttemptWrites` | fmt/support/docopt.py:118-129 | One attempt writes at most one object, the first collected one of its name or else the matched one, and gives it the sum or the increment. |
| `DocoptWrites.ValueStays` | fmt/support/docopt.py:118-129 | For every tree and parsed command line, an object keeps its value through a match if and only if no accumulating leaf was tried on it with success, kept or not. |
| `DocoptWrites.FailedMatch` | fmt/support/docopt.py:219-265 | A failed match returns the same lists, and leaves the same values if and only if it tried no accumulating leaf with success on an object that was there before: the exact answer to the question at line 257. |
| `DocoptWrites.AllStay` | fmt/support/docopt.py:219-279 | The same condition for every match, failed or not. |
| `DocoptWrites.NothingAccumulates` | fmt/support/docopt.py:118-129 | A tree without counters and lists never changes a value. |
| `DocoptWrites.FailureWrites` | fmt/support/docopt.py:219-229 | Required of a counted -v and a missing x fails on "-v" and leaves the object at 1. |
| `DocoptWrites.CountedThrice` | fmt/support/docopt.py:246-279 | One or more of "-v x or -v" on "-v -v" takes two options and counts three. |
| `GflagsValues.BaseIs` | gflags/src/gflags.cc:318-324 | The base is 16 exactly for texts that start with 0x or 0X, and else 10. |
| `GflagsValues.HexDigits` | gflags/src/gflags.cc:326-358 | What a hexadecimal digit is worth, in either case. |
| `GflagsValues.SignedExactly` | gflags/src/gflags.cc:313-352 | A signed flag takes exactly: white space, a sign and decimal digits, or 0x at the very start and hexadecimal digits, whose number is in range; and it takes that number. |
| `GflagsValues.UnsignedExactly` | gflags/src/gflags.cc:328-358 | An unsigned flag takes exactly such texts behind any blanks, unless a minus sign comes first; a minus behind other white space wraps modulo 2^64, and blanks alone are 0. |
| `GflagsValues.BoolExactly` | gflags/src/gflags.cc:292-311 | A boolean flag takes exactly 1, t, true, y, yes and 0, f, false, n, no, in small or capital letters. |
| `GflagsValues.PrintedExactly` | gflags/src/gflags.cc:369-396 | Numbers are printed in decimal, without leading zeros, with a sign only if negative; booleans as true and false. |
| `GflagsValues.ParseUndoesToString` | gflags/src/gflags.cc:292-396 | Printing a value and parsing the text gives the value back, for all types and values. |
| `GflagsValues.BlanksAreZero` | gflags/src/gflags.cc:313-368 | A blank string parses as 0, so parsing accepts texts printing never makes. |
| `GflagsRegistry.SetMakesConsistent` | gflags/src/gflags.cc:854-897 | After a set in any mode an unmodified flag has its default as current value; the modified bit never clears and the validator stays. |
| `GflagsRegistry.SetExactly` | gflags/src/gflags.cc:854-897 | What each mode does, member by member and in both directions: when a call succeeds, when the current and the default value become the accepted one, and when the bit is set. |
| `GflagsRegistry.FailedSet` | gflags/src/gflags.cc:854-897 | A failed set leaves both values; the flag is wholly unchanged if and only if its modified bit was right. |
| `GflagsRegistry.FailedSetExample` | gflags/src/gflags.cc:854-897 | A flag written directly and then set to a text that does not parse is marked as modified. |
| `GflagsRegistry.RunKeepsBit` | gflags/src/gflags.cc:589-595 | Over every run of sets in any modes and direct writes: the bit never clears, and without writes an unmodified flag keeps its default. |
| `GflagsRegistry.StoredValuesWereAccepted` | gflags/src/gflags.cc:821-897 | Over every run of sets, each stored value is the initial one or was parsed from an argument of the run, has the flag's type and range and passed the validator. |
| `GflagsRegistry.CommandLineFlag.UpdateModifiedBit` | gflags/src/gflags.cc:589-595 | The bit is set when the values differ and stays otherwise. |
| `GflagsRegistry.CommandLineFlag.CopyFrom` | gflags/src/gflags.cc:597-604 | The whole changeable state is the source's, although only differing members are assigned. |
| `GflagsRegistry.CommandLineFlag.SetLocked` | gflags/src/gflags.cc:854-897 | The in-place update in each mode: the result, both values, the bit and the validator are as `SetExactly` says. |
| `GflagsRegistry.FlagSaver.SaveFromRegistry` | gflags/src/gflags.cc:1682-1700 | The backup holds a copy of every flag, in objects of its own. |
| `GflagsRegistry.FlagSaver.RestoreToRegistry` | gflags/src/gflags.cc:1702-1715 | Whatever happened in between, every flag has its saved values, bit and validator again. |
| `GflagsText.FindsSpellings` | gflags/src/gflags.cc:740-752 | A flag is found under its name with any of its underscores written as dashes, and under no other. |
| `GflagsText.SplitExactly` | gflags/src/gflags.cc:763-819 | What every argument splits into: a flag of its key takes the value or, if boolean and alone, 1; else "no" in front of a boolean flag is 0 whatever value is given; else an error, which says whether the flag exists. |
| `GflagsText.FlagLineSplits` | gflags/src/gflags.cc:763-819 | A printed line splits into its flag and its value, even if the value holds "=". |
| `GflagsText.FlagsIntoString` | gflags/src/gflags.cc:1751-1771 | The printer writes one "--name=value" line for each flag. |
| `GflagsText.TextOfFirst` | gflags/src/gflags.cc:1751-1771 | What a line of the printer is. |
| `GflagsText.LineIsRead` | gflags/src/gflags.cc:1279-1320 | A clean line is read as one line, whatever follows without carriage returns. |
| `GflagsText.LinesRestore` | gflags/src/gflags.cc:1270-1354 | Reading the printed lines sets every flag to the printed value and touches nothing else, from any start. |
| `GflagsText.TextKeeps` | gflags/src/gflags.cc:1279-1320 | A text without a break character can never put one into a flag. |
| `GflagsText.RoundTripExactly` | gflags/src/gflags.cc:1751-1771 | Printing and reading restores all values from every start if and only if every value is free of CR, LF and NUL and passes its validator. |
| `GflagsText.BadFlagIsLost` | gflags/src/gflags.cc:1270-1354 | For each flag that breaks this there is a start from which it is not restored. |
| `GflagsAssignments.MakesOne` | gflags/src/gflags.cc:1181-1204 | Processing one option is making one assignment: the flag has the value if it accepts the text, else its name is in error; a recursive flag asks for more. |
| `GflagsAssignments.MakesThen` | gflags/src/gflags.cc:1181-1204 | One list of assignments after the other: for every flag the last text it accepts counts, and every rejected one is an error. |
| `GflagsLines.SpacesAreSkipped` | gflags/src/gflags.cc:1279-1290 | White space in front of a line is skipped, line breaks included. |
| `GflagsLines.ReturnEndsLine` | gflags/src/gflags.cc:1291-1300 | A carriage return ends a line, whatever newlines stand before it. |
| `GflagsLines.NewlineEndsLine` | gflags/src/gflags.cc:1291-1300 | A newline ends a line if no carriage return follows anywhere. |
| `GflagsLines.LastLine` | gflags/src/gflags.cc:1279-1300 | The end of the text ends the last line. |
| `GflagsLines.WordsAreWords` | gflags/src/gflags.cc:1336-1350 | The glob loop tries exactly the words between blanks. |
| `GflagsLines.LinesAssign` | gflags/src/gflags.cc:1291-1351 | A flag line is read exactly when no program names come before it or one of the last list of names matches; what has been done after any number of lines is what the lines that are read assign. |
| `GflagsLines.TextAssigns` | gflags/src/gflags.cc:1270-1354 | Reading a text makes the assignments of its relevant flag lines and no others; the names in error are exactly the flags given a text they do not accept. |
| `GflagsParser.CommandLineFlagParser.FindFlagLocked` | gflags/src/gflags.cc:740-752 | A name is looked up as given, then with dashes as underscores. |
| `GflagsParser.CommandLineFlagParser.SplitArgumentLocked` | gflags/src/gflags.cc:763-819 | The split on registry objects is the specified one, with its three errors. |
| `GflagsParser.CommandLineFlagParser.ProcessSingleOptionLocked` | gflags/src/gflags.cc:1181-1204 | One option sets one flag or notes its error, and marks the recursive flags, as `GflagsAssignments.MakesOne` says. |
| `GflagsParser.CommandLineFlagParser.ProcessLineLocked` | gflags/src/gflags.cc:1291-1351 | One line: comment, flag, or list of program names that opens a section. |
| `GflagsParser.CommandLineFlagParser.ProcessOptionsFromStringLocked` | gflags/src/gflags.cc:1270-1354 | The pointer loop over the text applies its lines in order. |
| `GflagsParser.ReadFlagsFromString` | gflags/src/gflags.cc:1779-1800 | A transaction over the assignments of the text: it succeeds if and only if every one is accepted, and then each flag has the last value given to it; else every flag has exactly its earlier values, bit and validator. Whether a recursive flag asked for more is returned; only errors are described then. |
| `GflagsParser.PrintAndRead` | gflags/src/gflags.cc:1773-1800 | Reading back printed restorable flags with the real parser succeeds and restores every current value. |
| `GflagsArgv.MoveToEnd` | gflags/src/gflags.cc:1040-1041 | The memmove and the store rotate one argument to the end. |
| `GflagsArgv.ArgumentShapes` | gflags/src/gflags.cc:1038-1053 | What kind of argument each string is: "-" is the program's own, only "--" ends the options, one or two dashes are stripped. |
| `GflagsArgv.ParseOption` | gflags/src/gflags.cc:1046-1105 | One option uses one or two arguments; "--" and a missing value stop the pass. |
| `GflagsArgv.PermuteArguments` | gflags/src/gflags.cc:1035-1106 | The loop ends with argv as kept, unscanned and moved arguments in this order. |
| `GflagsArgv.ScanMerges` | gflags/src/gflags.cc:1035-1106 | Kept and moved arguments are a merge of the scanned ones: both keep their order. |
| `GflagsArgv.ScanPermutes` | gflags/src/gflags.cc:1035-1106 | No argument is lost, invented or repeated. |
| `GflagsArgv.ScanMovesArguments` | gflags/src/gflags.cc:1038-1053 | Only program arguments move, and a tail is unscanned only behind "--" or an option without its value. |
| `GflagsArgv.ScanSorts` | gflags/src/gflags.cc:1035-1106 | What moves is every program argument that is no option's value, up to the first "--", and everything else scanned is kept, both in order; "--" as an option's value does not end the pass. |
| `GflagsArgv.SuffixIsOwn` | gflags/src/gflags.cc:1030-1119 | Without a "--" of its own the command line ends in exactly its program arguments, in their order; with one, the untouched tail stands in front of them. |
| `GflagsArgv.ScanAssigns` | gflags/src/gflags.cc:1046-1105 | Read off by position up to the first "--": every flag has the last value given to it that it accepts, behind "=" or as the next argument; in error are exactly the names of no flag, the flags given a text they do not accept, and an option whose value is missing at the very end. |
| `GflagsArgv.ParseNewCommandLineFlags` | gflags/src/gflags.cc:1030-1119 | From the returned index on argv holds the unscanned tail and all program arguments of the scanned part, in order; argv is a permutation of its input, and removing flags keeps the program name in front; the flags and the errors are what the options on the command line assign. |
| `TrailingZeros.RotationTest` | fmt/include/fmt/format-inl.h:177-184 | For every width, rotation r and odd d with inverse: the rotated product is small exactly if d * 2^r divides the word, and is then the quotient. |
| `TrailingZeros.Test100of32` | fmt/include/fmt/format-inl.h:1160-1162 | The instance for 32 bits, 25 and rotation by 2: divisibility by 100. |
| `TrailingZeros.Test10of32` | fmt/include/fmt/format-inl.h:1165-1168 | The instance for 32 bits, 5 and rotation by 1: divisibility by 10. |
| `TrailingZeros.Test100of64` | fmt/include/fmt/format-inl.h:1197-1199 | The instance for 64 bits and 100. |
| `TrailingZeros.Test10of64` | fmt/include/fmt/format-inl.h:1202-1205 | The instance for 64 bits and 10. |
| `TrailingZeros.TestTen8` | fmt/include/fmt/format-inl.h:1177-1184 | The magic-number test is exactly divisibility by 10^8, for all 64-bit numbers, and the high bits are the quotient. |
| `TrailingZeros.RemoveTrailingZeros32` | fmt/include/fmt/format-inl.h:1153-1171 | For every nonzero number the result times 10^k is the input and 10 does not divide it; how the count depends on the parity of the start is exact. |
| `TrailingZeros.RemoveTrailingZeros64` | fmt/include/fmt/format-inl.h:1174-1209 | The same for 64 bits if and only if the input is no multiple of 10^8 from 2^32 * 10^8 on; when the inner assertion fails is exact. |
| `TrailingZeros.RemoveZerosLoop64` | fmt/include/fmt/format-inl.h:1191-1208 | The loop for numbers that 10^8 does not divide. |
| `TrailingZeros.SplitIsUnique` | fmt/include/fmt/format-inl.h:1152-1171 | There is only one such result and count. |
| `TrailingZeros.CutExample` | fmt/include/fmt/format-inl.h:1184-1188 | 2^32 * 10^8 is a 64-bit number whose quotient is cut to 0. |
| `IsoWeek.YearWeeksAreThursdays` | fmt/include/fmt/chrono.h:1179-1188 | From year 0 on the formula is the number of Thursdays in the year; before it is always 52. |
| `IsoWeek.WeekNumFromThursday` | fmt/include/fmt/chrono.h:1189-1192 | The week number counts the Thursdays up to the one of the day's week. |
| `IsoWeek.WeekOneHoldsFourthJanuary` | fmt/include/fmt/chrono.h:1178-1206 | The calendar's week 1 holds 4 January and later weeks follow seven days apart, as section 7.27.3.5 of ISO C11 says for %G and %V. |
| `IsoWeek.OnlyWeek53Fails` | fmt/include/fmt/chrono.h:1193-1206 | Measured by the calendar, the pair is wrong only in the 53rd week of a negative year. |
| `IsoWeek.IsoWeekExact` | fmt/include/fmt/chrono.h:1193-1206 | For every consistent date the pair is the calendar's if and only if a condition on its year, yday and wday holds: it is not in the last week of a negative year that starts on a Thursday, or on a Wednesday in a leap year. |
| `IsoWeek.IsoWeekFromYearOne` | fmt/include/fmt/chrono.h:1193-1206 | From year 1 on every date lies in the week its pair names, with a week from 1 to 53. |
| `IsoWeek.PairNamesOneWeek` | fmt/include/fmt/chrono.h:1193-1206 | Two days have the same pair if and only if they are in the same week. |
| `IsoWeek.PairChangesOnMonday` | fmt/include/fmt/chrono.h:1193-1206 | The pair changes from one day to the next exactly from Sunday to Monday. |
| `IsoWeek.NegativeYearExample` | fmt/include/fmt/chrono.h:1179-1188 | 1 January of year -1 is in week 53 of year -2, and the code says 52. |
| `DurationCast.LosslessIntegralConversion` | fmt/include/fmt/chrono.h:56-125 | For every pair of integer types, no error if and only if the value fits, and then the value itself. |
| `DurationCast.DurationCast` | fmt/include/fmt/chrono.h:451-485 | It throws unless count, product and quotient fit their types, and returns the quotient toward zero otherwise. |
| `DurationCast.GuardsAreExact` | fmt/include/fmt/chrono.h:471-477 | The two guards before the multiplication are exactly overflow of the common type. |
| `DurationCast.CommonHolds` | fmt/include/fmt/chrono.h:461-463 | The common type is signed exactly if intmax_t holds all values of both types, and holds all their values that its sign allows. |
| `DurationCast.CastMeaning` | fmt/include/fmt/chrono.h:459-485 | A result is count * num / den truncated toward zero, on both sides of zero. |
| `DurationCast.TruncDivFits` | fmt/include/fmt/chrono.h:478-478 | The division never leaves the common type. |
| `DurationCast.NegativeToUnsigned` | fmt/include/fmt/chrono.h:465-468 | Every negative count throws when the target is the widest unsigned type. |
| `FractionalSeconds.WriteFractionalSeconds` | fmt/include/fmt/chrono.h:1043-1089 | A point and exactly p digits, or those of the unit, that denote the subseconds cut or extended to p digits; nothing for precision 0. |
| `FractionalSeconds.WritePrecise` | fmt/include/fmt/chrono.h:1072-1088 | The branch for a given precision, through leading zeros, truncation and padding. |
| `FractionalSeconds.DigitsExactly` | fmt/include/fmt/chrono.h:1024-1039 | The unit has the fewest digits that write the period exactly, if the template can multiply that far, and else 6. |
| `FractionalSeconds.WholeAndFraction` | fmt/include/fmt/chrono.h:1043-1056 | What is written is what is left of the count without its whole seconds. |
| `FractionalSeconds.TruncatedDigits` | fmt/include/fmt/chrono.h:1077-1082 | Dropping digits leaves exactly the leading p. |
| `FractionalSeconds.ExtendedDigits` | fmt/include/fmt/chrono.h:1083-1087 | Filling up leaves exactly p digits. |
| `FractionalSeconds.WrittenIsTrue` | fmt/include/fmt/chrono.h:1043-1089 | The digits are floor(fraction * 10^p) if and only if p is within the unit or the part the unit loses is too small to show. |
| `FractionalSeconds.PeriodDecides` | fmt/include/fmt/chrono.h:1024-1039 | For all counts of a period at once: if and only if p is within the unit or the unit is exact. |
| `FractionalSeconds.ThirdOfASecond` | fmt/include/fmt/chrono.h:1024-1039 | One third of a second at seven digits is written 3333330. |

## Left out

- Twist: the simulator is not modelled; it is another program than the ones above.
- Dragonbox: the shortest-output proof, its power tables and `divide_by_10_to_kappa_plus_1` are facts about finite tables, or about a constant off by a known error.
- Memory orders of the mutex: steps are sequentially consistent, so acquire and release are not distinguished.
- Futex waits with a timeout and the Windows and macOS system calls.
- Reading the Unicode data and printing the tables as C++ text.
- `PrintableTables.ToRanges`: the Python generator is a method that returns all ranges at once.
- `FormatSpecs.RunTurn`: the position and the specs are returned as a value with the verdict of the turn, where the code updates them through references.
- `FormatSpecs.RunParseSpecs`: code units are those of `char`, so for wide character types the length of a fill character is not modelled.
- `FormatStrings.FormatHandler.OnArgId`: arguments have no names, so a name is always reported as not found.
- `FormatStrings.FormatHandler.OnFormatSpecs`: custom formatters are not modelled, and neither are the values of dynamic widths and precisions, which are checked while formatting.
- `FormatCompile.CompilerKeepsMeaning`: argument lists hold positional arguments of built-in types, fewer than INT_MAX of them; the emitted fields are compared, not the text that formatting an argument writes.
- `format_string_checker`, the handler that runs the same parser on format strings at compile time.
- `Buffers.Buffer.Out`: for a caller's array with room left, appending after out() would write to the scratch array and be lost, so the buffer is not valid for further calls then.
- `container_buffer` and the unlimited pointer buffer, whose growth is that of a vector or none; sizes do not wrap.
- `DocoptMatch.RunLeaf`: a list that is a value is not an object of its own, so `+=` on a list held by two leaves would change both in the code and one here; a parsed command line holds words, and every collected list is made by one increment. Leaves of the tree are objects apart from those of the lists, so the tree is not written to.
- `DocoptWrites.ValueStays`: values are those a command line parses to, texts, True and None; with a counter that was already in the list, adding nothing would be a write that shows no difference.
- `DocoptTransform.Transform`: cases and their leaves are bags; their order, which the counting after `transform` does not look at, is not described.
- docopt's parsing of usage texts, and the fixing passes before `transform`.
- Flags of type double.
- `GflagsParser.CommandLineFlagParser.ProcessSingleOptionLocked`: flag files and environment variables named by recursive flags are not read; a run that would read one is only marked.
- `GflagsParser.CommandLineFlagParser.ProcessLineLocked`: matching program names against a line is a parameter.
- `GflagsParser.ReadFlagsFromString`: error texts, help flags and the fatal exit are not modelled, only which names have an error.
- `GflagsArgv.ParseNewCommandLineFlags`: the warning about values that look like flags is not modelled, nor are null bytes inside arguments.
- Registration of flags and the lookup by pointer; locks of the registry, which is used by one thread here.
- `FractionalSeconds.WriteFractionalSeconds`: counts are integers and not negative, and the two casts inside are taken not to throw; when they do is `DurationCast`.
- Floating-point durations and the floating-point `duration_cast`.
- Locales, time zones, other chrono specifiers, and `backward.hpp`.
