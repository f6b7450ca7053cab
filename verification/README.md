# A verified model of the shell and of the text tools around it

The repository builds a handheld dictionary on NuttX. This project models the parts of it that
carry the hard behaviour, and proves what they do:

- **Control flow of the NuttX shell** (NSH). A script is never parsed into a tree. One command
  at a time, the shell updates two bounded stacks of `if` and loop records, and `done` seeks the
  script file back to a saved offset. `ControlState` is that state and its operations,
  `ShellParser` the object with its arrays, `Machine` the script reader as a flat machine,
  `ScriptReader` its two nested loops, and `Structured` an ordinary interpreter over an abstract
  syntax tree. The main theorem (`ScriptTheorem`, and `ScriptText` for the bytes of a file) is
  that the flat machine executes exactly the commands of the structured interpreter, on every
  sequence of command results, comes to the end of the file when the interpreter finishes and
  dies when it stops on an error, and leaves nothing open. Its limits are proved to be limits:
  `Leaks` and `NestedLoops` for loops directly in loops, `Stray` and `BreakLimit` for breaks
  under ifs when errors count, `Drift`, `DriftLimit` and `IgnoredErrors` when they are ignored,
  `QuotedHead` for loop heads with quotation marks, `UnclosedQuotes` for lines that leave one open.
  `EnableCheck`, `KeywordBalance` and `KeywordGrammar` are about all streams of commands, well nested
  or not. `ScriptPrinter` prints a structured script and
  joins control flow and quoting, and `Surroundings` lets the variables change during a run.
- **Quoting, splitting and expansion.** `LineSplit` and `LineParser` cut a line into commands,
  `Arguments` takes a command apart, `Expansion` and `Escapes` replace `$NAME` and `${NAME}` and
  remove backslashes. Each loop works in place on a buffer and is proved against a function on
  strings; `Expansion`, `QuotingRoundTrip` and `TemplateArguments` prove that printing and reading
  are inverse.
- **The stores of the shell.** `Variables` packs `name=value` entries into one buffer that
  behaves as a map. `AliasPool` and `AliasTable` are a fixed pool of aliases on two lists, whose
  deletion is put off while an alias is being expanded.
- **Romaji.** `Romaji` says what the transliterator writes, `RomajiBuffer` has the C and the
  Rust program with their bounded buffers, `RomajiReading` how words are read whatever the case of
  their letters, `RomajiGojuon` checks the table against the fifty sounds, `Katakana` is the shift
  from hiragana to katakana on UTF-8 bytes, `Utf8` the encoding of RFC 3629.
- **Smaller pieces.** The palette and run-length encoder of the bitmap converter (`Bitmap`), the
  composite audio driver (`AudioComposite`), the dictionary's field sanitiser and reading match
  (`DictionaryText`, `DictionaryMatch`) and the table printed by `help` (`HelpLayout`).

`dafny verify dfyconfig.toml` checks the project.

## How the model is written

Results of commands are a finite sequence that the machine and the interpreter both consume, and
both stop when it is used up; a script that never ends is described by its runs on ever longer
sequences. `ignore` stands for NSH_PFLAG_IGNORE. How a command's text becomes words is a parameter
`words` of the script theorems; `ScriptPrinter.Splitter` is that of the shell. The depth of the
stacks (CONFIG_NSH_NESTDEPTH) is a parameter. The options QUOTE, ARGCAT, VARS, ALIAS and PIPELINE
are taken to be on. `lead` is the byte in front of the buffer, which the source reads. `Guard`
keeps some definitions closed, and a few are sealed behind a number, so that proofs stay short.
The loops of C are loops on arrays here, the lists and dictionaries that methods reassign are
sequences. Allocation may fail where a parameter (`memory`, `nameMem`, `valueMem`) says so.

Where the code does something else than its documentation or its reader would expect, the model
follows the code and says so in a lemma:

- A loop directly in the body of a loop is executed even if the outer loop is not entered or is
  left by a `break`, because only the top loop record is looked at. `ScriptTheorem.ScriptActs`
  says what the machine then does, for all scripts but those with a `break` under an `if` in a
  loop; `NestedLoops.LoopsApartExactly` proves that
  it is what the structure says exactly when there is no such loop.
- `break` under an `if` in a loop also closes the `if`, so the `fi` behind it meets the wrong
  record. When errors count, a script that gets there never comes to its end
  (`BreakLimit.BreaksExactly`). When they are ignored, the `else` of an `if` around the loop may then
  be rejected and its branch be executed all the same (`BreakUnderIf.BreakRunsElse`).
  `IgnoredErrors.IgnoredActs` says what is executed, and `IgnoredErrors.IgnoredExactly` proves that it
  is what the structure says exactly when the script is harmless, which one can compute from it.
- The offset that a loop saves is that of the last search in its line. If the head of the loop has
  a quotation mark, `done` comes back behind the quoted text (`QuotedHead.QuotedHeadMisses`).
- The search for the end of a token looks at the byte in front of a blank for a backslash, also when
  that byte is in quotes: a text in double quotes that ends in a backslash runs on into the next word
  (`TemplateArguments.BackslashJoins`).
- A set that fails for want of memory has already lost the old value (`Variables.VarStore.SetVar`).
- An alias that is redefined while its deletion is put off is deleted all the same
  (`AliasPool.SavedThenEnded`, `AliasPool.RedefinedIsLost`).
- The header of the transliterator says that kana passes through unchanged. It does exactly when
  no character has two equal neighbouring bytes; も, ぁ and ッ have
  (`RomajiPassThrough.NonAsciiPasses`, `TornKana`, `MoIsTorn`).
- The shift to katakana in C takes two to four bytes at a time and looks for the NUL only between
  the steps. It stays inside the string exactly when the widths of the bytes it meets tile the
  string (`Katakana.InsideExactly`); on what も comes out as, it goes two bytes too far
  (`RomajiPassThrough.MoOverruns`). The Rust program has a bound.
- `%`, `_` and `;` in a query are not taken literally: `%` alone finds every word
  (`DictionaryMatch.PercentMatchesAll`), `_` every reading of one character (`UnderscoreFinds`), and
  `a;b` a word with the readings a and b side by side (`NeighboursFound`). The search is membership
  among the readings exactly for the queries without them (`DictionaryMatch.MembershipExactly`).
- When the composite audio driver rolls back, it also tells drivers to undo what they had not
  done (`AudioComposite.Touched`).
- `help` writes past its line buffer when a column is wider than a line
  (`HelpLayout.FitExactly`).

## Model

| member | source | states |
|---|---|---|
| ScriptTheorem.ScriptFaithful | NUTTXSIM/apps/nshlib/nsh_parse.c:1856-2287 | for every structured script within the limits, every sequence of command results and both error modes, with `do if` in one command or in two: whatever the flat machine has executed is a prefix of what the structured interpreter executes, and it gets to execute all of it; it then comes to the end of the file if the interpreter finishes, with the same results left over and no `if` or loop open, and dies on the error if the interpreter stops |
| ScriptTheorem.ScriptActs | NUTTXSIM/apps/nshlib/nsh_parse.c:1856-1925 | the same without the limit on nested loops, for the meaning in which a loop directly in the body of a loop is executed also where that body is passed over |
| Leaks.ActsAsMeantAll | NUTTXSIM/apps/nshlib/nsh_parse.c:1856-1873 | on every sequence of results, that meaning is the structured one where no reachable loop has a loop directly in its body |
| ScriptTheorem.EndedBounds | NUTTXSIM/apps/nshlib/nsh_script.c:146-189 | nothing is executed after a state in which the script has ended, over all runs |
| ScriptTheorem.EndedUnique | NUTTXSIM/apps/nshlib/nsh_script.c:146-189 | a run ends in one state only, so a script has one way to end |
| ScriptText.ScriptFileFaithful | NUTTXSIM/apps/nshlib/nsh_script.c:146-189 | the same for a script given as text: commands on lines, separated by `;`, with comments and quotes, loop heads without separators; in particular the offset saved for `done` is the right one |
| ScriptText.ScriptFileActs | NUTTXSIM/apps/nshlib/nsh_script.c:146-189 | and the same for a script file with loops directly in loops |
| ScriptText.RenderStands | NUTTXSIM/apps/nshlib/nsh_parse.c:2999-3110 | at every offset where a command has been laid out the reader finds that command, and the offset a loop would save leads back to it |
| ScriptText.FetchPiece | NUTTXSIM/apps/nshlib/nsh_parse.c:2999-3110 | at the offset of a command the reader fetches it and goes on behind it, and the offset it hands on for loops is that of the command if and only if there is no quotation mark in it |
| UnclosedQuotes.UnclosedEnds | NUTTXSIM/apps/nshlib/nsh_parse.c:3080-3105 | errors counted: a script executes what stands in front of a line with an unclosed quotation mark, and dies there, whatever stands behind it |
| UnclosedQuotes.UnclosedPassed | NUTTXSIM/apps/nshlib/nsh_parse.c:3080-3105 | errors ignored: it goes on in the next line as if that line were not there |
| UnclosedQuotes.UnclosedLine | NUTTXSIM/apps/nshlib/nsh_parse.c:3080-3105 | the reader finds such a line exactly where an automaton that reads the line a character at a time ends in quotes |
| QuotedHead.QuotedHeadMisses | NUTTXSIM/apps/nshlib/nsh_parse.c:1987-2007 | for every loop whose head ends in a text in single quotes: the commands of the file are those of the loop, and yet it is not executed as the loop says |
| ScriptPrinter.ShellMisled | NUTTXSIM/apps/nshlib/nsh_parse.c:1987-2007 | the shell itself is misled by every loop with a quoted word in its head: its argument parser reads the words of the loop, and yet it is not executed as it says |
| ScriptPrinter.PrintedFaithful | NUTTXSIM/apps/nshlib/nsh_parse.c:2481-2965 | a structured script printed with its arguments in single quotes, split by the argument parser and the keywords, is executed as its structure says, whatever blanks, `$`, `;`, `#` or keywords the arguments hold, and whatever the variables are in each step of the run |
| ScriptPrinter.NeatAllPrints | NUTTXSIM/apps/nshlib/nsh_parse.c:2481-2965 | every script can be printed in which no word is a keyword, its texts can be quoted on one line, and the names of commands and the heads of loops are plain |
| Surroundings.FileFaithfulWith | NUTTXSIM/apps/nshlib/nsh_script.c:146-189 | a script file is executed as its structure says also when every step of the run splits commands in its own way, as long as the commands that are laid out are split alike |
| Surroundings.SameRun | NUTTXSIM/apps/nshlib/nsh_parse.c:1933-2118 | such a run is that of a single way, step for step: it comes only to the offsets of the pieces, also by `done` |
| ScriptPrinter.CommandBack | NUTTXSIM/apps/nshlib/nsh_parse.c:1608-1849 | a printed command is split into exactly its words, keywords included |
| ScriptReader.RunScript | NUTTXSIM/apps/nshlib/nsh_script.c:146-189 | the two nested loops (lines of the file, commands of a line) do, for any number of commands, what the same number of steps of the flat machine does: same trace, same results left, same stacks |
| ScriptReader.OneLine | NUTTXSIM/apps/nshlib/nsh_parse.c:2999-3110 | one line is so many steps of the machine, and the file offset afterwards is the machine's, also after a jump |
| NestedLoops.LoopsApartExactly | NUTTXSIM/apps/nshlib/nsh_parse.c:1856-1873 | a script whose breaks are placed is executed as its structure says on all results if and only if no reachable loop has a loop directly in its body |
| NestedLoops.NestedShows | NUTTXSIM/apps/nshlib/nsh_parse.c:1856-1873 | results, found by recursion over the script, that are just enough for the structured interpreter and on which the machine is not faithful |
| NestedLoops.LeakSkipped | NUTTXSIM/apps/nshlib/nsh_parse.c:1856-1873 | in the body of a loop that is left, the first loop gets its condition executed, and nothing is executed before it |
| Simulation.PassLeaking | NUTTXSIM/apps/nshlib/nsh_parse.c:1856-1925 | on the machine: in such a body exactly the loops that stand directly in it are executed, and the open records stay as they were |
| BreakLimit.BreaksExactly | NUTTXSIM/apps/nshlib/nsh_parse.c:3123-3149 | with errors counted, a script without a loop inside a loop, its loops under ifs or not, is executed as its structure says on all results if and only if no reachable `break` stands under an `if` in a loop |
| IgnoredErrors.FaithfulWhenIgnored | NUTTXSIM/apps/nshlib/nsh_parse.c:2238-2262 | in particular, with errors ignored, a script without a loop inside a loop is faithful when no loop with a `break` under an `if` stands in a `then` part whose `else` part has something to execute; loops under no `if` are such |
| BreakLimit.MisplacedShows | NUTTXSIM/apps/nshlib/nsh_parse.c:2238-2262 | on results, found by recursion, that lead to such a `break`, the structured script finishes and no run of the machine comes to the end of the file |
| Stray.LostForGood | NUTTXSIM/apps/nshlib/nsh_parse.c:2126-2287 | the reason: once the `if` index is below the `if` depth of the text that follows, it stays so over every number of steps, or the script has died |
| Stray.LostNeverEnds | NUTTXSIM/apps/nshlib/nsh_parse.c:2238-2262 | so no run from such a state comes to the end of the file: some `else` or `fi` is rejected |
| IgnoredErrors.IgnoredExactly | NUTTXSIM/apps/nshlib/nsh_parse.c:2225-2287 | with errors ignored, a script without a loop inside a loop, wherever its breaks stand, is executed as its structure says on all results if and only if it is harmless: following the open records by recursion over the script, no `else` part with something to execute is reached with a record that is not in its `then` part |
| IgnoredErrors.IgnoredActs | NUTTXSIM/apps/nshlib/nsh_parse.c:2225-2287 | what the machine executes with errors ignored, for every such script and all results: rejected keywords close all records, others work on the record that is on top |
| IgnoredErrors.HarmShows | NUTTXSIM/apps/nshlib/nsh_parse.c:2225-2234 | results, found by recursion, on which the script that is not harmless is to finish and the machine executes more commands, however it goes on |
| Drift.HarmlessActsAll | NUTTXSIM/apps/nshlib/nsh_parse.c:3123-3149 | on every sequence of results, a harmless script means to the machine what its structure says, and the records it leaves are among those foreseen |
| BreakUnderIf.BreakRunsElse | NUTTXSIM/apps/nshlib/nsh_parse.c:3123-3149 | with errors ignored, a loop with such a `break` in the `then` part of an `if` makes the `else` part run as well, for all commands |
| EnableCheck.EnabledExactly | NUTTXSIM/apps/nshlib/nsh_parse.c:1883-1907 | after every stream of commands without loops, well nested or not, the check of the top record says whether every open `if` is in its taken branch |
| EnableCheck.StacksSafe | NUTTXSIM/apps/nshlib/nsh_parse.c:1933-2287 | over every stream of commands, ill-nested ones, errors and breaks included, both indices stay inside the stacks, slot 0 stays normal, and the two internal-error branches are not reached |
| EnableCheck.AfterSafe | NUTTXSIM/apps/nshlib/nsh_parse.c:2050-2054 | the same from every safe state |
| EnableCheck.ConsoleLoops | NUTTXSIM/apps/nshlib/nsh_parse.c:1970-1981 | where no script file is open, after every stream of commands: no loop is open and nothing jumps, and a command that begins with `while` or `until` executes nothing and is an error unless an `if` waits for its condition |
| EnableCheck.LoopOpensExactly | NUTTXSIM/apps/nshlib/nsh_parse.c:1958-2007 | a command opens a loop if and only if it is `while` or `until` with a command, read from a file that can be sought, where no condition is awaited and the stack has room; the record then has the kind, the offset and the `if` index |
| EnableCheck.ExitStatus | NUTTXSIM/apps/nshlib/nsh_parse.c:445-502 | the exit status is that of the last command that was executed for itself |
| EnableCheck.ConditionStatus | NUTTXSIM/apps/nshlib/nsh_parse.c:445-502 | a command that is the condition of an `if` leaves the status 0, and its result, inverted by `!`, goes to the record |
| KeywordBalance.KeywordsBalanced | NUTTXSIM/apps/nshlib/nsh_parse.c:1933-2287 | over every stream whose keywords are all accepted, in whatever command they stand: the `if` index is the number of `if` less that of `fi`, each open or closed `if` has had one `then`, no `else` is too many, and likewise for the four loop keywords |
| KeywordGrammar.GrammarDecides | NUTTXSIM/apps/nshlib/nsh_parse.c:1933-2287 | for every stream without `break`, rejected keywords included, and whatever its commands return: the open records are those that a grammar of two stacks says, which looks at the words alone, and all keywords are accepted if and only if the grammar takes them |
| KeywordGrammar.CommandAgrees | NUTTXSIM/apps/nshlib/nsh_parse.c:2481-2965 | one command, from every such state: it is accepted exactly when the grammar takes it; a refused loop keyword closes the loops, a refused `if` keyword the ifs, and either executes nothing |
| ControlState.ParseCommandSafe | NUTTXSIM/apps/nshlib/nsh_parse.c:2481-2965 | a command keeps the stacks safe, whatever it is |
| ControlState.LoopTokenSafe | NUTTXSIM/apps/nshlib/nsh_parse.c:1933-2118 | `while`, `until`, `do` and `done` keep the stacks safe, wherever they stand |
| ControlState.ItefTokenSafe | NUTTXSIM/apps/nshlib/nsh_parse.c:2126-2287 | `if`, `then`, `else` and `fi` keep the stacks safe, wherever they stand |
| ShellParser.NshParser.SaveResult | NUTTXSIM/apps/nshlib/nsh_parse.c:445-502 | the result of a command goes to the loop or the `if` that waits for a condition, and nothing else changes |
| ShellParser.NshParser.LoopToken | NUTTXSIM/apps/nshlib/nsh_parse.c:1933-2118 | the fields and arrays change as the loop keywords of the flat state do, error cases included |
| ShellParser.NshParser.ItefToken | NUTTXSIM/apps/nshlib/nsh_parse.c:2126-2287 | likewise for the `if` keywords |
| ShellParser.NshParser.CmdEnabled | NUTTXSIM/apps/nshlib/nsh_parse.c:1917-1925 | the check on the arrays is the check of the flat state |
| ShellParser.NshParser.Break | NUTTXSIM/apps/nshlib/nsh_parse.c:3123-3149 | the top loop is disabled and the `if` index goes back to where the loop began, in a loop body only |
| ShellParser.NshParser.ParseCommand | NUTTXSIM/apps/nshlib/nsh_parse.c:2481-2965 | keywords, enable check and execution together refine the flat state, with the same events and results |
| Skipping.SkipAll | NUTTXSIM/apps/nshlib/nsh_parse.c:1917-1925 | statements in a branch that is not taken are passed over without a trace and leave the open records as they were |
| Simulation.RunAll | NUTTXSIM/apps/nshlib/nsh_parse.c:1933-2287 | from every state inside a script: the statements that follow are executed as the machine's meaning says, loops in loops included, and the records below are untouched, also after a `break` |
| LineSplit.ScanIsSimple | NUTTXSIM/apps/nshlib/nsh_parse.c:3002-3110 | the search that jumps from separator to separator finds the same cut as an automaton that reads the line once |
| LineSplit.CutOutside | NUTTXSIM/apps/nshlib/nsh_parse.c:3002-3110 | no cut falls inside a quoted text |
| LineSplit.SplitConserves | NUTTXSIM/apps/nshlib/nsh_parse.c:3002-3110 | the commands of a line with closed quotes, joined by `;`, give the line back |
| LineSplit.SplitAlone | NUTTXSIM/apps/nshlib/nsh_parse.c:3002-3110 | each of these commands is one command by itself |
| LineSplit.SplitJoin | NUTTXSIM/apps/nshlib/nsh_parse.c:3002-3110 | splitting undoes joining |
| LineParser.ParseLine | NUTTXSIM/apps/nshlib/nsh_parse.c:2981-3116 | the loop on the line buffer ends, and hands on the commands of the split line up to the first that fails or jumps |
| LineParser.HandPrefix | NUTTXSIM/apps/nshlib/nsh_parse.c:3041-3069 | what is handed on is a prefix of the commands that ends exactly at the first failure (errors not ignored) or jump |
| LineParser.HandAll | NUTTXSIM/apps/nshlib/nsh_parse.c:3041-3069 | when all commands succeed and none jumps, all of them are handed on |
| LineParser.FindCut | NUTTXSIM/apps/nshlib/nsh_parse.c:3002-3110 | the passes over the buffer find the cut of the specification |
| CBuffer.StrChr | NUTTXSIM/apps/nshlib/nsh_parse.c:1040-1064 | the first occurrence that no backslash protects |
| Escapes.FindIsFirst | NUTTXSIM/apps/nshlib/nsh_parse.c:1040-1064 | that search finds the first unescaped position, and finds none only when all are escaped |
| Escapes.ForwardIsBackward | NUTTXSIM/apps/nshlib/nsh_parse.c:1297-1334 | at every position, counting backslashes backwards agrees with scanning forwards |
| Escapes.IsQuoted | NUTTXSIM/apps/nshlib/nsh_parse.c:1297-1334 | the backward count on the buffer says whether the position is escaped |
| Escapes.Dequote | NUTTXSIM/apps/nshlib/nsh_parse.c:1193-1239 | the text is moved down over each backslash that is not protected; the rest of the buffer is untouched |
| Escapes.DequoteEscape | NUTTXSIM/apps/nshlib/nsh_parse.c:1193-1239 | removing backslashes undoes escaping |
| Escapes.DequoteConcat | NUTTXSIM/apps/nshlib/nsh_parse.c:1193-1239 | it works piece by piece, unless a piece ends in an open escape |
| Expansion.ArgExpand | NUTTXSIM/apps/nshlib/nsh_parse.c:1279-1528 | the loop returns the text with its variables replaced and its backslashes removed; the buffer outside the text is untouched |
| Expansion.EscapeRoundTrip | NUTTXSIM/apps/nshlib/nsh_parse.c:1279-1528 | every text, with each backslash, `$` and back-quote escaped, expands to itself |
| Expansion.TemplateRoundTrip | NUTTXSIM/apps/nshlib/nsh_parse.c:1279-1528 | every text written from literal parts and `${NAME}` references, with a `$NAME` at its end or not, expands to those parts with the values in place |
| Expansion.UnbracedRoundTrip | NUTTXSIM/apps/nshlib/nsh_parse.c:1470-1497 | for every text and name that does not begin with a brace, a dollar sign behind the text names the variable of all that follows it |
| Expansion.UnclosedBrace | NUTTXSIM/apps/nshlib/nsh_parse.c:1441-1463 | a brace that is not closed makes the whole argument empty, whatever stands before it |
| Expansion.TakeReference | NUTTXSIM/apps/nshlib/nsh_parse.c:1432-1485 | the name of a reference, with or without braces, and where the text goes on |
| Arguments.RemoveQuotes | NUTTXSIM/apps/nshlib/nsh_parse.c:1246-1272 | the two marks are gone, what stood between and behind them is kept |
| Arguments.FindTokenEnd | NUTTXSIM/apps/nshlib/nsh_parse.c:1608-1849 | the scan over the buffer finds the token of the specification and removes its quotation marks |
| Arguments.TakeArgument | NUTTXSIM/apps/nshlib/nsh_parse.c:1608-1849 | one call returns the next argument of the specification and leaves the rest of the line in the buffer |
| Arguments.TakeAllArguments | NUTTXSIM/apps/nshlib/nsh_parse.c:1608-1849 | successive calls return all arguments |
| QuotingRoundTrip.ArgumentsBack | NUTTXSIM/apps/nshlib/nsh_parse.c:1246-1272 | a plain word and texts in single quotes are read back as that word and those texts, and the line is one the loops can take |
| QuotingRoundTrip.QuotedRoundTrip | NUTTXSIM/apps/nshlib/nsh_parse.c:2981-3110 | such a line is one command, and its arguments are the word and the texts, whatever blanks, `$`, `;`, `#` or back-quotes they hold |
| TemplateArguments.LineBack | NUTTXSIM/apps/nshlib/nsh_parse.c:1608-1849 | a word and any list of arguments, each a template without quotes, a template in double quotes or a text in single quotes, with any blanks between them and a comment behind them: the arguments are the word, what the templates stand for, and the texts as they are |
| TemplateArguments.LineThen | NUTTXSIM/apps/nshlib/nsh_parse.c:1830-1842 | the same with anything behind them that begins with a blank: the arguments of that follow |
| TemplateArguments.BarBetween | NUTTXSIM/apps/nshlib/nsh_parse.c:1658-1688 | a bar is an argument by itself, and the arguments behind it follow |
| TemplateArguments.SegmentsToken | NUTTXSIM/apps/nshlib/nsh_parse.c:1690-1828 | a token put together from bare text and texts in the three kinds of quotes ends at the next blank, loses its single and double quotation marks, and counts as quoted if and only if some of it is in single quotes |
| TemplateArguments.BackslashJoins | NUTTXSIM/apps/nshlib/nsh_parse.c:1774-1800 | a text in double quotes that ends in a backslash takes the blank behind it, and the next word, into the argument |
| Variables.EncodeInjective | NUTTXSIM/apps/nshlib/nsh_vars.c:90-110 | the buffer determines the variables and their order |
| Variables.VarStore.CmpName | NUTTXSIM/apps/nshlib/nsh_vars.c:48-64 | true exactly when the entry has that name |
| Variables.VarStore.FindVar | NUTTXSIM/apps/nshlib/nsh_vars.c:90-110 | the offset of the entry of that name, or none if there is none |
| Variables.VarStore.RemoveVar | NUTTXSIM/apps/nshlib/nsh_vars.c:128-167 | the other entries stay as they were, in order |
| Variables.VarStore.GetVar | NUTTXSIM/apps/nshlib/nsh_vars.c:196-220 | the value in the map, also when it contains `=` |
| Variables.VarStore.SetVar | NUTTXSIM/apps/nshlib/nsh_vars.c:227-295 | the map with that name set; when it fails, exactly for want of memory or of room in an int, the old map without the name |
| Variables.VarStore.UnsetVar | NUTTXSIM/apps/nshlib/nsh_vars.c:303-357 | the map without the name, also when shrinking the buffer fails |
| Variables.VarStore.ForEach | NUTTXSIM/apps/nshlib/nsh_vars.c:379-411 | every entry in order, up to the first the callback stops at |
| AliasPool.PoolConserved | NUTTXSIM/apps/nshlib/nsh_alias.c:76-227 | over every interleaving of saves, removals, expansions and ends of commands, nested ones and failing allocations included: the two lists partition the table, names are distinct, a deletion is put off only for an alias in use, the aliases in use are exactly those recorded, and at rest no mark is left |
| AliasPool.RunInv | NUTTXSIM/apps/nshlib/nsh_alias.c:76-293 | the invariant is kept by every run from every state that has it |
| AliasPool.RoomToExpand | NUTTXSIM/apps/nshlib/nsh_parse.c:395-408 | the list of expanded aliases is never full when an alias is to be recorded |
| AliasPool.EndFate | NUTTXSIM/apps/nshlib/nsh_parse.c:416-438 | at the end of a command, exactly the aliases it has expanded whose deletion was put off are freed; its others can be expanded again, and all else stays |
| AliasPool.SavedThenEnded | NUTTXSIM/apps/nshlib/nsh_parse.c:416-438 | a name that is set while a command is under way has its value after the command if and only if it was not an alias that the command uses and whose deletion was put off |
| AliasPool.RedefinedIsLost | NUTTXSIM/apps/nshlib/nsh_alias.c:122-194 | that happens: from a fresh pool, set, use, remove and set again in one command, and the alias is lost |
| AliasPool.SaveDefines | NUTTXSIM/apps/nshlib/nsh_alias.c:158-194 | after a save the name has the value; exactly when it succeeds; other aliases are untouched |
| AliasPool.SaveFails | NUTTXSIM/apps/nshlib/nsh_alias.c:158-194 | a value that cannot be stored: the alias is lost, or marked and without a value while it is in use, and a new name comes to nothing |
| AliasPool.RemoveAllFate | NUTTXSIM/apps/nshlib/nsh_alias.c:214-227 | `unalias -a`: an alias that is not in use is free and blank, one in use is marked and keeps its name and value; with no command under way no alias is left |
| AliasPool.UnaliasFate | NUTTXSIM/apps/nshlib/nsh_alias.c:122-152 | `unalias` with a name: that alias is free and blank, or marked while in use, and every other one is untouched |
| AliasPool.ExpandableExactly | NUTTXSIM/apps/nshlib/nsh_parse.c:1072-1126 | a token is replaced if and only if it is the name of a live alias that is not in use and has a value |
| AliasPool.ExpandFate | NUTTXSIM/apps/nshlib/nsh_parse.c:395-408 | the alias is then in use by the command under way, and nothing else changes |
| AliasTable.Aliases.Save | NUTTXSIM/apps/nshlib/nsh_alias.c:158-194 | the table and lists change as the pool does |
| AliasTable.Aliases.Delete | NUTTXSIM/apps/nshlib/nsh_alias.c:122-152 | likewise: freed, or marked while in use |
| AliasTable.Aliases.RemoveAll | NUTTXSIM/apps/nshlib/nsh_alias.c:214-227 | likewise for all aliases |
| AliasTable.Aliases.Expand | NUTTXSIM/apps/nshlib/nsh_parse.c:1072-1126 | the value of an alias that is not in use, recorded as in use; any other token as it is |
| AliasTable.Aliases.End | NUTTXSIM/apps/nshlib/nsh_parse.c:416-438 | the aliases recorded for the command are released |
| Romaji.LengthBound | Dictionary_Resources/romaji.c:153-204 | at most three bytes are written for one |
| Romaji.LongestIsLongest | Dictionary_Resources/romaji.c:174-192 | no longer syllable of the table would have matched |
| Romaji.FittingIsPrefix | Dictionary_Resources/romaji.c:143-151 | what fits a buffer is a prefix of the whole, and the whole exactly when the whole fits |
| RomajiGojuon.TableIsGojuon | Dictionary_Resources/romaji.c:12-138 | the kana of every syllable of the table have the codes that the places of its consonant and its vowel among the fifty sounds say, in either of the two usual spellings |
| RomajiReading.CaseIgnored | Dictionary_Resources/romaji.c:162-201 | for every table and text: writing the text in lower case (bytes 0x41 to 0x5A moved by 0x20) and transliterating it is transliterating it and writing that in lower case |
| RomajiReading.SyllableReads | Dictionary_Resources/romaji.c:174-192 | a syllable of the table, in whatever case, comes out as its kana, whatever follows it |
| RomajiReading.WordReads | Dictionary_Resources/romaji.c:153-204 | a word spelt mora by mora, doubled consonants and n included, comes out as the kana of its morae |
| RomajiTyping.TypingExactly | Dictionary_Resources/romaji.c:162-201 | a non-empty text is converted for good, whatever is typed behind it, if and only if it ends in a vowel |
| RomajiTyping.TypingInTable | Dictionary_Resources/romaji.c:12-138 | the same for the table of the source |
| RomajiPassThrough.PassesExactly | Dictionary_Resources/romaji.c:162-201 | a text is passed through unchanged if and only if neither the small-tsu rule nor a syllable applies at any position |
| RomajiPassThrough.LetterFreePasses | Dictionary_Resources/romaji.c:165-172 | a text without letters is passed through if and only if no two neighbouring bytes are equal |
| RomajiPassThrough.NonAsciiPasses | Dictionary_Resources/romaji.h:1-11 | a UTF-8 text without ASCII is passed through if and only if no character has two equal neighbouring bytes |
| RomajiPassThrough.FormedExactly | Dictionary_Resources/romaji.c:153-204 | of a UTF-8 text, the result is UTF-8 if and only if no character has two equal neighbouring bytes |
| RomajiPassThrough.MoIsTorn | Dictionary_Resources/romaji.h:1-11 | も comes out as bytes that are not UTF-8 |
| RomajiPassThrough.WholeTiles | Dictionary_Resources/romaji.c:206-241 | without a torn character, the shift of the transliteration stays inside the string and is that of each character |
| RomajiPassThrough.MoOverruns | Dictionary_Resources/romaji.c:213-232 | on what も comes out as, the second step of the shift is at 7, and the NUL is at 5 |
| RomajiPassThrough.TornButTiles | Dictionary_Resources/romaji.c:213-232 | UTF-8 is not needed to stay inside: a torn も before two more kana comes back to the NUL |
| RomajiPassThrough.InsideFromSource | Dictionary_Resources/romaji.c:210-241 | for every text: a scan of it that writes nothing tells, both ways, whether the shift of what it comes out as stays inside the string |
| RomajiPassThrough.InsideFromText | Dictionary_Resources/romaji.c:210-241 | the same a character at a time, for UTF-8 text without ASCII |
| RomajiPassThrough.KanaInside | Dictionary_Resources/romaji.c:210-241 | of text in characters of three bytes, the shift stays inside if and only if an automaton with four states, which looks only at whether a character has two equal neighbouring bytes, ends where it began |
| RomajiPassThrough.AsciiToKatakana | Dictionary_Resources/romaji.c:235-241 | of ASCII text, the katakana form is UTF-8 and has no hiragana in it |
| RomajiBuffer.RomajiToKana | Dictionary_Resources/romaji.c:153-204 | for every text and size: success exactly when the transliteration and its NUL fit, the result is its length, and the buffer holds it; on failure it holds the steps that fit; the rest is untouched |
| RomajiBuffer.ToKana | Dictionary_Resources/romaji.rs:145-198 | the same of the Rust program |
| RomajiBuffer.BothAgree | Dictionary_Resources/romaji.rs:129-198 | the two programs agree on the result and on every byte of the buffer |
| RomajiBuffer.CasesAgree | Dictionary_Resources/romaji.c:153-204 | on a text and on the same in lower case the C program gives the same result, and buffers that are the same in lower case |
| RomajiBuffer.KeyFinds | Dictionary_Resources/romaji.rs:174-176 | looking up nothing for bytes that are not UTF-8 finds what looking them up finds |
| RomajiBuffer.Append | Dictionary_Resources/romaji.c:143-151 | written with its NUL if there is room, else nothing changes |
| RomajiBuffer.RomajiToKatakana | Dictionary_Resources/romaji.c:235-241 | for every text and size on which the shift stays inside the string: success exactly when the transliteration fits, and the buffer then holds it shifted, byte for byte |
| RomajiBuffer.ToKatakana | Dictionary_Resources/romaji.rs:253-265 | the Rust program, on every text and size: the bounded shift of the whole buffer |
| RomajiBuffer.KatakanaAgree | Dictionary_Resources/romaji.rs:202-228 | where the C program stays inside, the two leave the same bytes |
| Katakana.InsideExactly | Dictionary_Resources/romaji.c:213-232 | for every string and whatever stands behind it in memory: the loop never goes past the NUL if and only if the widths of the bytes it meets tile the string |
| Katakana.HiraToKata | Dictionary_Resources/romaji.c:210-233 | on every such string, UTF-8 or not, the loop shifts piece by piece and writes nothing behind it |
| Katakana.HiraToKataSlice | Dictionary_Resources/romaji.rs:202-228 | the Rust loop on every slice, also where a step leaves it |
| Katakana.SliceIsString | Dictionary_Resources/romaji.rs:202-228 | on a string that tiles, the bounded shift is that of the string and leaves the rest alone |
| Katakana.TilesEncoded | Dictionary_Resources/romaji.c:206-209 | every UTF-8 string tiles, and the shift of its bytes is the encoding of the string with each of U+3041..U+3096 moved by 0x60 |
| Katakana.ShiftTwice | Dictionary_Resources/romaji.c:206-209 | on every string that tiles, shifting again changes nothing |
| Katakana.ShiftKeepsLength | Dictionary_Resources/romaji.c:206-209 | the number of bytes stays the same |
| Utf8.EncodeDecode | Dictionary_Resources/romaji.c:219-226 | every string is written as bytes that section 4 of RFC 3629 admits, and is read back |
| Utf8.DecodeEncode | Dictionary_Resources/romaji.c:219-226 | all bytes that it admits are written by some string |
| Bitmap.EncodeRow | NUTTXSIM/apps/tools/bitmap_converter.py:67-86 | the loop encodes the quantised row as the specification does |
| Bitmap.EncodeDecodes | NUTTXSIM/apps/tools/bitmap_converter.py:67-86 | decoding gives the row back, and every count is between 1 and 255 |
| Bitmap.EncodeOptimal | NUTTXSIM/apps/tools/bitmap_converter.py:67-86 | no other list of counts up to 255 for the row is shorter |
| Bitmap.Quantize | NUTTXSIM/apps/tools/bitmap_converter.py:54-64 | the colour itself if the palette has it, else the first one at the least distance |
| Bitmap.Pythagoras | NUTTXSIM/apps/tools/bitmap_converter.py:60-61 | the distance is that of Euclid: steps along different channels add up, and a step along one is squared |
| Bitmap.PaletteKeepsMostUsed | NUTTXSIM/apps/tools/bitmap_converter.py:11-18 | no dropped colour is used more often than one that is kept |
| Bitmap.SortSorts | NUTTXSIM/apps/tools/bitmap_converter.py:17-17 | the colours by falling count, none lost |
| Bitmap.SortStable | NUTTXSIM/apps/tools/bitmap_converter.py:17-17 | colours that are used equally often stay in their order |
| Bitmap.RowLossless | NUTTXSIM/apps/tools/bitmap_converter.py:11-86 | with at most 255 colours, palette, quantiser and encoder together lose no pixel |
| DictionaryMatch.SelectedExactly | Dictionary_Resources/dict.c:79-96 | a word is selected if and only if the query or its katakana form is one of its readings, up to the case of ASCII letters |
| DictionaryMatch.CaseIgnored | Dictionary_Resources/dict.c:79-96 | a word is selected by a query if and only if it is by the query with the codes 0x41 to 0x5A moved by 0x20, in the readings as well |
| DictionaryMatch.SameExactly | Dictionary_Resources/dict.c:79-96 | two texts are the same for the search if and only if they are equal after that |
| DictionaryMatch.MembershipExactly | Dictionary_Resources/dict.c:79-96 | for every query: the search is membership among the readings, for all words, if and only if there is no `%`, `_` or `;` in the query |
| DictionaryMatch.Unexpected | Dictionary_Resources/dict.c:79-84 | for every other query, a word that it finds although neither it nor its katakana form is one of the readings |
| DictionaryMatch.NeighboursFound | Dictionary_Resources/dict.c:79-84 | readings that stand side by side are found by their text as one query, which is none of them |
| DictionaryMatch.MatchesExactly | Dictionary_Resources/dict.c:79-96 | for every query, wildcards and delimiters included: a word matches if and only if the query between two delimiters matches a stretch of its delimited readings |
| DictionaryMatch.PercentMatchesAll | Dictionary_Resources/dict.c:79-96 | a query of one `%` matches every word |
| DictionaryMatch.MatchesReading | Dictionary_Resources/build_db.py:51-54 | a pattern between delimiters matches the joined readings if and only if it is one of them |
| DictionaryMatch.NoReadings | Dictionary_Resources/dict.c:79-84 | a word without readings is matched by the empty query only |
| DictionaryMatch.FirstOfJoined | Dictionary_Resources/dict.c:23-42 | the word shown is the first of those that were joined |
| DictionaryText.CopyFirstElement | Dictionary_Resources/dict.c:23-42 | the text before the first `;`, cut to the size of the field |
| DictionaryText.CopyFieldSanitize | Dictionary_Resources/dict.c:46-71 | the text without its bracketed parts, cut to the size of the field and trimmed, for every source and size |
| DictionaryText.CleanBrackets | Dictionary_Resources/dict.c:46-71 | a text written with any number of closed brackets, blanks behind them or not: what is shown is the text without them and those blanks, cut to the size and trimmed |
| DictionaryText.TrimExactly | Dictionary_Resources/dict.c:66-70 | what is shown does not end in white space, and only white space is dropped at the end |
| DictionaryText.CleanTwice | Dictionary_Resources/dict.c:46-71 | what is shown has no closed bracket, and showing it again changes nothing |
| DictionaryText.CleanRemains | Dictionary_Resources/dict.c:46-71 | what is shown is a subsequence of the source |
| DictionaryText.StripExactly | Dictionary_Resources/dict.c:54-65 | exactly the texts without a closed bracket are left alone |
| AudioComposite.Perform | NUTTXSIM/nuttx/audio/audio_comp.c:335-370 | the calls made to the lower drivers, in order, and the result, for every vector of drivers and answers |
| AudioComposite.ResultExactly | NUTTXSIM/nuttx/audio/audio_comp.c:335-370 | the result is the answer of the first driver that fails, which is negative; when none fails, the answer of the last one that has something to say, which is not; and the initial one when nobody has |
| AudioComposite.FailsExactly | NUTTXSIM/nuttx/audio/audio_comp.c:335-370 | the operation fails exactly when a driver that has it gives a negative answer other than -ENOTTY |
| AudioComposite.TraceOrdered | NUTTXSIM/nuttx/audio/audio_comp.c:335-370 | the drivers are called in order, and undone in the opposite order after that |
| AudioComposite.AllOrNothing | NUTTXSIM/nuttx/audio/audio_comp.c:335-370 | a failing start leaves no driver running if and only if every earlier driver that started can be stopped and its stop succeeds |
| AudioComposite.LeftRunning | NUTTXSIM/nuttx/audio/audio_comp.c:789-833 | which drivers are in operation afterwards, in every case, undoing that fails included |
| AudioComposite.Touched | NUTTXSIM/nuttx/audio/audio_comp.c:344-365 | no driver behind the failing one is called, and which ones are told to undo |
| AudioComposite.Release | NUTTXSIM/nuttx/audio/audio_comp.c:858-883 | every driver that can is released, last one first, and the result is negative exactly when one of them fails |
| AudioComposite.ThenReleased | NUTTXSIM/nuttx/audio/audio_comp.c:858-883 | after reserve and release, a driver is still reserved exactly when it cannot be released or its release fails |
| HelpLayout.HelpCmdList | NUTTXSIM/apps/nshlib/nsh_command.c:724-800 | the lines written, when a column fits a line |
| HelpLayout.PrintedOnce | NUTTXSIM/apps/nshlib/nsh_command.c:765-795 | every command is printed on one line in one column, and nowhere else |
| HelpLayout.PrintedAt | NUTTXSIM/apps/nshlib/nsh_command.c:765-795 | command k of n stands on line k mod rows behind the margin and k / rows columns, with blanks up to the next column, and the line ends with its last column |
| HelpLayout.LayoutTight | NUTTXSIM/apps/nshlib/nsh_command.c:735-764 | some command fills its column but for the margin, one more column would not fit a line, and one line less would not hold the commands |
| HelpLayout.FitExactly | NUTTXSIM/apps/nshlib/nsh_command.c:735-766 | all lines fit the line buffer if and only if a column fits a line |

## Left out

- Executing a command: pipelines, redirection, background jobs, file descriptors, `nice`, and the assembly of the argument vector. A command is something that succeeds or fails.
- The splitting of variable values into several arguments, and command substitution in back-quotes: texts that would be expanded are taken to have no unescaped back-quote.
- The splice of an alias text into the command line, and printing the aliases; only which alias is used, and its fate, is modelled.
- The length limit of a script line (LINE_MAX), nested scripts, and reads or seeks that fail.
- ScriptTheorem.ScriptFaithful: a `break` under an `if` in a loop is excluded. `BreakLimit.BreaksExactly` (errors counted) and `IgnoredErrors.IgnoredExactly` (errors ignored) have the exact conditions for scripts without a loop inside a loop. With a loop in a loop they are open: an outer `break` can restore the `if` index, so not every such script fails.
- NestedLoops.LoopsApartExactly: the same exclusion of breaks under ifs, also in a loop that stands directly behind a `break`, since the machine executes that loop.
- ScriptText.ScriptFileFaithful: asks for commands that end on their line with their quotes closed, and for loop heads without separators; `ScriptText.FetchPiece` says exactly which offsets are wrong otherwise, and `QuotedHead.QuotedHeadMisses` that it matters.
- ScriptPrinter.PrintedFaithful: prints loop heads in plain words, and other arguments in single quotes, so without single quotes, backslashes and line ends in them.
- TemplateArguments.LineBack: a text in double quotes that ends in a backslash can only stand last, because of what `TemplateArguments.BackslashJoins` says. A word without quotes has the characters that end one only behind backslashes.
- KeywordGrammar.GrammarDecides: is about streams without `break`, since a `break` that is executed closes the ifs of its loop, and whether it is executed depends on results.
- ScriptReader.RunScript: stops after a given number of commands, because a script need not end; the number is arbitrary.
- LineParser.ParseLine: the one loop of the source is written as a search for the next cut inside a loop over the commands.
- RomajiBuffer.RomajiToKatakana: asks that the shift stays inside the string (see `Katakana.InsideExactly`, and for the source text `RomajiPassThrough.InsideFromSource`), since the C program otherwise reads and writes what stands behind it.
- DictionaryMatch.SelectedExactly: is about queries without `;`, `%` and `_`; `DictionaryMatch.MembershipExactly` proves that it fails for all others. The database itself, its result limit, the fixed buffer for the katakana query and all file reading are not modelled. LIKE is modelled as SQLite documents it.
- HelpLayout.HelpCmdList: a table with a column wider than a line is not covered, because the source then writes outside its buffer.
- The listing of built-in applications by `help`, the user interface, the fonts, and the thin commands over system calls.
- Overflow of byte counts, except where `nsh_setvar` checks it, and locales other than C.
