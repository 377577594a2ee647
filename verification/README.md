# Verified model of matd

matd emulates an AT modem: bytes from a terminal become command lines, lines become commands, commands are
dispatched to handlers, and output is serialised back. This project models its cores in Dafny and proves what
they promise over all inputs and all runs. `dafny verify dfyconfig.toml` checks everything.

| file | what it models |
|---|---|
| `Ctype.dfy`, `Results.dfy`, `Editing.dfy` | characters, result codes, backspace editing |
| `LineEditor.dfy` | the line editor (`src/parser.c`), against an editor with an unbounded line |
| `Tokenizer.dfy`, `CommandLines.dfy` | the tokenizer (`src/parser.c`); partition, shapes, print/parse round trip |
| `NameOrder.dfy`, `CommandTree.dfy`, `Registry.dfy`, `Dispatch.dfy` | the command bank (`src/commands.c`) |
| `ErrorTable.dfy`, `Engine.dfy`, `Session.dfy` | error texts, settings, final results, the line executor and the reader loop (`src/at_modem.c`, `src/error.c`) |
| `EndToEnd.dfy` | the reader loop with the dispatch of the command banks: from typed bytes to invoked callbacks |
| `TextEntry.dfy`, `Relay.dfy`, `OutputLock.dfy` | text entry, data mode and the output lock (`src/at_modem.c`) |
| `WatchList.dfy` | the D-Bus watch and timeout lists and the poll array (`src/dbus.c`) |
| `Plugins.dfy` | modules, plugin instances and command banks over their lives (`src/plugins.c`, `src/commands.c`) |
| `Keypad.dfy`, `Hex.dfy`, `Ucs2.dfy`, `Battery.dfy` | keypad scripts, hexadecimal text, PDUs, UCS-2 text, battery charge |

What the operating system and the handlers do is a parameter: the blocks that `read` returns, what `poll`, `read`
and `write` report in data mode, how many events the input device takes, the converter pair of iconv, the rotations
by which the C library balances the search tree, what it stores for numbers that do not fit 32 bits (C leaves this
undefined), the calls that D-Bus makes, and the handlers of commands. These change the modem through its setters; they
may depend on everything that was executed before, and take input from the terminal themselves. Read-only `char *`
arguments are the text they point to; buffers that the program writes are arrays.

Results about where the code and its intent part:

- A request for a registered command is found in every shape of the search tree if and only if no registered name
  is another one continued by a digit (`FoundInEveryShapeIff`): lookup compares the request's `=` or `?` with
  that digit. Where the library does not rotate the tree, some order of registering such names makes one in which
  the shorter name is lost (`RegistrationHidesName`); with two names, the longer registered first, there is nothing to
  balance (`LongerFirstHidesShorter`).
- With +CMEE 2 the reply does not tell which +CME error occurred when its number has no text of its own: 99 and 255
  get the same reply (`ReservedErrorsLookAlike`). Which results share a reply is stated exactly, for every mode and
  every result (`RepliesAreEqualIff`).
- A lone final `;` is left over as malformed, because the separator search is cut to the remaining length
  (`IterationStopsIff`). The comment of `at_iterate_next` says that a syntax error leaves the cursor unchanged; it
  does if and only if the text starts with no separator, a lone `;` being none (`SyntaxErrorKeepsCursorIff`), so not
  for a space and an unterminated quote (`SyntaxErrorMovesCursor`).
- `hexdigit` of `plugins/ofono/ss.c` compares signed differences and so takes exactly `:` to `@` and `W` to the
  back quote for digits (`HexDigitIsRightIff`); `sms16_decode` never looks at the fourth digit of a group
  (`LastDigitIsIgnored`). On hexadecimal digits in groups of four its result is right if and only if the text cannot
  be encoded, or the last two digits of every group are equal (`DecodingIsRightIff`): "0041" gives `D`
  (`LetterIsMisread`).
- No keypad script expresses a mode switch just before a literal semicolon; every other list of keys has one
  (`ExpressibleIff`), namely what the encoding writes (`ScriptDecodesBackIff`).
- `sms16_decode` steps over the end of its input, and then may write behind its buffer, if and only if three
  characters are left after the last whole group, nothing has failed before, and they give a code point that can be
  encoded (`Overruns`; the `overran` result of `Sms16Decode`). "123" is such an input (`OverrunWritesPastBuffer`),
  "zzz" is not (`OddLengthMayBeRefused`).
- Where `char` is signed, the length check of `send_pdu` refuses every correct PDU whose first octet is above 127
  (`LengthCheckIsStandardIff`).
- Over a run, the relay keeps all bytes if and only if data (other than an intercepted escape) only ever comes while
  nothing waits in its direction (`RunConservesIff`). By poll's contract for input that is so (`RelayConserves`), but a
  hang-up makes a source readable although it was not polled, and then the bytes that wait are lost
  (`HangUpLosesBytes`).
- No thread ever sees data mode inside the output lock except the reader, so no unsolicited message is discarded:
  it waits until data mode ends (`OutputIsWholeMessages`, `DataModeBelongsToReader`).
- The battery percentage is that of the totals if and only if a hundred times the charge fits an unsigned long
  (`PercentIsRightIff`); with 32 bits a full battery of 50 Ah is reported at 14 percent (`LargeBatteryIsMisread`).
- A reset that a command asks for (`ATZ`, `AT&F`) changes the settings at once, but the bank only before the next
  byte: the rest of the line is still executed on the old one (`ResetWaitsForLineEnd`).

## Model

| member | source | states |
|---|---|---|
| `Editing.EditingCancelsFromTheEnd` | src/at_modem.c:294-302 | folding backspaces from the left leaves exactly the keys that no later backspace cancels |
| `LineEditor.FindPrefix` | src/parser.c:61-77 | the search returns the suffix from the first "AT" in any case, or nothing |
| `LineEditor.CommandPartIsAtFirstAT` | src/parser.c:61-77 | that suffix starts at the least position where "AT" occurs; there is none iff "AT" occurs nowhere |
| `LineEditor.Parser.constructor` | src/parser.c:82-86 | a new parser shows an empty line and remembers nothing |
| `LineEditor.Parser.Push` | src/parser.c:97-173 | one byte refines one step of the unbounded editor, although the buffers hold 2048 characters and the count runs on; a '/' needs its predecessor to be in the buffer |
| `LineEditor.StepEdits` | src/parser.c:111-151 | by byte numbers: which bytes strike the last character, which are put at the end, and which change nothing |
| `LineEditor.StepEnds` | src/parser.c:131-172 | by byte numbers: which bytes complete or repeat a line, and what is then delivered and remembered |
| `LineEditor.Parser.Complete` | src/parser.c:162-172 | at Carriage Return the suffix at the first "AT" is remembered and delivered NUL-terminated, or the line is dropped |
| `LineEditor.Parser.Remember` | src/parser.c:168-169 | the remembered line is the delivered one with its NUL |
| `LineEditor.RunDeliversCommandLines` | src/parser.c:97-173 | over every byte sequence each delivered line starts with "AT", is printable and shorter than the buffer, as at_iterate_first asserts |
| `LineEditor.RunRemembersLatestLine` | src/parser.c:131-169 | over every run the memory is what the latest delivery or overflow left |
| `LineEditor.RepeatDeliversLatestLine` | src/parser.c:131-139 | after any run "A/" delivers the latest line again and clears the line; after an overflow it delivers nothing |
| `LineEditor.TypingHoldsSurvivors` | src/parser.c:111-151 | while a line is typed the editor holds exactly the characters that no later byte 8 or 127 (modulo 128) cancels |
| `LineEditor.ReturnDeliversTypedLine` | src/parser.c:153-172 | a typed line is delivered from its first "AT" iff it has one and fits; an over-long one is dropped with the memory |
| `Tokenizer.DigitCount` | src/parser.c:193-204 | spaces, then digits, without reading behind the NUL |
| `Tokenizer.SCommandLength` | src/parser.c:218-235 | the length of an S command: number, then a setting, a query or nothing |
| `Tokenizer.BasicCommandLength` | src/parser.c:210-252 | the length of a basic command, 0 when there is none |
| `Tokenizer.FindFrom` | src/parser.c:271 | the first closing quote |
| `Tokenizer.ExtendedCommandLength` | src/parser.c:257-281 | the length of an extended command up to a bare ';', 0 when a quote is not closed |
| `Tokenizer.IterateNext` | src/parser.c:299-319 | separators skipped and command length of one iteration |
| `CommandLines.IterationStopsIff` | src/parser.c:305-318 | iteration gives up exactly at the end, on a lone ';', or on an unterminated quote that no basic command precedes |
| `CommandLines.SyntaxErrorKeepsCursorIff` | src/parser.c:283-318 | on a syntax error the cursor is unchanged iff the text starts with no separator |
| `CommandLines.SyntaxErrorMovesCursor` | src/parser.c:305-318 | a space and an unterminated quote: no command is found, and the cursor has moved |
| `CommandLines.SkipsAllSeparators` | src/parser.c:305-312 | what is skipped is spaces and semicolons, and what is left starts with neither, unless it is a lone semicolon |
| `CommandLines.GapIsTransparent` | src/parser.c:299-319 | separators before a text change neither its commands nor its remainder |
| `CommandLines.CommandShape` | src/parser.c:210-281 | every command is a letter command, an S command, a dial command to the end, or an extended command with closed quotes and no bare ';' |
| `CommandLines.ParsePartitionsLine` | src/parser.c:193-319 | separators, commands and remainder partition every line; commands are non-empty and well shaped; a remainder is a lone ';' or an unterminated quote |
| `CommandLines.ExtendedScan` | src/parser.c:257-281 | the scan stops at the first ';' outside quotes or at the end, or fails iff the last quote is open |
| `CommandLines.PrintedCommandLength` | src/parser.c:210-281 | a command printed with any spaces before its number and around its operator is cut off exactly where it ends, whatever may follow it |
| `CommandLines.PrintedListParsesBack` | src/parser.c:179-319 | printing any list of well-formed commands, with any spaces and separators, and iterating gives exactly that list and leaves nothing |
| `NameOrder.ExtCmpIsLexicographic` | src/commands.c:159-184 | ext_cmp has the sign of the case-insensitive lexicographic order |
| `NameOrder.LessIsTotalOrder` | src/commands.c:159-184 | that order is total and strict on names up to case |
| `NameOrder.LessIsTransitive` | src/commands.c:159-184 | that order is transitive |
| `NameOrder.MatchFollowsOrder` | src/commands.c:186-202 | ext_match is 0 exactly for the requested name and has the sign of the order, except past a name that continues the requested one by a digit when '=' or '?' follows |
| `CommandTree.TsearchInsertsOnce` | src/commands.c:220-234 | tsearch keeps a registered name and its tree, and otherwise adds the handler keeping the order |
| `CommandTree.RotationsKeepOrder` | src/commands.c:220-221 | whatever rotations balance the tree, its handlers and their order stay |
| `CommandTree.NothingElseMatches` | src/commands.c:404 | in every tree a request only matches a handler of its own name |
| `CommandTree.MatchIsUnique` | src/commands.c:186-202 | no request matches two registered handlers |
| `CommandTree.LookupFinds` | src/commands.c:404 | in every shape of the tree a request that is not misled finds the handler of its name |
| `CommandTree.LookupIff` | src/commands.c:404 | and it finds one exactly when the name is registered in some case |
| `CommandTree.FoundInEveryShapeIff` | src/commands.c:186-202 | all requests for all registered names are found in all shapes iff no name is another one continued by a digit |
| `CommandTree.DigitExtensionHidesName` | src/commands.c:186-202 | with such a name at the root, the request for the shorter one finds nothing |
| `CommandTree.RegistrationHidesName` | src/commands.c:204-236 | registering that name first, then the others in order, makes such a tree where the library does not rotate it |
| `CommandTree.LongerFirstHidesShorter` | src/commands.c:204-236 | of two such names, registered the longer first, the shorter is lost |
| `CommandTree.WalkPrintsInOrder` | src/commands.c:449-462 | the visits that print are the in-order visits |
| `CommandTree.ClacListsPlusNames` | src/commands.c:449-501 | the walk lists the registered '+' names, each once, ascending |
| `Registry.FirstRegistrationWins` | src/commands.c:204-306 | over any registration sequence every slot keeps its first registration |
| `Registry.Bank.constructor` | src/commands.c:109-125 | a new bank has empty slots |
| `Registry.Bank.RegisterAlpha` | src/commands.c:238-254 | a letter slot is set once, a second registration is refused without change |
| `Registry.Bank.RegisterAmpersand` | src/commands.c:256-271 | the same for ampersand commands |
| `Registry.Bank.RegisterDial` | src/commands.c:273-285 | the same for the two dial slots |
| `Registry.Bank.RegisterS` | src/commands.c:287-306 | the same for S parameters, and numbers above 25 are out of range |
| `Registry.Bank.RegisterExtended` | src/commands.c:204-236 | the same for extended commands up to case, and long names are refused |
| `Registry.Bank.Reshape` | src/commands.c:220-221 | rotations of the tree leave the bank's contents as they are |
| `Registry.TreeRegisters` | src/commands.c:220-234 | tsearch on the tree is registration in the slot of the name |
| `Dispatch.ExecuteOn` | src/commands.c:320-442 | dispatch on the bank's slots and tree, or an error without a bank, for all numbers and whatever the library stores for those that do not fit |
| `Dispatch.SOn` | src/commands.c:344-369 | dispatch of an S command on the bank's slots |
| `Dispatch.NumberReadsBack` | src/commands.c:377 | a printed number, signed or not, is read as what the library stores for it (itself, if it fits 32 bits), and what follows it is left |
| `Dispatch.DecimalIsRead` | src/commands.c:377 | the decimal digits of every number are read as that number |
| `Dispatch.LetterInvokesItsSlot` | src/commands.c:326-401 | a letter, in either case, with any number, invokes what is registered for that letter, and no other slot |
| `Dispatch.BasicCommandMeans` | src/commands.c:326-401 | a printed basic command invokes the slot it names with the number stored for what it writes, or fails as the slot demands |
| `Dispatch.FormReadsBack` | src/commands.c:411-437 | the operator after an extended name, whatever the spaces around it, selects setting, query or test, with its argument |
| `Dispatch.ExtendedCommandMeans` | src/commands.c:403-441 | a printed extended command invokes the callback registered under its name in any case, whatever the shape of the tree |
| `Engine.SettersKeepCmee` | src/basic.c:98-107 | whatever setters handlers call, the error reporting mode stays 0, 1 or 2 |
| `Engine.EachSetterSetsItsOwn` | src/at_modem.c:622-800 | every setter changes the one setting it names; a reset restores the defaults |
| `Engine.SettersInOrder` | src/at_modem.c:729-800 | setters take effect in the order of their calls |
| `Engine.RunKeepsCmee` | src/at_modem.c:739-743 | and so through every command line |
| `Engine.OkMeansOk` | src/error.c:133-174 | the reply is the one of success exactly for success |
| `Engine.RepliesReport` | src/error.c:133-174 | unless quiet there is one reply, and it words or numbers the result as the mode demands |
| `ErrorTable.TextsAreEqualIff` | src/error.c:66-130 | two numbers get the same text iff they are equal or neither has a text of its own |
| `Engine.RepliesAreEqualIff` | src/error.c:133-174 | in every mode, two results get the same reply iff they are equal, both are reported as plain errors, or both as +CME errors without a text under +CMEE 2 |
| `Engine.ReservedErrorsLookAlike` | src/error.c:153-159 | +CME errors 99 and 255 look alike under +CMEE 2, and differ under +CMEE 1 |
| `Engine.Modem.PrintReply` | src/error.c:133-174 | at most one reply, none in quiet mode, and the message table is never indexed out of range |
| `Engine.Modem.ExecuteString` | src/at_modem.c:691-694 | executes the C string at a position |
| `Engine.Modem.ExecuteInPlace` | src/at_modem.c:555-559 | the handler sees exactly the command, and the byte after it is restored |
| `Engine.Modem.RunCommands` | src/at_modem.c:551-575 | the loop refines the fold over the tokenized line and leaves the line as it was |
| `Engine.Modem.ProcessLine` | src/at_modem.c:545-580 | commands, settings, output and the one final reply are those of the fold; the line is unchanged |
| `Engine.RunExecutesUpToFailure` | src/at_modem.c:551-579 | the fold executes the commands in order up to and including the first failure; the result is that failure, else ERROR for a malformed remainder, else OK |
| `Engine.LineIsItsTrace` | src/at_modem.c:545-580 | a line calls the handler once for each of its commands, in order, up to the first failure, each seeing what the earlier ones left; the result is the first failure, else an error iff a remainder is left |
| `Engine.Modem.Reinitialise` | src/at_modem.c:599-604 | a pending reset replaces the bank and is done |
| `Session.ReadByte` | src/at_modem.c:606-613 | one turn of the reader loop |
| `Session.ExecuteSlice` | src/at_modem.c:611-613 | executing a delivered line leaves the editor and its memory as they were |
| `Session.LineEndsWithItsResult` | src/at_modem.c:545-580 | a delivered line puts out what its handlers put out and then the report of its result |
| `Session.LineEndsWithOkIff` | src/at_modem.c:545-580 | where replies are verbose and not quiet, the last output is OK iff every command returned success and no remainder is left |
| `Session.ReadLines` | src/at_modem.c:597-614 | the reader loop, with its tests for hang-up and reset and with commands that read from the terminal themselves, refines the fold of editor steps and line executions |
| `Session.HeadOfLoop` | src/at_modem.c:597-606 | once hung up nothing is read; else a reset makes a new bank, and changes nothing but its flag, before the loop waits for a byte |
| `Session.ResetWaitsForLineEnd` | src/at_modem.c:597-613 | a reset asked for in a line takes effect after the line and before the next byte |
| `Session.BanksAscend` | src/at_modem.c:597-614 | over every run banks are used in ascending order, and no reset is left pending when the loop waits for a byte |
| `Session.BankOnlyChangesByReset` | src/at_modem.c:599-604 | unless some handler asks for a reset, the bank stays the same over every run |
| `Session.EditorGetsAllInput` | src/at_modem.c:597-614 | while no handler takes input or hangs up, the editor gets every byte that arrives, in order |
| `Session.TypedLineIsDelivered` | src/at_modem.c:606-613 | a typed command line is executed and remembered, and the loop goes on with what is left of the input |
| `Session.TypedListIsExecuted` | src/at_modem.c:545-614 | for all handlers, with state of their own and taking input or not: typing a printed list of commands executes exactly them, up to the first failure, with one reply unless quiet, and "A/" does so again |
| `EndToEnd.RegistrationsBuildBank` | src/commands.c:109-306 | any registrations, in any order and with any rotations of the tree, make a bank whose tree holds its extended commands and whose slots have what was registered for them first |
| `EndToEnd.RequestIsDispatched` | src/commands.c:320-442 | dispatch of a request, in every shape of the tree, is what its sender means by it |
| `EndToEnd.ExecutePerforms` | src/at_modem.c:691-694 | executing the text of a request on a bank performs what the request means there |
| `EndToEnd.TypedLetterIsDone` | src/at_modem.c:545-614 | typing AT, a letter in either case, spaces and a number invokes the callback registered for that letter, or fails, and the reply reports what it returned |
| `EndToEnd.TypedRequestsArePerformed` | src/at_modem.c:545-614 | whatever the banks' registrations: typing requests invokes exactly the callbacks registered for them in the bank in use, with their arguments, in order, up to the first failure; "A/" does so again on the bank then in use |
| `TextEntry.EntryIsSurvivors` | src/at_modem.c:258-310 | text up to Ctrl+Z is what no later backspace cancels; ESC or the end first gives nothing |
| `TextEntry.EntryByBytes` | src/at_modem.c:258-310 | by byte numbers: which bytes end the text, which strike its last byte, which are put at its end, and which count for a prompt |
| `TextEntry.Terminal.Refill` | src/at_modem.c:225-252 | a block is buffered and echoed as a whole |
| `TextEntry.Terminal.GetChar` | src/at_modem.c:219-256 | the next character of the input, however it is split into blocks; all that is read is echoed |
| `TextEntry.Grow` | src/at_modem.c:276-285 | doubling keeps the text and leaves room |
| `TextEntry.Store` | src/at_modem.c:294-302 | one character is stored or strikes the last one |
| `TextEntry.ReadText` | src/at_modem.c:258-310 | for every split of the input the text, the terminator, the input left, the echo and the number of prompts (one, and one for each stored CR) are as specified |
| `Relay.TurnConservesIff` | src/at_modem.c:447-496 | a turn keeps all bytes iff data only comes while nothing waits; otherwise some are missing, and missing bytes stay missing |
| `Relay.TurnMoves` | src/at_modem.c:447-496 | a turn adds to what was read exactly the bytes of its read, and moves exactly the first n bytes that wait when write takes n |
| `Relay.RunMoves` | src/at_modem.c:420-497 | over every run the bytes got are those of the reads, and as many were sent as write took in all |
| `Relay.RunConservesIff` | src/at_modem.c:420-497 | over every run, in each direction, bytes read are bytes written followed by the bytes that wait, iff data only ever came while nothing waited |
| `Relay.HangUpLosesBytes` | src/at_modem.c:449-479 | a run in which a hang-up makes a source readable while a byte waits, and that byte is lost |
| `Relay.RelayConserves` | src/at_modem.c:420-497 | so nothing is lost in any run in which sources are only ready when they were polled for input |
| `Relay.Pump.SetEvents` | src/at_modem.c:424-434 | each direction waits for exactly one of its two ends |
| `Relay.Pump.Fill` | src/at_modem.c:451-479 | a read replaces one half of the buffer and leaves the other |
| `Relay.Pump.Drain` | src/at_modem.c:483-494 | a write of n bytes delivers the first n that wait, and counts them |
| `Relay.Pump.ServeEnd` | src/at_modem.c:447-496 | one turn of the inner loop, with its retries, ends and the escape sequence |
| `Relay.Pump.Run` | src/at_modem.c:388-497 | the relay refines the reference link; buffers stay within the MTU, and the counters are the sums of what write took |
| `OutputLock.WriteUnlocked` | src/at_modem.c:137-158 | the loop of partial writes puts out a prefix of the message, as long as what write took in all, the whole of it on success, and gives up only on a failure |
| `OutputLock.OutputIsWhatWriteTook` | src/at_modem.c:137-158 | over every interleaving the output grows by as many bytes as write took |
| `OutputLock.SentIsAskedFor` | src/at_modem.c:160-322 | over every interleaving, the messages of each kind sent and still to be sent are those asked for, in order |
| `OutputLock.NextHolds` | src/at_modem.c:137-181 | every step of any thread keeps the invariant of lock, data mode, output and histories |
| `OutputLock.NextKeepsOutput` | src/at_modem.c:137-158 | the bytes out are the completed messages and the part of the one being written |
| `OutputLock.NextKeepsSent` | src/at_modem.c:165-181 | no message of a thread is lost, repeated or overtaken by a later one of it |
| `OutputLock.NextKeepsSenders` | src/at_modem.c:160-181 | every message is one of the threads' |
| `OutputLock.OutputIsWholeMessages` | src/at_modem.c:137-322 | over every interleaving with arbitrarily partial writes messages are whole and contiguous, assertions on command mode hold, nothing is discarded |
| `OutputLock.SessionsAreExclusive` | src/at_modem.c:394-508 | nothing of another thread lands between the start of at_connect's output and the end of data mode |
| `OutputLock.DataModeBelongsToReader` | src/at_modem.c:171-177 | a thread that holds the lock in data mode is the reader |
| `OutputLock.SomeThreadCanMove` | src/at_modem.c:653-658 | there is no deadlock: while some thread is not idle, one that is not idle can go on |
| `OutputLock.EverythingCanGetOut` | src/at_modem.c:137-181 | from every reachable state, without anything new being sent, all that is under way gets out whole and the lock is free again |
| `WatchList.List.Add` | src/dbus.c:234-243 | insertion at the head keeps an acyclic list with inverse links |
| `WatchList.List.Unhook` | src/dbus.c:253-264 | the pointer updates of a removal, with the program's assertions |
| `WatchList.List.Remove` | src/dbus.c:247-268 | removal of any node keeps such a list, without that node |
| `WatchList.Connection.AddWatch` | src/dbus.c:140-166 | the count stays the length of the watch list |
| `WatchList.Connection.RemoveWatch` | src/dbus.c:168-192 | and so after a removal |
| `WatchList.Connection.ToggleWatch` | src/dbus.c:133-137 | a watch gets other events, and nothing else changes |
| `WatchList.Connection.AddTimeout` | src/dbus.c:221-245 | a timeout is added at the head, not enabled |
| `WatchList.Connection.RemoveTimeout` | src/dbus.c:247-268 | a timeout is removed |
| `WatchList.Connection.ToggleTimeout` | src/dbus.c:202-219 | a timeout gets another deadline |
| `WatchList.Connection.ApplyAll` | src/dbus.c:140-268 | over any sequence of additions, removals and toggles both lists are lists, hold what they should in order, and the count is the length |
| `WatchList.FillDescriptors` | src/dbus.c:315-333 | the array has one slot more than watches; it gets the wake-up and the enabled watches in order |
| `WatchList.EntriesAreEnabledWatches` | src/dbus.c:315-333 | the filled slots are those of the watches with events, and of no other |
| `WatchList.FindWatch` | src/dbus.c:365-376 | the first watch of a descriptor, if there is one |
| `WatchList.FlagsAreTheConditions` | src/dbus.c:354-363 | each poll condition becomes the D-Bus flag of that condition |
| `WatchList.Serve` | src/dbus.c:354-376 | a ready slot's conditions go to that watch, while D-Bus may change the lists |
| `WatchList.ScanReady` | src/dbus.c:346-378 | by poll's contract the unbounded scan stays within the filled slots and serves each ready one in order, whatever D-Bus does to the lists meanwhile |
| `WatchList.ScanServesEachReady` | src/dbus.c:346-378 | while D-Bus leaves the lists alone, each ready slot has its watch told its conditions, in order |
| `Keypad.ScriptDecodesBackIff` | plugins/uinput.c:227-239 | an encoded key list decodes to itself iff the mode never switches just before a literal semicolon |
| `Keypad.DecodedNeverSwitchesAtSemicolon` | plugins/uinput.c:227-239 | no script decodes to such a switch |
| `Keypad.ExpressibleIff` | plugins/uinput.c:227-239 | some script decodes to a key list iff it has no such switch |
| `Keypad.KeysHaveTheirCodes` | plugins/uinput.c:241-247 | a key has the code of its column of the key map, and none outside the map |
| `Keypad.KeyEvents` | plugins/uinput.c:249-269 | key n is pressed n times press plus pause after the start and released press later, in tenths of a second |
| `Keypad.Tenths` | plugins/uinput.c:133-138 | tenths of a second as a normalised time |
| `Keypad.AddDelay` | plugins/uinput.c:140-149 | adding a delay keeps times normalised |
| `Keypad.ClockAdvancesEvenly` | plugins/uinput.c:258-269 | after k keys the clock reads start plus k times press and pause |
| `Keypad.PressesAreReleased` | plugins/uinput.c:249-268 | every press is reported and released by the next events, press time later |
| `Keypad.Device.Emit` | plugins/uinput.c:120-131 | a key event and its report, or failure |
| `Keypad.PlayScript` | plugins/uinput.c:218-273 | the loop emits the trace of the decoded keys and fails only when the device does |
| `Plugins.ModuleTable.Load` | src/plugins.c:154-173 | counts, and loads at the first |
| `Plugins.ModuleTable.Unload` | src/plugins.c:175-182 | counts down, and unloads at the last |
| `Plugins.ModuleTable.Instantiate` | src/plugins.c:184-198 | one registration for each module, in order |
| `Plugins.ModuleTable.Deinstantiate` | src/plugins.c:200-213 | one unregistration for each module that has the callback, with its own instance |
| `Plugins.LoadingCounts` | src/plugins.c:154-182 | loading counts up and takes what was found at the first; unloading counts down and unloads at the last |
| `Plugins.RegistrationsAre` | src/plugins.c:184-198 | the calls that instantiate a bank: module i gives instance i |
| `Plugins.UnregistrationsAre` | src/plugins.c:200-213 | the calls that destroy its instances: module i, if it has the callback, gets instance i, in order |
| `Plugins.AnswersAreKept` | src/plugins.c:184-198 | what a module answers becomes the next instance of its bank |
| `Plugins.NextIsCounted` | src/plugins.c:154-182 | every event keeps the count that of preloads and banks, and modules loaded exactly while it is positive |
| `Plugins.NextKeepsHolds` | src/plugins.c:184-213 | whatever other modems do between two callbacks, each bank has been registered with, or unregistered from, the first so many of the loaded modules |
| `Plugins.NextKeepsGone` | src/commands.c:141-153 | a bank is only gone after all its instances were destroyed, and then no call concerns it |
| `Plugins.NextKeepsNumbers` | src/commands.c:109-153 | every bank that was ever created is held by exactly one modem or gone, never both |
| `Plugins.NextHolds` | src/at_modem.c:589-620 | every event of preloading, callbacks, modems and command lines keeps the invariant |
| `Plugins.StartHolds` | src/plugins.c:146-152 | the invariant holds before anything is loaded |
| `Plugins.PluginsLiveWithTheirBanks` | src/plugins.c:154-213 | over any interleaving, down to single callbacks: modules are loaded exactly while counted, the count is preloads plus banks, every callback runs while they are loaded, and each bank's instances are destroyed once, by their own modules |
| `Plugins.BankStaysDuringLine` | src/at_modem.c:597-614 | over every run until the line ends or the modem is stopped, its bank stays in use with all its instances and its modules loaded, whatever other modems do |
| `Hex.HexDigitReadsDigits` | src/charset.c:54-71 | the digit test reads exactly the hexadecimal digits |
| `Hex.HexDecode` | src/charset.c:76-103 | decodes whole pairs, or fails |
| `Hex.HexEncode` | src/charset.c:108-125 | encodes in upper-case digits |
| `Hex.EncodeWritesDigits` | src/charset.c:108-125 | each byte becomes the digit of its high half, then that of its low half |
| `Hex.DecodeOfEncode` | src/charset.c:76-125 | decoding an encoding is the identity on all byte arrays |
| `Hex.EncodeOfDecode` | src/charset.c:76-125 | encoding a decoding gives the whole pairs of the text in upper case |
| `Hex.DecodeSucceedsIff` | src/charset.c:83-94 | decoding succeeds iff all characters of whole pairs are digits |
| `Hex.Ucs2RoundTrip` | src/charset.c:229-265 | given inverse converters, at_to_utf8 undoes at_from_utf8 in UCS2 |
| `Hex.DecodeInPlace` | plugins/ofono/sms.c:310-322 | decoding over the text itself never overwrites an unread character and gives the decoded pairs |
| `Hex.AcceptPdu` | plugins/ofono/sms.c:308-328 | a PDU passes iff no pair is broken and its byte count fits the check |
| `Hex.UnpackStopsAt` | plugins/ofono/sms.c:310-322 | unpacking stops at the first pair that is not two digits, and is broken iff a digit stands there |
| `Hex.LengthCheckIsStandardIff` | plugins/ofono/sms.c:324-328 | the check is that of section 4.3 of 3GPP TS 27.005 iff char is unsigned or the first octet is at most 127 |
| `Hex.EncodingUnpacks` | plugins/ofono/sms.c:310-322 | the text of any bytes unpacks to them |
| `Ucs2.HexDigitIsRightIff` | plugins/ofono/ss.c:100-109 | the digit test is right except on two ranges of characters |
| `Ucs2.DecodingOfDigits` | plugins/ofono/ss.c:112-168 | on 4n digits decoding fails iff some code point is zero or a surrogate; otherwise it takes at most 3n bytes of well-formed UTF-8 that decode to the code points |
| `Ucs2.LastDigitIsIgnored` | plugins/ofono/ss.c:124-140 | the fourth character of a group has no effect |
| `Ucs2.DecodingIsRightIff` | plugins/ofono/ss.c:112-168 | on 4n digits the result is that of the code points which the digits mean iff those cannot be encoded or every group ends in two equal digits |
| `Ucs2.LetterIsMisread` | plugins/ofono/ss.c:124-140 | "0041" means 'A' and decodes to 'D' |
| `Ucs2.Utf8DecodesBack` | plugins/ofono/ss.c:142-161 | the encoding is well-formed by section 4 of RFC 3629 and decodes back |
| `Ucs2.PutCodePoint` | plugins/ofono/ss.c:142-161 | stores the bytes of one code point at the moving pointer |
| `Ucs2.ReadGroup` | plugins/ofono/ss.c:124-140 | the code point of a group, or an error; nothing behind the terminating NUL is read |
| `Ucs2.OverrunWritesPastBuffer` | plugins/ofono/ss.c:114-161 | "123" overruns, and three bytes are written where one was allocated |
| `Ucs2.OddLengthMayBeRefused` | plugins/ofono/ss.c:119-126 | "zzz" is refused at its first character and does not overrun |
| `Ucs2.Sms16Decode` | plugins/ofono/ss.c:112-168 | on every string: it overruns iff the string is one of `Overruns`, and otherwise computes the specified text within its buffer, or fails |
| `Battery.ContributionWithinCapacity` | plugins/udev/power.c:111-143 | no battery adds more charge than capacity |
| `Battery.ContributionIs` | plugins/udev/power.c:111-143 | charge readings, clamped, or else energy readings divided by the voltage, or else nothing |
| `Battery.TotalWithinCapacity` | plugins/udev/power.c:100-151 | nor do all of them |
| `Battery.TotalAdds` | plugins/udev/power.c:100-151 | the totals are the sums over the batteries, in whatever order |
| `Battery.PercentBetweenBatteries` | plugins/udev/power.c:156-160 | the percentage is at most 100 and between the smallest and largest of the contributing batteries |
| `Battery.PercentIsQuotient` | plugins/udev/power.c:156-160 | the percentage is a hundred times the charge over the capacity, rounded down |
| `Battery.NothingWraps` | plugins/udev/power.c:100-160 | where no sum or product wraps around, what the program adds up and reports are the true totals and percentage |
| `Battery.SumsWrapAround` | plugins/udev/power.c:100-151 | however often the sums wrap around on the way, they are the remainders of the true sums |
| `Battery.PercentIsRightIff` | plugins/udev/power.c:160 | the reported percentage is that of the totals iff the last product does not wrap around |
| `Battery.LargeEnergyIsLost` | plugins/udev/power.c:125-143 | an energy reading whose product with a million wraps around to zero adds nothing |
| `Battery.LargeBatteryIsMisread` | plugins/udev/power.c:160 | with 32-bit words a full battery of 50 Ah is reported at 14 percent |
| `Battery.AddBattery` | plugins/udev/power.c:111-143 | one battery is added in wrapping arithmetic, whatever its readings |
| `Battery.ReportCharge` | plugins/udev/power.c:100-160 | the loop and the report, in wrapping arithmetic on all readings; the true percentage when nothing wraps around |

## Left out

- LineEditor.Parser.Push: a '/' that arrives while the line is longer than the buffer, where the program indexes past its buffer, is excluded by a precondition.
- What `sms16_decode` reads and writes once it has overrun.
- Session.ReadLines: the echo of typed bytes is not modelled there; it is in `TextEntry.dfy`, with what text entry takes from the input. A hang-up by another thread ends the input.
- Relay.Pump.Run: data mode runs as long as returns from poll are given; the clock readings and idle times it logs are not modelled.
- CommandTree.TsearchInsertsOnce: when and where the library rotates its tree is its own business; any rotations are allowed, and results hold for every tree with the same in-order sequence.
- OutputLock.NextHolds: writes that fail and thread cancellation are not modelled.
- Failing memory allocation, except where the code's result is the same as for an error.
- The timers of the D-Bus loop, whose comparison does not match their intent.
- Parsing of the AT+CKPD parameters, rate and character set tables, phonebooks, and the plugins that call external services.
- The single-letter part of the AT+CLAC listing, which is a table walk.
