# A verified model of the R session server's core

Rserver runs one R session a client: a command-line parser (the TCLAP headers)
starts it, length-prefixed JSON messages drive it, a file manager keeps the
working directory and a PostgreSQL workspace in step, images that R draws are
moved into the database, and an environment watcher reports what a command
changed. This project models that core in Dafny and proves what its parts
promise, over every input and every run.

`dafny verify dfyconfig.toml` checks everything.

## What is here

**Command line** (`Args`, `Scan`, `ArgObjects`, `CmdLines`). `Args` and `Scan`
are a functional description of one argument and one token, and of one whole
scan; `ArgObjects` and `CmdLines` hold the objects and loops of the headers, with
letters overwritten in the token array, the shared index, the xor handler and
the two nested loops of `parse`, proved equal to that description. The theorems
are about it, and `CmdLines.CmdLine.Parse` carries the main ones to the object
that the constructor, `add` and `xorAdd` have built:

- `Acceptance`: the one integer comparison at the end of `parse` is enough.
  Each required argument adds at most 1 and each xor list adds 0 or its size, so
  equal totals leave nothing missing. With a counting switch in an xor list this
  fails, and a concrete line shows it. `Repeats` says when.
- `Verdicts`: for any lists, the line alone tells the answer of parse: whether it
  accepts, leaves the program, or refuses, with which error and naming whom; what it
  has counted, and whether everything required is met. A reader needs to note only
  who has taken a token and which switches were combined.
- `Combining`: `-abc` means `-a -b -c`, in any order.
- `Accounting`: every token has exactly one fate, read off the line and the
  argument list: it names an argument, is the value of the token before it,
  combines switches, is a word, is empty, or is passed over after `--`. After a
  scan that ends, every argument of every kind holds exactly what the fates give
  it, and "Couldn't find match" is reported only for tokens that have none.
- `RoundTrip`: printed options, `--` and words parse back, and are accepted
  exactly when everything required was printed.
- `Labels` holds the reasons: a token names one argument at most, and `add` refuses
  a label exactly if some token would be matched by both.

**Messages** (`Framing`, `SessionOutput`). Frames arrive whole however they are
cut up; a stream of frames is delivered if and only if no chunk reaches across
the end of a frame; and nothing is handed on that is no good frame. Console text,
errors, captured text and acknowledgements are conserved.

**Files and images** (`Database`, `FileSync`, `DBFileSources`, `Images`,
`Manager`, `FileManagers`, `Effects`, `ManagerRuns`, `Echo`). `Database` has the tables, the
statements and the transaction that rolls back when its scope is left. The
others are state machines over runs, with the objects proved against them:
cache, row and file agree; images are indexed exactly and never lost.
`Effects` tells field by field what each reaction does, and when.
`ManagerRuns` puts files and images together, over runs of everything the manager
reacts to, with a queue of directory events in which its own writes and deletes
appear too. `Echo` proves of these runs that such events do not come back as
changes.

**Text** (`Wrap`, `Quoting`) and **environment** (`Delta`). The word wrapper
fits the width, loses nothing and is determined; the quoting loops are
character maps with a left inverse; the environment report is the one minimal
patch.

## Where the code and its promises part

- A MultiSwitchArg in an xor list is credited on every use, so a line can be
  accepted with another list untouched (`Acceptance.MultiSwitchPaysTwice`).
  Whatever is accepted, everything required is met if and only if every required
  argument in no list takes a token, and in every list some member does or the
  letter of exactly one is combined (`Verdicts.LineTells`). Every list is decided
  by a check, which is more, if and only if, without lists of one member, the line
  names no such switch more than once (`Repeats.CountingSwitchesExact`).
- A switch that is alone in its xor list is not counted when it is combined with
  others and another takes the token, so a line is refused with everything set
  (`Repeats.SoleInPassing`); `Repeats.SolesExact` says exactly when.
- A flag that is the blank character (ASCII 7) is never used up in a combined
  token, so the counting loop does not end (`ArgObjects.BlankFlagNeverUsedUp`).
  With that character as delimiter the loop ends after one letter and the others
  are not counted (`ArgObjects.BlankDelimiterCountsOne`).
- Substituting a character by text that contains it does not end
  (`Quoting.SubstituteNeverEnds`).
- Wrapping ends if and only if the lines after the first have room or the first
  line leaves them nothing (`Wrap.LayoutIff`). Elsewhere no lines that turns of the
  loop can have printed reach the end of the text (`Wrap.NeverDone`); with no room
  the loop goes on for ever, as for "ab" at width 1 and indent 1
  (`Wrap.NoRoomNeverEnds`), and with a negative room it indexes before the text.
- Bytes after a complete frame in the same chunk are dropped
  (`Framing.SecondFrameDropped`); `Framing.StreamDelivered` says when that matters.
- If a session's largest batch number is negative, numbering climbs through 0,
  which the code reads as "no batch yet", and the image list stops being an
  index (`Images.IndexedIff`).
- The echo guard rests on the timer being served after the queue
  (`Echo.OvertakingTimerEchoes`), and restoring `.RData` does not raise it. It
  does no harm, whatever events it causes, if and only if the flag is up already,
  or nothing is written, or neither a file of the workspace nor a watched image has
  that name (`Echo.RestoreExact`); else the restored bytes can come back as an
  update (`Echo.RestoredFileEchoes`).

## Model

| member | source | states |
|---|---|---|
| Args.ProcessFrame | tclap/ValueArg.h:327-377 | Whatever the argument kind, an offer that does not match leaves the index alone, one that matches takes at most one further token and that one exists, and neither touches the specification or the xor mark. |
| Scan.Step | tclap/CmdLine.h:455-477 | One turn of the scan keeps the list and its specifications and stays inside the token list. |
| Scan.OfferFrame | tclap/CmdLine.h:457-470 | A token nobody took has left the index where it was. |
| Args.TokenShapes | tclap/Arg.h:620-648 | The shapes of a token told by its characters: where it has blanks, when it is used up, which letters it combines, and that it is cut at its first delimiter if that stands behind the second character, and then in two parts that make it up. |
| ArgObjects.Arg.FindBlank | tclap/Arg.h:641-648 | True exactly for a token with a blank behind its first character. |
| ArgObjects.Arg.TrimFlag | tclap/Arg.h:620-636 | The token is cut at its first delimiter if that stands after the second character, and not otherwise. |
| ArgObjects.Arg.CombinedSwitchesMatch | tclap/SwitchArg.h:169-202 | Found exactly when a one-dash token without delimiter holds the flag letter; then the first such letter, and nothing else in the token array, is blank. |
| ArgObjects.Arg.LastCombined | tclap/SwitchArg.h:160-167 | True exactly when every letter behind the dash is blank. |
| ArgObjects.Arg.ProcessSwitchArg | tclap/SwitchArg.h:223-253 | The in-place switch code is the functional description: toggles once, refuses a second use or a letter given twice, and takes the token only with its last letter. |
| ArgObjects.EatOne | tclap/MultiSwitchArg.h:181-182 | The measure of the counting loop: eating a letter leaves one flag letter fewer, and the fully blanked token is the same. |
| ArgObjects.Create | tclap/Arg.h:480-499 | An argument is created exactly if flag and name pass the checks, and with the space as delimiter its label is then one the line theorems can read, but for an empty name or the blank character as flag. |
| ArgObjects.Arg.CountCombined | tclap/MultiSwitchArg.h:172-187 | The counting loop ends, adds the number of flag letters in the token to the value, and blanks each of them and no others; with the blank character as delimiter it adds one and blanks one. Only the tokens on which it does not end are excluded. |
| ArgObjects.BlankFlagNeverUsedUp | tclap/MultiSwitchArg.h:181-182 | With the blank character as flag, and another delimiter, the loop finds the same token again and never ends. |
| ArgObjects.BlankDelimiterCountsOne | tclap/MultiSwitchArg.h:181-182 | With the blank character as delimiter the loop stops after one letter, and the rest of the letters stay uncounted. |
| ArgObjects.Arg.ProcessMultiSwitchArg | tclap/MultiSwitchArg.h:155-190 | The counting switch as described; it never takes a combined token. |
| ArgObjects.Arg.ProcessValueArg | tclap/ValueArg.h:327-377 | Value arguments as described: the value comes from the token or from the next one, and missing delimiter, missing value and a second use are refused. |
| ArgObjects.Arg.ProcessUnlabeledArg | tclap/UnlabeledMultiArg.h:244-268 | Unlabeled arguments take any token without blanks, with or without the ignore-rest flag; a single-value one only once. |
| ArgObjects.Arg.AllowMore | tclap/MultiArg.h:416-422 | Only an argument that collects values allows more, and only from the second time it is asked. |
| ArgObjects.Arg.ProcessArg | tclap/Arg.h:590-597 | The virtual call does to the argument, the token array and the globals what the description of its kind says. |
| Labels.NamesUnique | tclap/Arg.h:590-597 | A token that names one argument names no other and holds no letter of another's flag. |
| Labels.ClashesIff | tclap/Arg.h:546-552 | A labeled argument clashes with another if and only if some token would be matched by both. |
| Labels.EatenNames | tclap/SwitchArg.h:192-196 | A token in which letters were overwritten names nobody any more, so it cannot be mistaken later in the list. |
| Labels.HeardBy | tclap/SwitchArg.h:223-253 | What a labeled argument does before `--` depends only on whether the token names it or holds its letter; otherwise it passes the token on untouched. |
| Acceptance.OfferEffect | tclap/CmdLine.h:457-466 | In one offer only the taker is matched; everybody else keeps values and xor mark, and only switches can become set in passing. |
| Acceptance.CheckCredit | tclap/XorHandler.h:100-139 | The weight that check returns is exactly by how much the set of credited arguments grows, and what is paid again. |
| Acceptance.RunBalanced | tclap/CmdLine.h:453-477 | Over any run the count stays the number of required arguments met, and what lists were paid again, less what was missed in passing. |
| Acceptance.CountExact | tclap/CmdLine.h:453-483 | At the end of any scan from fresh arguments, with any lists, count and missed together are what is met and repaid together, and everything is decided if and only if as many are met as are required. |
| Acceptance.AcceptanceSound | tclap/CmdLine.h:444-483 | With no counting switch in an xor list, an accepted line has every required argument outside the lists set and exactly one member of every list set; the count never exceeds the number required. |
| Acceptance.AcceptanceExact | tclap/CmdLine.h:479-483 | With no counting switch in an xor list, a scan that ends is accepted if and only if everything required is set, every xor list has a checked winner with the others barred, and no check was missed; without lists of one member none is. |
| Acceptance.MultiSwitchPaysTwice | tclap/XorHandler.h:127-131 | A concrete parser and line, accepted although no member of one xor list is set. |
| Repeats.RunRepaid | tclap/XorHandler.h:100-139 | Over any scan that ends, without lists of one member, a list is paid again exactly if one of its counting switches is the fate of a token again. |
| Repeats.CountingSwitchesExact | tclap/CmdLine.h:444-483 | With counting switches in xor lists and without lists of one member, an accepted line is decided if and only if no listed one is named by more than one token; on a line that names none twice, acceptance is being decided. |
| Repeats.SolesExact | tclap/CmdLine.h:444-483 | With lists of one member and without counting switches in lists, a scan that ends is accepted if and only if everything is decided and every switch alone in its list takes the combined tokens that hold its letter. |
| Repeats.SoleInPassing | tclap/SwitchArg.h:235-250 | A concrete parser and line, refused although its one required switch is set. |
| Verdicts.CombinedAnswers | tclap/SwitchArg.h:223-253 | Down the whole list, a token with letters of switches is answered by the first switch among them that was set or barred, has its letter twice, or leaves the program; without one the scan goes ahead. |
| Verdicts.CheckGoes | tclap/XorHandler.h:100-139 | A check lets the taker through exactly if nobody else in its list has taken a token, and, unless it has itself, nobody else was combined. |
| Verdicts.CheckAnswers | tclap/XorHandler.h:100-139 | A check that refuses names the first other member of the list who is set and not barred. |
| Verdicts.StepReads | tclap/CmdLine.h:455-477 | For any lists, a turn goes on, leaves the program or is refused, with the error, as the line read so far says; if it goes on, the count grows as read and every mark of every argument is as noted. |
| Verdicts.LeavesExactly | tclap/SwitchArg.h:206-221 | A token leaves the program if and only if it names an argument whose visitor leaves it and that does not refuse, or reaches such a switch by its letter before any switch that refuses. |
| Verdicts.RefusedExactly | tclap/ValueArg.h:327-377 | For each error, exactly which tokens are refused with it, and naming whom: set before, barred by its list, no delimiter, no value, no match, or a rival in the list. |
| Verdicts.GoesOnExactly | tclap/CmdLine.h:455-477 | The scan goes on from a token if and only if it means something, the argument it names or every switch with a letter in it takes it, and nobody in the taker's list stands in its way. |
| Verdicts.RunReads | tclap/CmdLine.h:453-477 | The scan comes to its end, leaves the program or is refused exactly as the line is read, and then count and marks are those read. |
| Verdicts.LineTells | tclap/CmdLine.h:444-483 | From fresh arguments, for any lists: the line alone tells whether the scan ends, leaves or is refused and by which error, what it counts, whether everything required is met, and whether everything is decided. |
| Verdicts.ParseTold | tclap/CmdLine.h:479-483 | The answer of parse is the one the line says: accepted with the required count, too few, too many, left, or refused with that error. |
| Verdicts.LeavesAtOnce | tclap/SwitchArg.h:218-221 | A line that begins with the flag or name of a switch whose visitor leaves the program leaves it, whatever follows. |
| Verdicts.DecidedMet | tclap/XorHandler.h:100-139 | What is decided is met. |
| Combining.OfferFlips | tclap/SwitchArg.h:223-253 | Down the whole list a combined token flips exactly the switches among its letters, each once, and the one that eats the last letter takes the token. |
| Combining.SeparateFlip | tclap/SwitchArg.h:229-234 | Separate switch tokens flip the same switches. |
| Combining.CombiningKeepsMeaning | tclap/SwitchArg.h:160-253 | `-abc` and the same switches given singly, in any order and for any order of the list, lead to the same state and the same end, whatever follows. |
| Accounting.RunCounts | tclap/MultiSwitchArg.h:155-190 | After any scan that ends, a counting switch outside the xor lists has grown by its uses on the line, and reports being set if and only if it was or there was one. |
| Accounting.FateExact | tclap/CmdLine.h:453-477 | Exactly one fate fits a token, given the line before it. |
| Accounting.StepFates | tclap/CmdLine.h:453-477 | A turn that goes on has met a token that is not unknown, takes a further token exactly when it names an argument that still wants its value, and changes each argument as the fate says. |
| Accounting.RunHolds | tclap/CmdLine.h:453-477 | After any scan that ends, before and after `--`, no token is unknown and every argument of every kind, in xor lists or not, holds exactly what the fates of the line give it: switches flipped by their one use, counters grown by their uses, values and words in order. |
| Accounting.NoMatchExact | tclap/CmdLine.h:468-476 | "Couldn't find match" is reported only for an unknown token, and always for one that holds no switch letter; a turn that goes on has met none. |
| RoundTrip.KeyNames | tclap/Arg.h:620-636 | A printed option names its argument, and its value part is the printed value. |
| RoundTrip.RunOptions | tclap/ValueArg.h:341-374 | Scanning printed options stores every value where it was printed for, in any order and number. |
| RoundTrip.RunWords | tclap/UnlabeledMultiArg.h:244-268 | After `--` every blank-free word, whatever it looks like, is appended to the unlabeled argument in order. |
| RoundTrip.PrintedParsesBack | tclap/ValueArg.h:327-377 | Any assignment of values printed by flag or name, with a space or another delimiter, then `--` and any words, parses back to exactly those values and words. |
| RoundTrip.PrintedAccepted | tclap/CmdLine.h:479-483 | Without xor lists that line is accepted if and only if every required argument was given a value. |
| CmdLines.XorHandler.Check | tclap/XorHandler.h:100-139 | The loops of check are the description: a clash that carries the other member if one is set, else all others are barred and the weight is the list's size, 0 on a repeat, or 0 or 1 outside the lists. |
| CmdLines.CmdLine.constructor | tclap/CmdLine.h:356-391 | For any delimiter a new command line holds the ignore-rest, version and help switches in this order, requires nothing, and is fit to parse; with a space or "=" the line theorems apply to it. |
| CmdLines.HelpLeaves | tclap/CmdLine.h:364-388 | With the help and version switches in the list, `-h`, `--help` and `--version` at the front of a line leave the program. |
| CmdLines.DashesEnd | tclap/CmdLine.h:364-388 | `--` and `--ignore_rest` end the labels. |
| CmdLines.CmdLine.Add | tclap/CmdLine.h:418-430 | Accepted exactly if the argument is new: a labeled one by name and, if it has one, flag, an unlabeled one by name and description. Then labels stay distinct, labeled arguments stay in front, and the required count stays the number of required arguments. |
| CmdLines.CmdLine.AddOwn | tclap/CmdLine.h:413-416 | An argument of its own is accepted exactly if it is new, which for a label means that no token would be matched by it and another; it keeps the command line fit to parse, whether it is taken or refused, and readable if its label fits. |
| CmdLines.CmdLine.XorAdd | tclap/CmdLine.h:393-403 | The arguments become required members of one new xor list, disjoint from the others, labelled "OR required", and the command line stays fit to parse; they are added up to the first that is not new. |
| CmdLines.CmdLine.ValidBuilt | tclap/CmdLine.h:393-430 | What add and xorAdd keep is what the acceptance argument needs. |
| CmdLines.CmdLine.OfferToken | tclap/CmdLine.h:457-466 | The inner loop over objects and the token array is the functional offer. |
| CmdLines.CmdLine.IsEmptyCombined | tclap/CmdLine.h:511-521 | True exactly for an empty token or a dash followed by blanks. |
| CmdLines.CmdLine.ScanTokens | tclap/CmdLine.h:453-477 | The outer loop ends, and its count, arguments and exceptions are those of the functional run. |
| CmdLines.CmdLine.Parse | tclap/CmdLine.h:444-509 | Parsing answers as described. From fresh arguments with readable labels the answer, acceptance, departure or refusal with its error, is the one the line says, and an accepted line tells whether everything required is met; without counting switches in lists it is. Every argument holds what the fates of the line give it. |
| Framing.NetworkOrder | src/RSession.cpp:811-815 | A 32-bit value is written most significant byte first. |
| Framing.Decode32Encode32 | src/RSession.cpp:811-815 | Network byte order is read back for every 32-bit value. |
| Framing.AppendWaits | src/InputBufferManager.cpp:21-44 | After every append, from any state and any bytes, the buffer is at most a header or a strict prefix of one good frame. |
| Framing.AppendExact | src/InputBufferManager.cpp:21-44 | From any state and any bytes: text is handed on only if the bytes received begin with a whole good frame, and it is that frame's text; a wrong magic number leaves neither bytes nor message; what begins a good frame waits. |
| Framing.GoodFrameRead | src/InputBufferManager.cpp:38-42 | A whole good frame at the front is always handed on. |
| Framing.FrameGood | src/RSession.cpp:811-817 | What the sender writes is a good frame: 0x21, the length, the text, each number most significant byte first. |
| Framing.FrameArrives | src/InputBufferManager.cpp:21-58 | However a frame is cut up, the message is complete with the last byte and not before, and is the string sent. |
| Framing.DeliveredStands | src/RSession.cpp:339-351 | Whatever bytes arrive in whatever pieces, every message handed on stands among them as a good frame, in order and without overlap. |
| Framing.DeliveredCost | src/InputBufferManager.cpp:38-42 | Every message handed on has used up its own header and bytes of the stream. |
| Framing.DeliveredIff | src/RSession.cpp:339-351 | From any point of a stream, all its messages are handed on if and only if every frame end is a chunk end. |
| Framing.StreamDelivered | src/RSession.cpp:339-351 | A whole stream of frames comes through, in order, if and only if no chunk reaches across the end of a frame. |
| Framing.SecondFrameDropped | src/InputBufferManager.cpp:38-42 | Two frames in one chunk: only the first message arrives. |
| Framing.InputBufferManager.AppendData | src/InputBufferManager.cpp:21-44 | The buffer code is the description, ends as AppendExact says and leaves a waiting buffer. |
| Framing.InputBufferManager.HasCompleteMessage | src/InputBufferManager.cpp:46-50 | True exactly when a message is waiting. |
| Framing.InputBufferManager.PopCurrentMessage | src/InputBufferManager.cpp:52-58 | Hands over the message and leaves the buffered bytes. |
| Framing.InputBufferManager.Reset | src/InputBufferManager.cpp:60-67 | Leaves neither bytes nor message. |
| Framing.InputBufferManager.HandleReads | src/RSession.cpp:339-351 | A run of read callbacks hands on exactly the delivered messages, all of which stand in the bytes received, and leaves none waiting. |
| SessionOutput.OutputConserved | src/RSession.cpp:235-252 | Over any run, text sent from the buffer followed by what is still buffered is the accepted non-error text in order. |
| SessionOutput.FlushesExact | src/RSession.cpp:784-792 | Over any run, each flush sends the text accepted since the one before it as one message, with its error mark and the query at work. |
| SessionOutput.ErrorsReach | src/RSession.cpp:234-252 | Over any run, what is sent at once is exactly the non-empty error text written while neither captured nor ignored, in order, marked as error, with the query at work when it was written. |
| SessionOutput.CaptureConserved | src/RSession.cpp:238-241 | Over any run, captured text grows by exactly the text written while capturing, errors included, in order. |
| SessionOutput.Unconnected | src/RSession.cpp:804-810 | Without a socket nothing is sent. |
| SessionOutput.AcksConserved | src/RSession.cpp:96-114 | Each scheduled completion is sent exactly once or is still scheduled, with the query id current when it was scheduled, whatever ran in between. |
| SessionOutput.WriteConserves | src/RSession.cpp:234-252 | What was sent from the buffer and what is in it grows by exactly the accepted text. |
| SessionOutput.RSession.ConsoleCallback | src/RSession.cpp:234-252 | The callback adds exactly the accepted text to what was sent from the buffer or is in it, sends an error at once with the query at work, and captures what is to be captured. |
| SessionOutput.RSession.SendOutputBufferToClient | src/RSession.cpp:784-792 | Afterwards everything ever buffered has been sent, in order, and the buffer is empty; what was in it went out as one message with the error mark asked for. |
| SessionOutput.RSession.FlushOutputBuffer | src/RSession.cpp:774-782 | What closing the graphics device prints is dropped, and the buffer goes out. |
| SessionOutput.RSession.ScheduleExecComplete | src/RSession.cpp:180-189 | The acknowledgements sent or waiting grow by one, with the query id and file of this moment. |
| SessionOutput.RSession.HandleExecComplete | src/RSession.cpp:96-114 | The acknowledgements sent or waiting, with their query ids and files, stay the same: the one that fires is sent once and no longer waits. |
| Delta.NameSortedIsPairSorted | src/EnvironmentWatcher.cpp:114-126 | A list sorted by distinct names is sorted in the pair order of the second difference. |
| Delta.DifferenceMember | src/EnvironmentWatcher.cpp:120-126 | The sorted-range difference holds exactly the elements with no equivalent in the other range. |
| Delta.DifferenceSorted | src/EnvironmentWatcher.cpp:120-126 | It keeps the order. |
| Delta.SortSorts | src/EnvironmentWatcher.cpp:114-117 | Sorting by name orders the variables and changes no binding. |
| Delta.RemovedNames | src/EnvironmentWatcher.cpp:119-122 | The first difference names exactly the variables that are gone. |
| Delta.AddedBindings | src/EnvironmentWatcher.cpp:123-126 | The second difference binds exactly the new and the changed variables, to their current values. |
| Delta.ChangeApplies | src/EnvironmentWatcher.cpp:102-139 | Removing and then assigning what is reported turns the captured environment into the current one, and nothing is both removed and assigned. |
| Delta.ChangeMinimal | src/EnvironmentWatcher.cpp:102-139 | Every other patch with that effect removes and assigns at least as much. |
| Delta.EnvironmentWatcher.CaptureEnvironment | src/EnvironmentWatcher.cpp:68-80 | The capture is the environment, whatever order its names are listed in. |
| Delta.EnvironmentWatcher.JsonDelta | src/EnvironmentWatcher.cpp:102-139 | The report is exactly the change since the capture, for any listing order, and the capture stays. |
| Wrap.LayoutFits | tclap/StdOutput.h:239-287 | No printed line, with its indent, is wider than the width, and a line is empty only where its indent fills the width. |
| Wrap.LayoutIndents | tclap/StdOutput.h:229-287 | The first line has the indent, and those after it the offset more. |
| Wrap.LineBreaks | tclap/StdOutput.h:249-265 | A line ends with the text, after a newline, before a space, comma or bar, or at the full width where there is none of these, and no later break would have fitted. |
| Wrap.PrintFirst | tclap/StdOutput.h:267-280 | Each line is printed with its indent in front and a newline behind. |
| Wrap.LayoutLossless | tclap/StdOutput.h:280-286 | The lines with the spaces dropped after each make up the text again. |
| Wrap.LayoutUnique | tclap/StdOutput.h:242-287 | There is only one layout of a text, so the description leaves nothing open. |
| Wrap.LayoutIff | tclap/StdOutput.h:239-287 | A text can be laid out if and only if the first line is not indented beyond the width and either later lines have room or the first line and its gap use up the text. |
| Wrap.NeverDone | tclap/StdOutput.h:239-287 | Where a text has no layout, no lines that turns of the loop can have printed reach its end. |
| Wrap.NoRoomNeverEnds | tclap/StdOutput.h:239-287 | A text that is wrapped, has no layout, and of which the turns of the loop never reach the end. |
| Wrap.MeasureLine | tclap/StdOutput.h:243-265 | The two scanning loops end inside the text and give the longest run of words that fits, cut at the first newline, or the full width if there is no break. |
| Wrap.SkipSpaces | tclap/StdOutput.h:282-286 | The next line begins at the first character that is not a space, and the terminator is never passed. |
| Wrap.NextLine | tclap/StdOutput.h:241-287 | One turn of the loop prints the line the description names and goes on behind its gap. |
| Wrap.WrapText | tclap/StdOutput.h:239-287 | Wherever there is a layout the loop ends, and what it prints is the layout of the whole text. |
| Wrap.SpacePrint | tclap/StdOutput.h:229-295 | Text too wide for one line is laid out, other text is printed as it is. |
| Quoting.TwoPasses | tclap/ZshCompletionOutput.h:136-153 | The two in-place passes together are one character map. |
| Quoting.QuotedLength | tclap/ZshCompletionOutput.h:136-153 | Each colon costs one character and each quote three. |
| Quoting.UnquotedQuoted | tclap/ZshCompletionOutput.h:136-153 | Quoting has a left inverse, so nothing is lost. |
| Quoting.EscapeColons | tclap/ZshCompletionOutput.h:138-143 | The backward insert loop ends and replaces every colon, and only those. |
| Quoting.EscapeQuotes | tclap/ZshCompletionOutput.h:144-152 | The same for quotes, with the special case at position 0. |
| Quoting.QuoteSpecialChars | tclap/ZshCompletionOutput.h:136-153 | The in-place code gives the quoted text. |
| Quoting.SubstituteSpecialChars | tclap/DocBookOutput.h:182-192 | The erase and insert loop ends and replaces each occurrence once, if the replacement does not bring the character back or there is none. |
| Quoting.SubstituteNeverEnds | tclap/DocBookOutput.h:187-191 | Otherwise every turn leaves the character in the string. |
| Quoting.RemoveChar | tclap/DocBookOutput.h:194-201 | Every occurrence is gone and the rest keeps its order. |
| Database.DBTransaction.Leave | common/PostgresUtils.hpp:65-68 | Leaving the scope without a commit restores the tables. |
| DBFileSources.DBFileSource.LoadFiles | src/DBFileSource.cpp:117-163 | Cache and directory take over every returned row, in order. |
| DBFileSources.DBFileSource.InsertDBFile | src/DBFileSource.cpp:187-234 | On every way out but success, tables and cache are as before; on success row, bytes and record are those of the file. |
| DBFileSources.DBFileSource.UpdateDBFile | src/DBFileSource.cpp:236-273 | All or nothing: version in row and record and the bytes move on together, or nothing changes. |
| DBFileSources.DBFileSource.RemoveDBFile | src/DBFileSource.cpp:275-287 | A refused delete changes neither table nor cache. |
| DBFileSources.DBFileSource.SaveRData | src/DBFileSource.cpp:78-115 | All or nothing on every way out. |
| DBFileSources.DBFileSource.LoadRData | src/DBFileSource.cpp:53-76 | The file is written exactly when there are bytes to restore. |
| FileSync.StepKeeps | src/DBFileSource.cpp:117-287 | Every step, taken by this session, by another or by an editor, keeps coherence. |
| FileSync.RunCoherent | src/DBFileSource.cpp:117-287 | Over every run, a cached file not edited since and with no notification outstanding has id, name, version and bytes equal in cache, row and directory, and names stay distinct. |
| FileSync.QuietAgrees | src/FileManager.cpp:219-278 | With nothing edited and nothing outstanding, the cache is exactly the rows of the workspace and all three copies agree. |
| FileSync.ConnectAgrees | src/FileManager.cpp:137-148 | Connecting brings any directory into agreement with the workspace. |
| FileSync.SaveThenLoad | src/DBFileSource.cpp:53-115 | A save keeps one row a workspace and leaves other workspaces alone, and a load into any directory brings the same bytes back. |
| Images.RunIndexed | src/FileManager.cpp:150-217 | Over every run of inserts, failed inserts, resets and cleanups the list is the ids of the current batch in order, no row of the session has a later batch, and batches never go down. |
| Images.NegativeBatchesBreak | src/FileManager.cpp:163-167 | From a negative largest batch number some run breaks the index. |
| Images.IndexedIff | src/FileManager.cpp:150-184 | The index holds in every run of a new session object if and only if the session has no rows or its largest batch number is not negative. |
| Images.CleanupStores | src/FileManager.cpp:201-217 | A cleanup that returns leaves nothing watched, and every watched non-empty file is stored byte for byte and gone from the directory. |
| Effects.InsertEffect | src/DBFileSource.cpp:187-234 | An insert succeeds exactly if the file is there and the server accepts each step; then the row is there at version 1 with the file's bytes, and a record of it, and nothing else has changed. |
| Effects.UpdateEffect | src/DBFileSource.cpp:236-273 | An update succeeds exactly if the file is there and the server accepts each step; then row and record are at the next version with the file's bytes, and nothing else has changed. |
| Effects.RemoveEffect | src/DBFileSource.cpp:275-287 | A delete that is accepted leaves neither row nor record and changes nothing else. |
| Effects.SaveEffect | src/DBFileSource.cpp:78-115 | When a save succeeds, and that the workspace's row then has the bytes of the file while other rows stay. |
| Effects.RestoreEffect | src/DBFileSource.cpp:53-76 | Restoring writes the bytes of the workspace's first row, if it has any, and nothing else. |
| Effects.ImageNames | src/FileManager.cpp:73 | An image is named rc2img, at least one digit, any character, png. |
| Effects.CreateEffect | src/FileManager.cpp:388-412 | A created file reaches the database, row, bytes and record, if the server accepts it; a created image is watched; any other creation changes nothing. |
| Effects.CloseWriteEffect | src/FileManager.cpp:413-421 | A watched image that is closed is stored and its watch forgotten; a cached file is updated; anything else changes nothing. |
| Effects.DeleteEffect | src/FileManager.cpp:423-431 | Of a deleted file that was cached neither row nor record is left, if the server accepts the delete; anything else changes nothing. |
| Effects.StoreEffect | src/FileManager.cpp:150-184 | When an image is stored and what then is in rows, list, batch and directory; a missing file and a refused step raise an exception and store nothing, an empty file is passed over. |
| Effects.CleanupReturns | src/FileManager.cpp:201-217 | A cleanup whose steps all succeed returns, and one that ends in an exception keeps its watches. |
| Effects.NoticeEffect | src/FileManager.cpp:220-278 | A notification about a new row, or a changed one that is cached, brings record and file in line with the row, with the flag up; one about a deleted row takes away record and file; any other changes nothing. |
| Effects.CreatesReach | src/FileManager.cpp:384-412 | Every created file handled is cached at the end unless a file is deleted afterwards, its name was asked for, the server refused it, or it was gone. |
| Echo.WritesFlagged | src/FileManager.cpp:104-110 | Every turn in which the manager writes or deletes a file, but for restoring `.RData`, ends with the flag up and one timer to turn it off. |
| Echo.TurnSealed | src/FileManager.cpp:371-444 | Every turn served in order keeps the seal: while the flag is down no event of the manager's own that could matter waits in the queue, and none was ever handled. |
| Echo.RunSealed | src/FileManager.cpp:314-329 | In every run that serves the queue before the timer and restores saved data only where that keeps the seal, no event that the manager caused itself and that could lead to the database is ever handled. |
| Echo.RestoreExact | src/DBFileSource.cpp:53-76 | Restoring the saved data keeps the seal, whatever events it causes, if and only if the flag is up, or nothing is written, or no file of the workspace and no watched image has its name. |
| Echo.OvertakingTimerEchoes | src/FileManager.cpp:104-110 | If the timer may overtake the queue, a file written for a notification comes back as an update. |
| Echo.RestoredFileEchoes | src/DBFileSource.cpp:53-76 | If a file of the workspace is named `.RData`, restoring the saved data comes back as an update of that file. |
| Manager.FindOrAddAgain | src/FileManager.cpp:561-577 | Asking twice gives the same file, and the second time nothing is inserted. |
| Manager.InconsequentialDoesNothing | src/FileManager.cpp:384-444 | The only events that reach database, cache or watches are those the echo theorem counts. |
| Manager.RunNames | src/FileManager.cpp:398-410 | No run of directory events and requests puts two cached files under one name. |
| Manager.CheckedNameFree | src/FileManager.cpp:331-341 | Once every row is cached, the existence check is enough for the insert that coherence asks for. |
| Manager.HandleOneIndexed | src/FileManager.cpp:384-444 | Handling any event keeps the image index exact. |
| Manager.HandleEventsGate | src/FileManager.cpp:371-383 | While ignoring, a batch of events changes nothing; otherwise the flag is up afterwards with exactly one timer more. |
| Manager.HandleNoticesGate | src/FileManager.cpp:280-293 | Handling any notifications leaves the flag up and starts no second timer. |
| ManagerRuns.TakeHandles | src/FileManager.cpp:280-444 | In the runs, a read takes its events from the front of the queue and handles or drops them as the manager does, notifications are handled as the manager does, and what a turn causes is queued. |
| ManagerRuns.ConnectHealthy | src/FileManager.cpp:137-148 | A session that has connected is coherent and its image index exact, if its image numbers are not negative. |
| ManagerRuns.TurnHealthy | src/FileManager.cpp:220-444 | Every event, request, notification, cleanup or batch, and everything editors and other sessions do, keeps files coherent and the image index exact. |
| ManagerRuns.RunHealthy | src/FileManager.cpp:220-444 | The same over every run. |
| ManagerRuns.RunSettles | src/FileManager.cpp:220-444 | After any run, if nothing is edited and nothing outstanding, all copies of every file agree, the cache is exactly the workspace, and the image list is exactly the current batch. |
| ManagerRuns.RunKeeps | src/FileManager.cpp:150-217 | No image is lost over any run, whatever fails: its bytes are in the directory or in a row of the session, as long as no editor touches the file and neither a workspace file nor the saved data has its name. |
| FileManagers.FileManager.InsertImage | src/FileManager.cpp:150-184 | The image code is the description; the flag goes up before the file is deleted. |
| FileManagers.FileManager.CleanupImageWatch | src/FileManager.cpp:201-217 | The loop ends at the first exception and forgets the watches only if there was none; the cache is not touched, and the flag is up if a row went in. |
| FileManagers.FileManager.ResetWatch | src/FileManager.cpp:524-534 | A new batch begins, with the next number if the old one had images, with no images and no names asked for, and the image index stays exact. |
| FileManagers.FileManager.CheckWatch | src/FileManager.cpp:536-542 | What the client is told are the ids of the current batch in the table, in order. |
| FileManagers.FileManager.IgnoreFSNotifications | src/FileManager.cpp:314-329 | The flag is up afterwards, and if one timer ran exactly while it was up, one runs now, however often it is asked for. |
| FileManagers.FileManager.HandleIgnoreFSNotesOff | src/FileManager.cpp:104-110 | The timer's callback is the turn the echo theorem calls Timer: the flag goes down with its timer, so one runs exactly while it is up. |
| FileManagers.FileManager.FileExistsWithName | src/FileManager.cpp:331-341 | True exactly when a cached file has the name. |
| FileManagers.FileManager.FindOrAddFile | src/FileManager.cpp:561-577 | A cached file of that name, or a new row and record, and then the name counts as asked for; an exception leaves everything as it was. |
| FileManagers.FileManager.HandleEvent | src/FileManager.cpp:384-444 | One directory event, with its catch clause, does what module Effects tells of it. |
| FileManagers.FileManager.HandleInotifyEvents | src/FileManager.cpp:371-444 | Events read while ignoring are dropped, others are handled in order with the flag up. |
| FileManagers.FileManager.ProcessDBNotification | src/FileManager.cpp:220-278 | Notifications of other workspaces are passed over; inserts and known updates load the row with the flag up; deletes remove record and file. |
| FileManagers.FileManager.HandleDBNotifications | src/FileManager.cpp:280-293 | The messages are handled in order with the flag up, and one timer runs at the end if one ran exactly while it was up. |

## Left out

- Repeats.CountingSwitchesExact: xor lists of one member are excluded; what holds there is Verdicts.LineTells, and Acceptance.CountExact has the balance.
- Framing.AppendWaits: a declared size of 2^32 - 8 or more, where the C++ sum wraps, is not modelled; the sum is unbounded here. Failures of the event buffer are not modelled.
- Framing.InputBufferManager.AppendData: the same; what the C++ code then reads is not determined by the bytes received.
- Framing.FrameArrives: messages whose length plus header does not fit in 32 bits are excluded; the C++ header would wrap.
- Wrap.SpacePrint: a text that has no layout is excluded when it is wrapped; the loop then does not end, or indexes before the text.
- FileManagers.FileManager.FindOrAddFile: the sequence is taken to hand out an id that is not cached.
- Labels.HeardBy: the blank character (ASCII 7) as delimiter is excluded, because combined letters are then not all counted.
- Accounting.RunHolds: labels are taken to be readable (Labels.WellLabeled): a delimiter that is neither a dash nor the blank character, flags of at most one character, as the argument constructor enforces, names that are not empty, no flag or name with the delimiter in it, and no flag "-" but that of the ignore-rest switch. The constructor and add keep this for labels that fit.
- CmdLines.CmdLine.Parse: a command line with a counting switch whose flag is the blank character is excluded, with any other delimiter; on a combined token with that flag its loop does not end.
- SessionOutput.AcksConserved: an acknowledgement that ends in an exception of the image cleanup is not part of the runs.
- SessionOutput.RSession.HandleExecComplete: the image cleanup and the image ids that precede the message are in Images and FileManagers, not in the message.
- FileManagers.FileManager.HandleEvent: the file a watch descriptor stands for is a parameter of the event, and the watch that is set after an insert is left out.
- FileManagers.FileManager.ProcessDBNotification: the text format of the message and the changes to file watches are left out.
- Echo.RunSealed: which events a write causes is a parameter; a restoring that Echo.RestoreExact shows to break the seal is not among the runs.
- ManagerRuns.RunKeeps: runs in which an editor, or a workspace file of the same name, overwrites or deletes the image are excluded, because its bytes are then not kept.
- Help, version and usage text, DocBook and completion output other than quoting, and visitors other than ignore-rest and leaving the program.
- Constraints and numeric extraction of values: values are strings. The range of C++ int for counts and versions.
- The static delimiter and ignore-rest flag of Arg are fields of a Globals object. They are set by the constructor as in the code; the flag is never cleared.
- The tracker for optional unlabeled arguments, and `reset`.
- File records are values in the cache, not objects shared with the map by watch descriptor. That map is erased by file id in the code, so the two are not kept in step; the file a descriptor stands for is a parameter of the event. A record missing from the maps is a null pointer in C++; here nothing happens.
- Fetching notifications from the connection, and the setting that ignores them: nothing in the code sets it, and it is taken to be off.
- Columns for modification time and size, the ids handed out by sequences and which statements succeed are parameters. Constraints and triggers of the database schema are not part of this model.
- Two sessions that insert one name at the same time, ids used twice, and notifications that do not tell the truth: runs of FileSync and ManagerRuns insert only free names under fresh ids.
- R values are compared by identity, as the code compares their addresses; their conversion to JSON, and file sourcing, are not modelled.
- libevent, libpq, inotify, RInside, process handling, logging and the server's accept loop.
