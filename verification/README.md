# Breakin: a verified model of its decoder, scheduler and calculators

Breakin burns in new machines: it reads the SMBIOS tables, runs test scripts round the clock, publishes their
results in a statistics file, lights a fault LED when a test has failed, and brings along two calculators for the
parameters of the HPL benchmark and a copy of the STREAM benchmark. This project models the parts of it that
compute something, in the form the C code has (in-place loops over arrays, objects with fields), and proves what
they are for.

- `trim.dfy` models `trim`, which moves a string over its leading blanks and then strips blanks backwards.
- `dmi_table.dfy`, `dmi_data.dfy`, `dmi_decoder.dfy` and `dmi_entry.dfy` model the SMBIOS decoder. It walks a packed
  table, filters strings in that table while it walks, and fills eleven adjacent 50-byte fields. The main result is
  that the fields end up as a pure fold over a pure reading of the original bytes. `dmi_encoding.dfy` proves the
  round trip with the encoding of DSP0134 (sections 6.1.2 and 6.1.3).
- `scheduler.dfy` models the loops of the scheduler and their line buffer, `child_output.dfy` the pipe between a child
  and the main loop.
- `stat_file.dfy` models the statistics file as text, and the shell that reads it in byte by byte; `stat_quotes.dfy`
  says what the shell makes of values with quotes, and `statistics.dfy` which lines are published and when a reader
  gets back what was published.
- `burnin.dfy` puts scheduler, statistics thread, children and the `failid` script into one state machine of interleaved
  atomic steps; `burnin_invariant.dfy` and `burnin_runs.dfy` prove safety over every run, `burnin_quotes.dfy` what
  quotes in a published text do to that, `burnin_alarms.dfy` the exact conditions for a false alarm, and
  `burnin_loops.dfy` relates the loops and the script to the steps.
- `selection.dfy` says what it means that a loop takes some items of a list, in their order; the logs and the list of
  tests are such selections.
- `disable_list.dfy` models the list of disabled tests, which `strtok_r` takes apart in place.
- `log_tail.dfy`, `cpu_usage.dfy`, `hpl.dfy` and `stream.dfy` model the log cursor, the wrapping processor accounting,
  the HPL calculators and the STREAM kernels.

## Where the code is not what its documentation says

- `--disable_test=test1,test2` is documented to leave out every listed test. Only the first directory entry is held
  against the whole list, the others against its first name. `HonouredIff` gives the exact condition under which the
  option works as documented, `TwoNamesFallShort` a family of directories where it does not.
- Section 5.2.1 of DSP0134 has software search the paragraph boundaries for the anchor. `do_dmi_decode` steps over the
  paragraph behind an anchor, so it does not look at every one. `TriedIff` says which ones it tries;
  `SecondAnchorSkipped` and `SecondIsAcceptable` show an acceptable entry point that it does not decode.
- The checksum of an entry point is taken over as many bytes as it says itself. It stays inside the 64 KiB that were
  copied iff `fp + m[fp + 5] <= 0x10000` (`StaysInImageIff`).
- The statistics file is written as lines `KEY="value"` for a shell to read in, but the values are not escaped: names of
  tests, their last messages, and what the hardware says of itself. `PublishedLoadsIff` shows that a file without
  other special bytes reads back as published iff no text in it contains a quote. The total is found in more files than
  these: `TotalFoundIff` shows that `failid` is sure to find it iff the shell reads the file to its end, and
  `EvenTextsFound` that this means an even number of quotes, as in `disk "sda" ok`, as far as blanks and special bytes
  outside of quotes do not interfere. A test that prints `MSG: 24" panel` is enough for `failid` to fail or to miss the
  total (`StrayQuoteLoads`, `OneLineIsEnough`). What `failid` is for is promised for the runs in which every published
  file is read to its end.
- "Other tests have errors", `failid` says when it forces the LED on. There are two ways in which none has: a statistics
  file left over from an earlier burn-in that gives a positive total (`FalseAlarm`), and one that ends in an open quote,
  which makes `failid` fail and take its own failure for one of another test (`OwnFailureAlarm`). `NoFalseAlarmIff`
  shows that in these runs there is no third, and `NeverFailsIff` when `failid` never fails.
- The main loop closes the stream of a child once waitpid has reaped it. `AllDeliveredIff` shows that what the child
  wrote behind the last fgets is lost, and nothing else.

## Model

| member | source | states |
|---|---|---|
| Trimming.Trim | util.c:4-33 | the memory after trim, byte for byte, given that the backward scan finds a byte to stop at |
| Trimming.ShiftOverIndent | util.c:8-25 | the first half of trim: indent counted, string moved down over it, NUL behind it |
| Trimming.MoveDown | util.c:15-19 | the string moves down over its indent byte for byte, a NUL ends it, nothing else changes |
| Trimming.ZeroBlanksDown | util.c:27-31 | the run of blanks below the end becomes NULs, and nothing else changes |
| Trimming.TrimMemoryText | util.c:4-33 | the string becomes the same string without leading space/tab and then without trailing blanks |
| Trimming.TrimmedIs | util.c:9-31 | what is cut off in front is all spaces and tabs, what is cut off behind all blanks, and what remains neither begins nor ends with such |
| Trimming.TrimmedIdempotent | util.c:9-31 | trimming twice is trimming once, and a trimmed string has no blank at either end |
| Trimming.TrimStaysInsideIff | util.c:27-31 | no byte outside the string changes iff something of it remains or the byte before it is no blank |
| DmiTable.AreaEnd | dmidecode.c:207-211 | the search stops at the first double NUL at or after its start, if one fits |
| DmiTable.StructureIff | dmidecode.c:207-213 | a structure is decoded iff a double NUL at or after its formatted area fits in the table |
| DmiTable.WalkVisits | dmidecode.c:201-219 | every structure visited lies in the table, directly behind the double NUL of the one before |
| DmiTable.WalkStops | dmidecode.c:202-219 | the walk stops early only where there is no structure, and takes at least two bytes a structure |
| DmiTable.ParseIsWalk | dmidecode.c:201-219 | the pure parse is what lies at the offsets of the walk, in order |
| DmiTable.FilterByte | dmidecode.c:132-135 | printable bytes stay, all others become a dot; filtering never makes a NUL |
| DmiTable.FilteredStrLen | dmidecode.c:132-135 | a table filtered anywhere keeps the places and lengths of all its strings, and their filtered text |
| DmiTable.FilterInPlace | dmidecode.c:132-135 | the filtering loop changes exactly the bytes of the string, and its length is the same in every round |
| DmiTable.StringPosIs | dmidecode.c:121-130 | string number n + 1 is found where it lies, and a number too high ends at the closing NUL |
| DmiTable.StringReadsStay | dmidecode.c:121-135 | for every number the reads stay between formatted area and next structure |
| DmiTable.SkipStrings | dmidecode.c:121-127 | the skipping loop finds the same place in a filtered table as in the original one |
| DmiTable.TextFromIs | dmidecode.c:113-138 | the text found is the one the parsed structure has: filtered string, bad index, or not specified |
| DmiTable.DmiString | dmidecode.c:113-138 | the text returned is that of the original table whatever was filtered before, and only string bytes of this structure change |
| DmiData.LastProviderWins | dmidecode.c:144-188 | each field holds the cut, filtered and where due trimmed string of the last structure that provides it, or its old value |
| DmiData.FoldLast | dmidecode.c:190-222 | decoding one structure more is absorbing it into the fields |
| DmiData.FieldUpdate | dmidecode.h:6-18 | a write inside one field leaves the other ten strings and all closing NULs alone |
| DmiData.TrimStaysInField | dmidecode.c:185-187 | trim on a field behind the first changes no byte outside it, also when it is empty or all blanks |
| DmiData.TrimUpdatesField | dmidecode.c:185-187 | and makes that field, and no other, its trimmed string |
| DmiDecoder.Decoder.constructor | dmidecode.c:14 | all fields start empty and closed by NULs |
| DmiDecoder.Decoder.Snprintf | dmidecode.c:156-178 | the field holds a prefix of the string, all of it up to 49 bytes; every other field stays |
| DmiDecoder.Decoder.CopyString | dmidecode.c:156-178 | a field becomes what the structure provides for it; only string bytes of the table change |
| DmiDecoder.Decoder.CopyBios | dmidecode.c:153-159 | all fields a type 0 structure provides are replaced, no others |
| DmiDecoder.Decoder.CopySystem | dmidecode.c:161-170 | the same for type 1 |
| DmiDecoder.Decoder.CopyBoard | dmidecode.c:172-179 | the same for type 2 |
| DmiDecoder.Decoder.TrimFields | dmidecode.c:185-187 | board vendor, board product and BIOS version are trimmed, nothing else |
| DmiDecoder.Decoder.Decode | dmidecode.c:144-188 | the fields absorb the structure of the original table; headers and formatted areas stay intact |
| DmiDecoder.Decoder.FindNext | dmidecode.c:207-211 | the search gives the next structure and tells whether this one is complete |
| DmiDecoder.Decoder.Table | dmidecode.c:190-222 | walking, filtering and decoding leaves the fold over the parse of the original bytes |
| DmiDecoder.Decoder.SmbiosDecode | dmidecode.c:225-237 | accepted iff both checksums and "_DMI_" are right; then the fields are the fold over memory at the address and of the length and count that lie low byte first at 0x18, 0x16 and 0x1C |
| DmiDecoder.Decoder.DoDmiDecode | dmidecode.c:239-260 | the fields are those left by the tables of the paragraphs tried, in order |
| EntryPoint.Checksum | dmidecode.c:55-63 | true iff the bytes sum to 0 modulo 256, for any length |
| EntryPoint.WordReadsBack | dmidecode.h:73 | a 16-bit number written low byte first is read back |
| EntryPoint.DwordReadsBack | dmidecode.h:74 | and so is a 32-bit number |
| EntryPoint.FirstHalfSumsToZero | dmidecode.c:227-229 | with length 0x1F an accepted entry point's first 16 bytes sum to 0 on their own |
| EntryPoint.OneByteChange | dmidecode.c:225-237 | changing one byte other than the length byte is noticed iff a checksum covers it |
| EntryPoint.TriedIff | dmidecode.c:249-257 | a paragraph is tried iff the run of anchor paragraphs ending there has odd length |
| EntryPoint.AnchorsAre | dmidecode.c:251 | the anchor paragraphs are those that start with "_SM_" |
| EntryPoint.AnchorRunIs | dmidecode.c:249-257 | a run of anchors is one of anchor paragraphs only, and as long as it can be |
| DmiDecoder.ScanInOrder | dmidecode.c:249-257 | each paragraph is decoded on top of what those tried before it have left |
| EntryPoint.TriedOnce | dmidecode.c:249-257 | only anchor paragraphs are tried, and none twice |
| EntryPoint.SecondIsAcceptable | dmidecode.c:225-237 | an image with anchors in its first two paragraphs, the second of which would be accepted |
| DmiDecoder.SecondAnchorSkipped | dmidecode.c:249-257 | in every image with anchors in its first two paragraphs the scan goes from the first to the third, so the second entry point is never decoded |
| EntryPoint.StaysInImageIff | dmidecode.c:225-237 | acceptance depends on nothing behind the image iff offset and length byte together do not exceed 64 KiB |
| DmiEncoding.StructureReadsBack | dmidecode.c:205-213 | an encoded structure is read back wherever it lies |
| DmiEncoding.RoundTrip | dmidecode.c:201-219 | walking an encoded list of structures returns exactly that list |
| DmiEncoding.WalkVisitsBoundaries | dmidecode.c:201-219 | the offsets visited are the boundaries of the encoding |
| DmiEncoding.TextReadsBack | dmidecode.c:113-138 | string s of an encoded structure comes back filtered; 0 and numbers too high give the two literals |
| DmiEncoding.DecodedFromEncoding | dmidecode.c:144-222 | decoding an encoded table gives each field the string of the last structure that provides it |
| DmiEncoding.FieldFromEncoding | dmidecode.c:153-187 | for each of the eleven fields: the structure type, least length and offset its string number comes from, and byte for byte what the field shows for every number |
| DmiEncoding.PrintableIsHeld | dmidecode.c:153-187 | a printable string of at most 49 bytes is held as it is, a longer one up to its 49th byte, trimmed in three fields |
| Scheduler.MessageIsLonger | breakin.c:1741-1743 | a trimmed line that starts with "MSG: " is longer than that, so the length test never decides |
| Scheduler.ReadLine | breakin.c:1738-1741 | the line buffer yields the line up to its first NUL, trimmed, and the byte before the buffer is safe |
| Scheduler.Drain | breakin.c:1738-1757 | one error for each line that does not start with "MSG: ", in their order, with the text name, " - ", line cut to the buffer; last_msg from the last line, without the prefix |
| ChildOutput.TakenIsPrefix | breakin.c:1738-1757 | however child and main loop interleave, what was read is a prefix of what was written, in chunks that fit the buffer |
| ChildOutput.ChunkIsLine | breakin.c:1738 | what one fgets takes ends behind the first newline, where the buffer is full, or where the child has written no more |
| ChildOutput.MissingIsLate | breakin.c:1738-1759 | once fgets has found nothing, what is missing is exactly what the child wrote since |
| ChildOutput.AllDeliveredIff | breakin.c:1738-1769 | when the stream is closed all output was read iff none was written behind the last fgets |
| ChildOutput.LastLineLost | breakin.c:1738-1769 | a history in which the last line of a child is lost |
| Scheduler.Scheduler.constructor | breakin.h:82-93 | the table holds the scripts that were found |
| Scheduler.Scheduler.RunBurninTests | breakin.c:1310-1319 | exactly the scripts that are idle are launched: running, with the stream and pid of their fork |
| Scheduler.Scheduler.Poll | breakin.c:1723-1797 | one script's turn, field by field for every answer of waitpid, with what it logs; everything else unchanged |
| Scheduler.Scheduler.DrainAndReap | breakin.c:1723-1798 | a round gives every script its turn; the log is that of the turns one behind the other; stuck scripts are reported |
| BurninRuns.Reachable | breakin.c:1712-1804 | the invariant of the whole system holds after every run of interleaved steps |
| BurninRuns.RunsAreAccountedFor | breakin.c:1729-1796 | launches = passes + failures + running + abnormal ends; counters match the exit codes; streams opened = closed + held + dropped; pids and children unique |
| BurninInvariant.StepKeepsCounters | breakin.c:1759-1796 | no step lowers a failure counter or touches a script that is disabled or stuck |
| BurninInvariant.PollConserves | breakin.c:1759-1796 | reaping keeps the books: passes and failures are those among the exit codes, and 255 or an abnormal end disables |
| BurninLoops.ChildIsReaped | breakin.c:1759-1796 | what a turn makes of a script whose child works, has exited with 0, 255 or another code, or was killed |
| BurninInvariant.StepForcesOnce | scripts/tests/failid:11-16 | no step of any thread makes failid force the LED on more than once a run, whatever is published |
| BurninInvariant.SureToLoad | scripts/tests/failid:6-9 | a published file that is read to its end can be read in in one way only, and gives the total published, whatever its texts are |
| BurninInvariant.LoadIsWarranted | scripts/tests/failid:6-11 | a positive total that failid finds means that a test has failed, another one than failid if a leftover file does not keep it from loading |
| BurninInvariant.StepTellsTruth | scripts/tests/failid:6-25 | no step breaks what the LED says of tests other than failid, and what failid ends with, as long as every published file is read to its end |
| BurninInvariant.StepKeepsLed | scripts/tests/failid:6-25 | no step of any thread breaks what is known of the LED and its script |
| BurninInvariant.CollectionIsFair | breakin.c:1105-1124 | a complete collection is a fair snapshot, not below the one before |
| BurninInvariant.AddKeepsCollection | breakin.c:1118 | adding a counter to the total keeps the collection within its bounds |
| BurninRuns.ParkedForever | breakin.c:1731-1785 | a script that is disabled, or stuck without a stream, stays as it is for good |
| BurninRuns.StartIsRemembered | breakin.c:1105-1119 | no step of another thread disturbs a collection under way |
| BurninRuns.TotalIsBetween | breakin.c:1105-1124 | the published total lies between the true totals at start and end, covers the counters listed, and does not go down |
| BurninRuns.TotalsNeverGoDown | breakin.c:1105-1124 | over a whole burn-in the published totals ascend and never exceed the truth |
| BurninRuns.NoFalseAlarm | scripts/tests/failid:6-16 | while every published file is read to its end: without a leftover file that may do it the LED is forced on only after a failure, without one that does not load failid never fails, and without either only when another test has failed |
| BurninRuns.ForcedAtMostOnce | scripts/tests/failid:11-16 | the LED is forced on at most once, plus once for each failid run lost to another reaper |
| BurninRuns.LaterRunsForce | scripts/tests/failid:6-16 | once a positive total is published, a failid run that completes has forced the LED on, while every published file is read to its end |
| BurninRuns.ForcedOncePublished | scripts/tests/failid:6-16 | the same along any burn-in, from the point where failid may be launched again |
| BurninAlarms.FalseAlarm | scripts/tests/failid:6-16 | a run that forces the LED on with nothing failed, for every leftover file that may give a positive total |
| BurninAlarms.MayForceIff | scripts/tests/failid:6-11 | which leftover files may give a positive total |
| BurninAlarms.LeftoverFails | scripts/tests/failid:6-9 | with a leftover file that ends in an open quote the first run of failid can fail |
| BurninAlarms.NeverFailsIff | scripts/tests/failid:6-25 | over the runs whose files are read to their end failid itself never fails iff no leftover file keeps it from that |
| BurninAlarms.OwnFailureAlarm | scripts/tests/failid:6-16 | with such a leftover file a run that forces the LED on because failid itself has failed, and no other test |
| BurninAlarms.NoFalseAlarmIff | scripts/tests/failid:6-16 | over the runs whose files are read to their end, the LED is forced on only when another test has failed iff no file is left over, or one that loads and gives no positive total |
| StatFile.DecimalReadsBack | breakin.c:1116-1120 | a number written in decimal is read back |
| StatFile.NumberIs | scripts/tests/failid:11 | a digit more makes a number ten times as large and adds the digit |
| StatFile.DecimalIsShort | breakin.c:1116-1120 | a number is written without zeros in front |
| StatFile.SignedIs | breakin.c:1112 | a negative number is written with a minus sign |
| StatFile.LineIs | breakin.c:1105-1120 | a line is its key, an equals sign and a quote, its value, a quote and a newline |
| StatFile.BytesAre | scripts/tests/failid:8 | which bytes are special to the shell, and which are plain |
| StatFile.RoundTrip | breakin.c:1086-1120 | if no value contains a quote, dollar sign, backquote or backslash, the shell makes exactly the assignments that were published |
| StatQuotes.LoadsAsPublishedIff | breakin.c:1086-1120 | with no other special bytes about, it does so iff no value contains a quote |
| StatQuotes.OddStaysOpen | breakin.c:1086-1120 | a file whose values contain an odd number of quotes and no number sign ends in an open quote, unless it is beyond the model of the shell |
| StatQuotes.CommentHides | breakin.c:1086-1120 | with a number sign the quote at the end of a line may be part of a comment, and the line is read to its end |
| StatQuotes.CommandIsLost | scripts/tests/failid:8 | a value whose quotes leave a bare word behind a blank makes its line a command, which assigns nothing in the model |
| StatQuotes.EvenQuotesIff | breakin.c:1086-1120 | with harmless text inside of quotes, and plain text without blanks outside, a file is read to its end iff its values contain an even number of quotes, and else ends in an open quote |
| StatQuotes.PairedLoads | breakin.c:1086-1120 | values with paired quotes are read in without these quotes, and otherwise as published |
| StatQuotes.LastLineHolds | breakin.c:1120 | whatever the lines before, a file that is read to its end makes the assignment of its last line last |
| StatQuotes.StrayQuote | breakin.c:1086-1120 | one stray quote, with harmless text in front of it and plain text behind it, leaves the shell in an open quote, with the assignments of the lines before |
| Statistics.TotalReadsBack | breakin.c:1105-1120 | the whole file gives the total published, any part of it gives none |
| Statistics.CountsReadBack | breakin.c:1105-1120 | under "BURNIN_QTY" the number of scripts is found, under "BURNIN_TOTAL_FAIL_QTY" the total |
| Statistics.Layout | breakin.c:1105-1120 | the lines in order: hardware, number of scripts, five lines a script, total |
| Statistics.ScriptReadsBack | breakin.c:1107-1119 | under "BURNIN_", its number and "_NAME", "_LASTMSG", "_RUNNING", "_PASS_QTY" or "_FAIL_QTY" the whole file gives just that value of a script |
| Statistics.EntriesHarmlessIff | breakin.c:1105-1120 | the file needs no escaping iff the names, messages and lines on the hardware do not |
| Statistics.QuotesOfEntries | breakin.c:1105-1120 | the quotes in the values are those in the texts |
| Statistics.EntriesFitIff | breakin.c:1105-1120 | the values fit the quotes around them iff the names, messages and lines on the hardware do |
| Statistics.CompleteGivesTotal | breakin.c:1105-1120 | whatever the texts are, a published file that is read to its end gives the total published |
| Statistics.EvenTextsIff | breakin.c:1105-1120 | as far as the texts decide, a published file is read to its end iff the number of quotes in them is even |
| Statistics.PublishedLoadsIff | breakin.c:1105-1120 | a published file reads back as published iff no text in it contains a quote, if it has no other special bytes |
| BurninQuotes.TotalFoundIff | scripts/tests/failid:6-11 | for every published file: failid is sure to find the total iff the file is read to its end |
| BurninQuotes.EvenTextsFound | scripts/tests/failid:6-11 | as far as the texts decide, it is sure to find it iff the number of quotes is even |
| BurninQuotes.StrayQuoteLoads | scripts/tests/failid:6-11 | with one stray quote failid fails with status 2 or goes on without a total |
| BurninQuotes.Collects | breakin.c:1105-1124 | a collection that nothing interrupts publishes the scripts as they are, and the true total |
| BurninQuotes.StrayQuoteFails | scripts/tests/failid:6-16 | from every state with one stray quote in its texts, and plain text behind it, a run in which failid is counted as failed and the LED left alone |
| BurninQuotes.MessageIsTaken | breakin.c:1738-1746 | every text without blanks at its end that fits a line can become a last message |
| BurninQuotes.OneLineIsEnough | breakin.c:1738-1746 | in every burn-in with another test, whatever harmless lines the hardware has, one line this test prints can make failid fail, and nothing else has failed |
| BurninLoops.LaunchRound | breakin.c:1310-1319 | the launches as protocol steps have the effect proved of the loop |
| BurninLoops.PollRound | breakin.c:1723-1798 | a round of the main loop as protocol steps is always possible and has the effect proved of the loop |
| BurninLoops.DumpStats | breakin.c:1105-1124 | the file written line by line while the other threads go on is the file the protocol publishes |
| BurninLoops.CollectedIsRead | breakin.c:1105-1120 | along any interleaving a collection holds the scripts its first reads found and the sum of the second ones |
| BurninLoops.PublishesWhatWasRead | breakin.c:1105-1124 | the protocol publishes what the loop computes from the values read |
| BurninLoops.FailId | scripts/tests/failid:6-25 | however reading the file in turns out, the LED is forced on iff the total found is positive; for a file read to its end that is the total in it; the exit codes |
| BurninLoops.FailIdSteps | scripts/tests/failid:6-25 | a failid child left alone and waited for: disabled with the LED on, launched again, or counted as failed, as the file reads |
| DisableList.StrtokR | breakin.c:1273-1277 | the next name is found and cut off in place |
| DisableList.CutBehindFirst | breakin.c:1273-1277 | a list cut behind its first name holds that name only |
| DisableList.NamesIff | breakin.c:1273-1277 | the names of a list are its stretches between commas that are not empty |
| DisableList.FirstNameIs | breakin.c:1273-1277 | the first of them has only commas in front |
| DisableList.RegisteredAre | breakin.c:1270-1304 | which entries are registered, entry by entry |
| DisableList.NextName | breakin.c:1273-1280 | each call takes the first of the remaining names and leaves the others |
| DisableList.IsListed | breakin.c:1273-1284 | an entry is matched iff it is one of the names, and the list is cut to its first name |
| DisableList.FindBurninTests | breakin.c:1255-1308 | the tests registered are, in directory order, the entries without a dot in front that are not on the list as they see it; with paths and clean counters |
| DisableList.RegisteredIsMore | breakin.c:1270-1304 | never fewer tests than documented, and as many iff none slips through |
| DisableList.HonouredIff | breakin.c:1598 | the option works as documented iff no later entry is listed other than as the first name |
| DisableList.OneNameHonoured | breakin.c:1598 | a list of one name always works |
| DisableList.TwoNamesFallShort | breakin.c:1598 | a list of two names does not |
| HplGrid.Grid | hpl_calc_pq.c:8-27 | P * Q = cores, P <= Q, the difference is least, and P = 1 iff cores is 1 or prime |
| HplGrid.AroundRoot | hpl_calc_pq.c:12-16 | every factor pair lies on both sides of the start of the search |
| HplGrid.SingleRow | hpl_calc_pq.c:19-27 | a least grid has one row iff cores is 1 or prime |
| HplSize.BestForTarget | hpl_calc_n.c:25-31 | square root and two roundings lose nothing: the size is the best fit for the target |
| HplSize.BestIsLargest | hpl_calc_n.c:30-31 | a best fit is the largest multiple of 192 that fits |
| HplSize.Monotone | hpl_calc_n.c:17-31 | more memory never gives a smaller size |
| HplSize.BestFitIff | hpl_calc_n.c:20-31 | the size is the best fit for 94 percent of the memory behind the reserve iff nothing wraps |
| HplSize.UsableIs | hpl_calc_n.c:17-24 | the two steps that may wrap come down to one |
| HplSize.SizeInNumbers | hpl_calc_n.c:17-31 | the size printed in numbers: a multiple of 192 whose square times 8 fits into 94 percent of the memory, and the next one does not |
| CpuUsage.Monitor.GetCpuUsage | breakin.c:298-347 | the first sixteen cpu lines update the records, the others are passed over |
| CpuUsage.Account | breakin.c:319-339 | the 32-bit arithmetic in steps is that on the true counters, reduced once |
| CpuUsage.UpdatedIs | breakin.c:319-339 | a record after a line, number by number; the percentage times the time passed is 100 times the used time |
| CpuUsage.DeltaIsTrueIff | breakin.c:326-330 | a wrapping difference is the true one iff the counter advanced by less than 2^32 |
| CpuUsage.DeltasTelescope | breakin.c:326-337 | the differences over a run add up to last minus first |
| CpuUsage.PercentIff | breakin.c:332-333 | the percentage is a number from 0 to 100 iff some time passed and the sum did not wrap |
| LogTail.FgetsEnd | breakin.c:193 | one fgets ends behind the first newline, at the end of the buffer or at the end of the file |
| LogTail.ReadOn | breakin.c:193-199 | the loop reads exactly from its start to the end of the file, line by line, while the file may grow |
| LogTail.Tail.Read | breakin.c:176-200 | everything delivered so far is the file from the first look to the cursor, each byte once |
| LogTail.Tail.ShowLog | breakin.c:176-201 | show_log logs every line it reads, each trimmed |
| LogTail.Tail.MonitorSyslog | breakin.c:146-174 | monitor_syslog keeps the same cursor and logs exactly the lines that contain ".err" or ".emerg", in their order |
| LogTail.AlarmsAreLogged | breakin.c:163-169 | the log is the selection of the alarms among the trimmed lines |
| LogTail.Watch | breakin.c:176-201 | over any number of looks and failed opens the chunks are the file from its end at the first open to the cursor |
| Stream.Copy | bench_stream.c:99-101 | the copy kernel, for every order of its iterations |
| Stream.Scale | bench_stream.c:105-108 | the scale kernel, for every order |
| Stream.Add | bench_stream.c:111-113 | the add kernel, for every order |
| Stream.Triad | bench_stream.c:117-119 | the triad kernel, for every order |
| Stream.Rounds | bench_stream.c:85-121 | the closed form of the three arrays after any number of rounds |
| Stream.Summary | bench_stream.c:125-133 | least and greatest time of iterations 1 to 9 of each kernel |
| Stream.RateIsBest | bench_stream.c:135-138 | no iteration that counts was faster than the rate reported |
| Stream.BenchStream | bench_stream.c:56-141 | arrays in closed form; each rate times the least measured time is 16 bytes an element for two kernels and 24 for the other two |

## Assumptions about the environment

- The machine is little-endian, and char is signed, so bytes from 128 on are filtered.
- fork returns a pid that no child in the process table has and that the scheduler is not waiting for. exec succeeds.
  Another thread may reap a child (step Steal); what is promised without that is stated separately.
- At a quote that is never closed the shell of failid gives up with status 2, or goes on with the assignments made so
  far; either may happen. A total that is not written in decimal digits counts as none. The file left over from an
  earlier burn-in, if any, is a parameter of the initial state.
- fgets hands over at most BUFSIZ - 1 bytes a call. The byte before a line buffer is no blank.
- Log files only grow; they may grow between any two calls of fgets.
- Physical memory is a function from base and length to bytes, or to nothing where it cannot be mapped.

## Left out

- RunsAreAccountedFor: the counters have no upper bound, and the turn of one script is one atomic step.
- TotalIsBetween: the lines on the hardware are a parameter of the collection, the lines of one script are read in one
  step, and the rename never fails.
- FailId: file text with expansions, escapes, operators or commands in it is beyond the model of the shell. The protocol
  lets such a file turn out any way, except that it does not make the script force the LED on by other means; where a
  run is claimed to exist, the file it needs is not such a file.
- LoadsAsPublishedIff: a file beyond the model of the shell counts as not read back; so it does in PublishedLoadsIff,
  and in TotalFoundIff as one in which the total is not sure to be found.
- NoFalseAlarmIff: is for tests whose names can be published; of published files that are not read to their end it does
  not speak.
- SmbiosDecode: what lies behind the 64 KiB image is a parameter. The version passed on to the decoder has no effect and
  is left out.
- FindBurninTests: puts no bound on the number of tests, where the table of the program has room for 64.
- AllDeliveredIff: one call of fgets is atomic, and a stream dropped because waitpid failed is not followed further.
- Grid: cores below 1 make the program divide by zero or take the root of a negative number and are excluded; the
  square root is exact, as it is for 32-bit numbers in double arithmetic.
- BestFitIff: takes the exact square root as given and 0.94 as a decimal fraction; rounding of double and long double
  is not modelled.
- Rounds: arithmetic is exact; an iteration of a parallel loop is atomic, as each touches only its own index.
- BenchStream: the least times start from FLT_MAX, as in the only call the program makes; average times are left out.
- GetCpuUsage: takes the numbers of each cpu line as parsed.
- Screen, keys, serial line, log device and upload threads: input and output without logic of their own.
- Network, disk, sensor and memory probing: they rest on external formats and ioctl.
- The disk benchmark, cryptpasswd, mapping of memory, and the other shell scripts.
