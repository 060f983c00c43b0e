# Verified models of a Redis server's core

This project models the hard parts of the Redis server source under `backend/redis-stable/src`
and proves what they are for, for all inputs, all runs or all reachable states. `dafny verify
dfyconfig.toml` checks it.

| component | modules | main results |
|---|---|---|
| CRC64 fast path (`crcspeed.c`, `crccombine.c`, `crc64.c`) | `Words`, `Shifts`, `Powers`, `CrcSpec`, `CrcBitwise`, `CrcCombine`, `CrcSpeed`, `CrcCheck` | the sliced, multi-lane, matrix-merged checksum is the bit-by-bit one, for every seed, buffer, address and cutoff |
| Append-only log (`aof.c`) | `AofManifest`, `AofLog`, `AofFeed` | crashes between any two file operations lose and repeat nothing of what was written, and all that is fed gets there; a log cut at any byte runs its complete commands and transactions |
| ACL selector rules (`acl.c`) | `AclText`, `ArgQuotes`, `AclRules`, `AclMeaning`, `AclSelector`, `AclReplay` | every rule writes exactly its bits; the edited rule text regenerates the permissions exactly for plain rules; for them the panic for a mismatch is unreachable |
| Bit commands (`bitops.c`) | `Bitmaps`, `Popcount`, `BitSearch`, `BitRanges`, `Bitfields`, `FieldOverflow`, `BitfieldCommand`, `BitOps` | word-at-a-time code equals bit-at-a-time specifications; overflow policies are exact in 64-bit arithmetic |
| Blocked clients (`blocked.c`) | `Blocked`, `BlockedServer`, `BlockedService` | redundant indexes, counters, flags and queues agree in every reachable state; waiters are served first come first served |
| Background jobs (`bio.c`) | `Bio`, `BioSignals` | order, counters, draining and callbacks, over every interleaving of lock-level steps; no lost wake-up with one drainer at a time |
| Cluster slots (`cluster.h`, `cluster.c`) | `ClusterSlots`, `ClusterQuery` | patterns with a slot match only that slot; redirection decided over whole requests |
| Linked list (`adlist.c`) | `Adlist` | heap nodes refine sequences; deletion while iterating is safe |

Code that works by changing things in place is modelled by classes, arrays and loops, each proved
against a specification function; protocols are state machines whose steps are single file
operations or single operations under a lock. Where a property turns out false of the code, the
code is kept and the exact condition is proved: `BitRanges.CountsBetween`,
`BitRanges.SelectsIsBetween`, `FieldOverflow.UnsignedSet`, `FieldOverflow.SignedSet`,
`AofManifest.PersistMustTellTheTruth`, `AofManifest.FlushMustBeComplete`,
`AofLog.AppendAfterTruncation`, `AclText.SplitsBackExactly`, `AclRules.StepSplitsBackExactly` and
`AclReplay.StepRebuiltExactly`. Inputs on which the property fails are worked out in
`FieldOverflow.SaturatesUpwards`, `AofManifest.LeftoverIsDoubled`, `AofManifest.UnsyncedLosesAll`,
`AofLog.SwallowedCommand`, `AclReplay.LostFirstArgument` and `BioSignals.LostWakeUp`.

What the code cannot control is a parameter: the addresses buffers happen to have, whether the
processor has a population count instruction (taken to count the bits of the eight bytes it
reads), the 16-bit checksum of keys, the cluster's tables, which commands the loader knows, what
the commands of served clients do, when system calls fail, which waiter a signal wakes, and the order
in which threads run.

Where a comment and the code disagree the code is followed. The comment in
`checkSignedBitfieldOverflow` says its differences are used only when they cannot overflow; for
SET of values close to the lowest 64-bit number one is used although it does
(`FieldOverflow.SignedSet`). The comment in `bitcountCommand` says the end of the range is never
negative once normalised; for an empty string it is -1.

## Model

| member | source | states |
|---|---|---|
| `CrcSpec.CrcConcat` | backend/redis-stable/src/crccombine.c:214-250 | The checksum of a concatenation is the first checksum advanced over as many zero bytes as the second part has, plus the checksum of the second part from zero |
| `CrcSpec.ZeroBitsXor` | backend/redis-stable/src/crccombine.c:47-112 | Advancing a register over any number of zero bits is linear in the register |
| `CrcCheck.CheckValue` | backend/redis-stable/src/crc64.c:265-270 | The checksum of the digits 1 to 9 from zero is the check value given for it, e9c6d914c4b8d9ca |
| `CrcBitwise.ReflectReversesBits` | backend/redis-stable/src/crc64.c:72-100 | Bit i of the reflection is bit 63 - i of the argument, for the 64-bit width the code uses |
| `CrcBitwise.ReflectFeedBit` | backend/redis-stable/src/crc64.c:116-126 | One turn of the bit loop on the unreflected register is one zero-bit step on the reflected one |
| `CrcBitwise.FeedByte` | backend/redis-stable/src/crc64.c:114-129 | The eight turns for one data byte, seen in the reflection, absorb that byte |
| `CrcBitwise.BitwiseCrc` | backend/redis-stable/src/crc64.c:110-133 | The bit-by-bit checksum is the reflected polynomial remainder of the data, for every seed and buffer |
| `CrcCombine.MatrixTimes` | backend/redis-stable/src/crccombine.c:47-112 | The switch over nibbles computes the product of a GF(2) matrix and a vector |
| `CrcCombine.TimesNibble` | backend/redis-stable/src/crccombine.c:47-112 | One switch over four bits adds exactly the rows those bits select |
| `CrcCombine.TimesAdvances` | backend/redis-stable/src/crccombine.c:47-112 | A matrix whose rows advance the basis words advances every register by the same distance |
| `CrcCombine.SquareAdvances` | backend/redis-stable/src/crccombine.c:172-177 | Squaring a matrix that advances over n bits gives one that advances over 2n |
| `CrcCombine.CombineCache.Square` | backend/redis-stable/src/crccombine.c:172-177 | In place: the target matrix advances twice as far as the source, all other matrices are unchanged |
| `CrcCombine.CombineCache.FillOneBit` | backend/redis-stable/src/crccombine.c:192-201 | The first matrix built advances over one zero bit |
| `CrcCombine.CombineCache.Init` | backend/redis-stable/src/crccombine.c:192-212 | After initialisation matrix k advances any register over 2^k zero bytes, for all k below 64 |
| `CrcCombine.CombineCache.Combine` | backend/redis-stable/src/crccombine.c:225-250 | For every pair of checksums and every 64-bit length, the loop over the bits of the length advances the first checksum by that many bytes and adds the second |
| `CrcCombine.CombinedIsConcatenation` | backend/redis-stable/src/crccombine.c:225-250 | Combining crc(A) with crc(0, B) over the length of B is the checksum of A followed by B |
| `CrcSpeed.Crc64.constructor` | backend/redis-stable/src/crc64.c:137-140 | The tables built at start-up satisfy the table invariant, whatever the cutoffs |
| `CrcSpeed.Crc64.FillFirstSlice` | backend/redis-stable/src/crcspeed.c:47-55 | Slice 0 holds the bit-by-bit checksum of every single byte |
| `CrcSpeed.Crc64.FillOtherSlices` | backend/redis-stable/src/crcspeed.c:56-63 | Entry n of slice k is byte n advanced over k + 1 bytes, for all eight slices |
| `CrcSpeed.AbsorbByTable` | backend/redis-stable/src/crcspeed.c:187-191 | Absorbing a byte is one table entry plus the register without its low byte |
| `CrcSpeed.Crc64.AdvanceWord` | backend/redis-stable/src/crcspeed.c:134-142 | Eight lookups, one per byte, advance a register over 64 zero bits |
| `CrcSpeed.Crc64.AbsorbWord` | backend/redis-stable/src/crcspeed.c:130-142 | One eight-byte step equals eight one-byte steps |
| `CrcSpeed.LaneLength` | backend/redis-stable/src/crcspeed.c:144-147 | The split into lanes gives whole words that fit the buffer |
| `CrcSpeed.MergeLane` | backend/redis-stable/src/crcspeed.c:149-150 | Stapling two adjacent lanes gives the checksum of both |
| `CrcSpeed.Crc64.ThreeLanes` | backend/redis-stable/src/crcspeed.c:193-215 | The three-lane branch leaves the checksum of all the bytes it passed, and the right remainder |
| `CrcSpeed.Crc64.TwoLanes` | backend/redis-stable/src/crcspeed.c:216-235 | The same for the two-lane branch |
| `CrcSpeed.Crc64.Checksum` | backend/redis-stable/src/crcspeed.c:179-253 | For every seed, buffer, start address and pair of cutoffs the fast checksum equals the one-byte-at-a-time remainder |
| `CrcSpeed.Crc64.CompareBoth` | backend/redis-stable/src/crc64.c:265-285 | For seed 0 and every buffer and address the bit-by-bit checksum and the fast one are equal |
| `AofManifest.EveryRunLoads` | backend/redis-stable/src/aof.c:2534-2851 | In every run of feeding, writing, rewriting, failing, renaming, persisting and deleting, with a crash and restart allowed after any single file operation, loading BASE and then the INCR files in order gives exactly the commands written: none lost, none twice, no listed file missing, and what was written before is still a prefix; required only of the step that puts a new BASE in place, and shown exact below: its persist tells the truth, and the flush before that rewrite left nothing behind |
| `AofManifest.EveryCommandArrives` | backend/redis-stable/src/aof.c:1405-1444 | In every such run without a crash, what a load would give followed by the buffer is what was there at the start followed by every command fed, in order, whether or not a rewrite is under way |
| `AofManifest.NothingFedIsLost` | backend/redis-stable/src/aof.c:1405-1444 | In every run, clean or not and with any crashes: what is written followed by the buffer is what was, followed by all that is fed, less exactly what each crash found in the buffer |
| `AofManifest.WriteReaches` | backend/redis-stable/src/aof.c:1143-1330 | A write moves that many commands from the front of the buffer to the end of what a load gives |
| `AofManifest.StepKeeps` | backend/redis-stable/src/aof.c:2534-2602 | Every single file operation and every in-memory step keeps the invariant that ties manifest, files, buffer, snapshot and history together |
| `AofManifest.StartHolds` | backend/redis-stable/src/aof.c:800-864 | The invariant holds of any disk that loads and whose history numbers do not exceed the counters |
| `AofManifest.OpenIncrKeeps` | backend/redis-stable/src/aof.c:800-864 | Opening the new INCR file before the manifest names it does not change what is loaded |
| `AofManifest.RenameKeeps` | backend/redis-stable/src/aof.c:2713-2734 | Renaming the temporary file to the new BASE name does not change what is loaded |
| `AofManifest.PersistIncrKeeps` | backend/redis-stable/src/aof.c:800-864 | Whatever comes of the persist for a new INCR file, a manifest replaced although failure is reported included, the same commands are loaded: at most an empty file is listed that the process does not know of |
| `AofManifest.PersistBaseKeeps` | backend/redis-stable/src/aof.c:2769-2800 | Replacing the manifest by the one with the new BASE, or failing to, leaves the same commands to load, if the flush before the rewrite left nothing |
| `AofManifest.CollectKeeps` | backend/redis-stable/src/aof.c:678-702 | Deleting history files removes no file that is still listed |
| `AofManifest.RestartKeeps` | backend/redis-stable/src/aof.c:1734-1830 | A restart after a crash at any point finds a manifest and files that load, and continues from them |
| `AofManifest.PersistMustTellTheTruth` | backend/redis-stable/src/aof.c:535-618 | Of the three places that persist a manifest, those for a new INCR file and for the history load right whatever the outcome; at the third, in every reachable state, loading is right if and only if a reported failure has not replaced the manifest and a success does not follow an incomplete flush |
| `AofManifest.FlushMustBeComplete` | backend/redis-stable/src/aof.c:2549-2553 | For every run from the opening of the new INCR file to the persist of the new BASE: loading is right if and only if the buffer was empty at the start; commands left in it are in the snapshot and again in a log |
| `AofManifest.FlushedRunsAreClean` | backend/redis-stable/src/aof.c:2549-2553 | Starting every rewrite with an empty buffer is enough for the condition on runs |
| `AofManifest.RewriteTakesEffect` | backend/redis-stable/src/aof.c:2713-2800 | A rewrite that succeeds leaves a new BASE with the snapshot and the open INCR file alone listed, on the disk and in memory; every file known before is now history or in use, so none is forgotten |
| `AofManifest.FailedRewriteIsUndone` | backend/redis-stable/src/aof.c:2713-2843 | A rewrite that fails in the child, at the rename or at the persist removes its file and leaves manifest, logs and buffer as they were, ready for another |
| `AofManifest.HistoryIsDeleted` | backend/redis-stable/src/aof.c:678-702 | Deleting can always go on to its end: then exactly the history files are gone and none is listed |
| `AofManifest.LeftoverIsDoubled` | backend/redis-stable/src/aof.c:2549-2553 | A run from an empty log in which one command is left in the buffer: it was written once and is loaded twice |
| `AofManifest.UnsyncedLosesAll` | backend/redis-stable/src/aof.c:578-600 | A run from an empty log in which the new manifest is renamed into place and its directory cannot be synced: the BASE it lists is removed again and nothing loads |
| `AofManifest.LiveManifest.GetNewBaseFileName` | backend/redis-stable/src/aof.c:436-455 | On a manifest in order the new name is not one of the files listed, the manifest stays in order, and the BASE replaced becomes a history file that is never read or named again |
| `AofManifest.LiveManifest.GetNewIncrAofName` | backend/redis-stable/src/aof.c:464-474 | On a manifest in order the new name is not one of the files listed, and the manifest stays in order with its history never read or named again |
| `AofManifest.LiveManifest.MarkRewrittenIncrAofAsHistory` | backend/redis-stable/src/aof.c:502-532 | All INCR files but the open one move to the history, in the order the loop from the tail gives them |
| `AofManifest.LiveManifest.DelHistoryFiles` | backend/redis-stable/src/aof.c:678-702 | Exactly the files in the history are removed and the others are unchanged |
| `AofLog.CatCommand` | backend/redis-stable/src/aof.c:1353-1376 | The loop over the arguments appends the RESP array of the command |
| `AofLog.CatBulk` | backend/redis-stable/src/aof.c:1364-1374 | One argument is appended as a bulk string |
| `AofLog.DecimalReadBack` | backend/redis-stable/src/aof.c:1576-1602 | The number printed in a header is the number that atoi and strtol read from it, whatever follows the digits |
| `AofLog.OddNumbers` | backend/redis-stable/src/aof.c:1576-1602 | Numbers in headers that the encoder never writes are read as strtol does: blanks and signs, and the nearest long for values out of range |
| `AofLog.CountIsLowPart` | backend/redis-stable/src/aof.c:1576-1578 | The count of arguments is the number modulo 2^32, as atoi gives it |
| `AofLog.NegativeLengthIsShort` | backend/redis-stable/src/aof.c:1602-1611 | A negative length is taken for a huge one and is a short read |
| `AofLog.ReadCommandWhole` | backend/redis-stable/src/aof.c:1570-1620 | A command written by the encoder is read back as written, with the read position right behind it, whatever follows |
| `AofLog.ReadCommandCut` | backend/redis-stable/src/aof.c:1570-1620 | A command cut at any byte inside is a short read, never a different command; a cut argument count is still a count |
| `AofLog.ReadArgsLoop` | backend/redis-stable/src/aof.c:1591-1620 | The inner loop of the loader reads the arguments one after the other |
| `AofLog.LoadOfCutLog` | backend/redis-stable/src/aof.c:1554-1716 | For every log and every cut the commands run are exactly the complete ones before the cut, transactions only with a complete EXEC; status and new file size are given for every case, with truncation allowed and not |
| `AofLog.CompleteIsLongest` | backend/redis-stable/src/aof.c:1554-1661 | The commands counted as complete are the longest prefix whose encoding fits before the cut |
| `AofLog.LoadOfWholeLog` | backend/redis-stable/src/aof.c:1554-1677 | Loading an uncut log runs what executing its commands runs |
| `AofLog.AnnotatedLogLoads` | backend/redis-stable/src/aof.c:1574-1661 | Annotation lines anywhere between the commands are invisible to a load |
| `AofLog.ForeignTextFails` | backend/redis-stable/src/aof.c:1574-1634 | A log followed by text that cannot begin a command, or by a command that is not known, fails to load, has run exactly what came before, and leaves the file as it is |
| `AofLog.TransactionText` | backend/redis-stable/src/aof.c:1353-1376 | The text of MULTI, SET, EXEC as it stands in a file |
| `AofLog.TransactionRuns` | backend/redis-stable/src/aof.c:1636-1650 | A transaction runs with its EXEC, in any mixture of cases, and not without |
| `AofLog.AppendAfterTruncation` | backend/redis-stable/src/aof.c:1662-1711 | For every log, every cut and every list of new commands: the load after truncating and writing on runs what the first load ran followed by the new commands if and only if no transaction is open in what is left of the file, or the new commands are none or a transaction that does not end |
| `AofLog.SwallowedCommand` | backend/redis-stable/src/aof.c:1680-1711 | The log MULTI, SET cut inside the SET is truncated behind the MULTI, and the command written next never runs |
| `AofLog.Load` | backend/redis-stable/src/aof.c:1480-1731 | The loop with its offsets and its client refines the specification of the loader on any text, header numbers with blanks, signs, saturation and truncation to an int included |
| `AofFeed.FedIsInPlace` | backend/redis-stable/src/aof.c:1418-1428 | With a SELECT written only on a change of database, and the selection forgotten at the start of a file, every command is read back in the database it was fed for, whatever database the reader starts in |
| `AofFeed.SelectOnce` | backend/redis-stable/src/aof.c:1418-1428 | Commands for one database get one SELECT, before the first of them |
| `AofFeed.FileIsInPlace` | backend/redis-stable/src/aof.c:1405-1444 | The same through the encoded file and the loader, for every log whose transactions are complete: each command but MULTI and EXEC runs once, in order, in its own database |
| `AofFeed.BracketedRuns` | backend/redis-stable/src/aof.c:1627-1650 | A log whose transactions are complete runs everything but MULTI and EXEC, in order |
| `AofFeed.SelectText` | backend/redis-stable/src/aof.c:1420-1427 | The text printed for a SELECT is the encoding of that command |
| `AofFeed.Feeder.FeedAppendOnlyFile` | backend/redis-stable/src/aof.c:1405-1444 | In place: the buffer grows by the encoding of the command, with its SELECT if one is due, and the selection follows |
| `AclText.FindSpace` | backend/redis-stable/src/acl.c:584-600 | The scan stops at the first space or at the end |
| `AclText.ChopJoins` | backend/redis-stable/src/acl.c:580-612 | Cutting any text into pieces loses nothing: joined again they are the text |
| `AclText.RemoveCommandRule` | backend/redis-stable/src/acl.c:572-616 | On any text: deleting in place equals cutting the text into pieces, a sign and what follows up to a space, dropping the pieces whose body is the new rule or extends it after a bar, and joining the rest; the walk terminates |
| `AclText.EditedRendered` | backend/redis-stable/src/acl.c:572-616 | On the text of rules without spaces that leaves exactly the text of the rules not superseded |
| `AclText.SplitsBackExactly` | backend/redis-stable/src/acl.c:669-702 | The rule string splits back into its rules if and only if no rule body holds a space, tab, line end or quote |
| `ArgQuotes.QuotedSplitsBack` | backend/redis-stable/src/sds.c:970-1085 | Any list of byte strings, quoted and joined with spaces, splits back into that list, as the comment on the function promises |
| `ArgQuotes.CatRepr` | backend/redis-stable/src/sds.c:895-919 | The loop appends the quoted form of the bytes |
| `AclRules.ResolveAgain` | backend/redis-stable/src/acl.c:1124-1201 | The text retained for a rule, given again, resolves to the same text and has the same effect |
| `AclRules.SupersededIsCovered` | backend/redis-stable/src/acl.c:572-616 | A rule that the new rule removes from the text only writes bits and grants that the new rule writes again |
| `AclRules.ReplayAfterUpdate` | backend/redis-stable/src/acl.c:618-626 | Replaying the edited rules equals applying the new rule to the replay of the old ones |
| `AclRules.FutureBitIsTheBase` | backend/redis-stable/src/acl.c:549-556 | The bit for commands not yet known tells whether replay starts from +@all or from -@all |
| `AclRules.ChangeKeepsReplay` | backend/redis-stable/src/acl.c:1124-1201 | One accepted rule keeps the retained rules replaying to the permissions |
| `AclRules.StepReplays` | backend/redis-stable/src/acl.c:1049-1062 | Every rule given, accepted or refused, keeps that |
| `AclRules.EveryHistoryReplays` | backend/redis-stable/src/acl.c:755-808 | After every history of rules on a fresh selector the stored text splits back and replays to the same bitmap and the same first-argument grants |
| `AclMeaning.CommandRule` | backend/redis-stable/src/acl.c:1124-1133 | After +command or -command in any mixture of cases the bits of the command and of all its subcommands are set or cleared, no other bit changes, its own first-argument grants are gone, and the rule is the last retained, no other having its text or extending it |
| `AclMeaning.SubcommandRule` | backend/redis-stable/src/acl.c:1163-1191 | Likewise for +command|subcommand and -command|subcommand, with the bit of the subcommand alone |
| `AclMeaning.ArgumentRule` | backend/redis-stable/src/acl.c:1173-1186 | +command|argument for a command without subcommands adds that one grant and changes no bit |
| `AclMeaning.CategoryRule` | backend/redis-stable/src/acl.c:1196-1201 | +@category and -@category write the bits of exactly the commands in it with their subcommands and of the subcommands in it, and drop the grants of those in it |
| `AclMeaning.AllRule` | backend/redis-stable/src/acl.c:1047-1062 | +@all and -@all, or allcommands and nocommands, set or clear every bit and leave no grant and no rule |
| `AclMeaning.UnknownName` | backend/redis-stable/src/acl.c:1124-1201 | An unknown command, subcommand or category, and a first argument to be taken away, are refused with ENOENT and change nothing |
| `AclMeaning.BadWord` | backend/redis-stable/src/acl.c:1148-1170 | A missing word after the bar is refused with EINVAL, one that is no subcommand of a command that has some with ENOENT, and nothing changes |
| `AclMeaning.WordOfSubcommand` | backend/redis-stable/src/acl.c:1150-1155 | A word after a subcommand is refused with ECHILD |
| `AclMeaning.UnknownBeforeBar` | backend/redis-stable/src/acl.c:1141-1148 | A word after an unknown command is refused with ENOENT |
| `AclRules.StepSplitsBackExactly` | backend/redis-stable/src/acl.c:1124-1201 | After one more rule the stored text splits back if and only if the rule was plain text or was refused |
| `AclReplay.StepRebuiltExactly` | backend/redis-stable/src/acl.c:669-702 | From any state reached by plain rules, after any further rule: splitting the stored text and giving the parts to a selector at the base rebuilds exactly the bitmap and the grants if and only if the rule was plain or was not accepted |
| `AclReplay.OddIsLost` | backend/redis-stable/src/acl.c:1181-1197 | A first argument with a blank or a quote is granted, and no part of the stored text grants it again |
| `AclReplay.LostFirstArgument` | backend/redis-stable/src/acl.c:1181-1197 | The rule +select|a b is accepted and grants the argument "a b"; rebuilt from its text the selector grants "a" |
| `AclSelector.Selector.SetCommandBit` | backend/redis-stable/src/acl.c:558-567 | One bit changes, and none for an identifier outside the bitmap |
| `AclSelector.Selector.ResetFirstArgs` | backend/redis-stable/src/acl.c:913-920 | The first-argument table of one command is dropped, the others stay |
| `AclSelector.Selector.ChangeCommand` | backend/redis-stable/src/acl.c:630-643 | A command and all its subcommands change together, and the command loses its first-argument grants |
| `AclSelector.Selector.SetBitsForCategory` | backend/redis-stable/src/acl.c:651-664 | The loop over the command table changes exactly the members of the category, at both levels |
| `AclSelector.Selector.AddAllowedFirstArg` | backend/redis-stable/src/acl.c:940-966 | One grant is added, compared without regard to case, and no grant is lost |
| `AclSelector.Selector.UpdateCommandRules` | backend/redis-stable/src/acl.c:618-626 | On any text the edited text and the new rule are joined by a single space; the text of plain rules becomes the text of the rules retained with the new one at the end |
| `AclSelector.Selector.SetSelector` | backend/redis-stable/src/acl.c:1032-1207 | Bitmap, grants and text together take the step of the specification, with its error codes |
| `AclSelector.Selector.ReplayDiffers` | backend/redis-stable/src/acl.c:768-805 | Rebuilding a second selector from the text never gives a different bitmap |
| `AclSelector.Selector.Describe` | backend/redis-stable/src/acl.c:755-808 | The description is the base followed by the text, and the panic for a mismatch is unreachable |
| `AclSelector.Selector.Recompute` | backend/redis-stable/src/acl.c:669-702 | Recomputing from the text changes neither bitmap nor grants nor text |
| `AclSelector.CommandIds.GetCommandID` | backend/redis-stable/src/acl.c:1529-1554 | A name gets one identifier for good, different names get different ones, and the future bit is never given out |
| `Bitmaps.CountIsSum` | backend/redis-stable/src/bitops.c:21-105 | The set bits of a string are the sum of the set bits of its bytes |
| `Popcount.OnesCount` | backend/redis-stable/src/bitops.c:77-90 | The three parallel steps on one byte give its number of set bits |
| `Popcount.OnesJoin` | backend/redis-stable/src/bitops.c:77-90 | On a 32-bit word the steps leave in each byte the count of that byte: nothing carries across bytes |
| `Popcount.TimesAddsBytes` | backend/redis-stable/src/bitops.c:91-97 | With at most 56 in each byte the multiplication and shift give the sum of the four bytes |
| `Popcount.GatherAll` | backend/redis-stable/src/bitops.c:91-97 | Seven words contribute exactly their set bits, at most 224 |
| `Popcount.CountBlock` | backend/redis-stable/src/bitops.c:65-98 | One 28-byte block adds the number of its set bits |
| `Popcount.Count` | backend/redis-stable/src/bitops.c:21-105 | For every string, start address and processor the count is the number of set bits, through either path |
| `BitRanges.BitCount` | backend/redis-stable/src/bitops.c:822-910 | The reply is the size of the set of one-bits at the positions the range means, counted in bits for BIT and in bytes for BYTE, from either end; a range that ends before the string means its first position, unless both ends are negative and crossed, which gives 0; a missing key gives 0 |
| `BitRanges.CountBytes` | backend/redis-stable/src/bitops.c:898-908 | Whole bytes less what lies under the two edge masks |
| `BitRanges.CountInside` | backend/redis-stable/src/bitops.c:865-872 | The two masks take off exactly the bits outside a bit range |
| `BitRanges.CountsBetween` | backend/redis-stable/src/bitops.c:854-864 | Which ranges count exactly the positions between their two ends: all but those whose end lies before the string and whose start does not lie after position 0 |
| `BitRanges.SelectsIsBetween` | backend/redis-stable/src/bitops.c:964-970 | The same condition for BITPOS, which lacks the early exit |
| `BitSearch.WordBits` | backend/redis-stable/src/bitops.c:157-172 | Bit k of the loaded word, from the top, is bit k of the bytes loaded |
| `BitSearch.LoadWord` | backend/redis-stable/src/bitops.c:157-172 | The loading loop gives the next eight bytes, first byte on top, zero beyond the end |
| `BitSearch.ScanWord` | backend/redis-stable/src/bitops.c:181-198 | The shifting mask finds the first wanted bit and never runs out before it, so the panic after the loop is unreachable |
| `BitSearch.Find` | backend/redis-stable/src/bitops.c:114-199 | For every string, address and bit: the position of the first such bit; if there is none, -1 for a set bit and the length in bits for a clear one |
| `BitRanges.FindInByte` | backend/redis-stable/src/bitops.c:1010-1018 | A byte with masked bits answers for the unmasked positions only |
| `BitRanges.SearchRest` | backend/redis-stable/src/bitops.c:1024-1050 | Whole bytes and then a masked last byte give the first wanted bit of their range |
| `BitRanges.SearchBits` | backend/redis-stable/src/bitops.c:1007-1050 | A masked first byte and then the rest, including the case of a single byte with both masks |
| `BitRanges.BitPos` | backend/redis-stable/src/bitops.c:914-1058 | The reply is the smallest position that the range means and that has the bit; if there is none, -1, or just past the string for a clear bit sought without an end in a range that is not empty; for a missing key 0 or -1 |
| `Bitfields.SetUnsigned` | backend/redis-stable/src/bitops.c:222-235 | In place: the field reads back as the value modulo 2^bits and no bit outside it changes |
| `Bitfields.SetSigned` | backend/redis-stable/src/bitops.c:237-240 | The same for negative values, through the unsigned cast |
| `Bitfields.GetUnsigned` | backend/redis-stable/src/bitops.c:242-254 | The loop reads the number the bits stand for, without leaving 64 bits |
| `Bitfields.GetSigned` | backend/redis-stable/src/bitops.c:256-276 | Sign extension gives the two's complement reading, for every width up to 64 |
| `Bitfields.HoldsReadsBack` | backend/redis-stable/src/bitops.c:222-254 | Bits written from a number read back as that number modulo 2^bits |
| `Bitfields.SignedReading` | backend/redis-stable/src/bitops.c:256-276 | The signed reading is in the signed range and congruent to the field |
| `Bitfields.SignedRoundTrip` | backend/redis-stable/src/bitops.c:237-276 | A signed value that fits comes back itself |
| `FieldOverflow.WrappedIsUnique` | backend/redis-stable/src/bitops.c:327-335 | There is exactly one number in range congruent to a sum |
| `FieldOverflow.UnsignedRight` | backend/redis-stable/src/bitops.c:301-336 | INCRBY, unsigned, widths 1 to 63: the check is non-zero exactly if the exact sum does not fit, and the limit is the wrapped or the clamped sum |
| `FieldOverflow.SignedRight` | backend/redis-stable/src/bitops.c:338-391 | INCRBY, signed, widths 1 to 64: the same, with room and sum computed in 64 bits only |
| `FieldOverflow.UnsignedSet` | backend/redis-stable/src/bitops.c:301-336 | SET, unsigned: right if and only if not saturating a negative value, which goes to the maximum |
| `FieldOverflow.SignedSet` | backend/redis-stable/src/bitops.c:338-391 | SET, signed: right if and only if not saturating, below 64 bits, a value whose distance to the maximum exceeds a signed 64-bit number; then it goes to the maximum |
| `FieldOverflow.SaturatesUpwards` | backend/redis-stable/src/bitops.c:338-369 | The lowest 64-bit number saturated into eight bits gives 127 |
| `BitfieldCommand.GetField` | backend/redis-stable/src/bitops.c:1268-1299 | GET through the nine-byte buffer reads the bitmap continued with zeros, at any offset and width |
| `BitfieldCommand.DecideIsStored` | backend/redis-stable/src/bitops.c:1200-1265 | For INCRBY and SET the branches decide the exact sum, the wrapped or clamped value, or no write |
| `BitfieldCommand.Step` | backend/redis-stable/src/bitops.c:1186-1301 | One operation in place: the value read, the value stored, the reply, and nothing else changed |
| `BitfieldCommand.EffectMeans` | backend/redis-stable/src/bitops.c:1190-1266 | In numbers: a value that fits is stored, otherwise wrapping stores the congruent number that fits, saturation the bound (the upper one also for the low values SET mistakes), failing nothing; SET replies what was there and INCRBY what is there now; no bit outside the field changes |
| `BitfieldCommand.GetMeans` | backend/redis-stable/src/bitops.c:1267-1300 | GET replies the number whose digits are the bits of the zero-continued string, the first being the sign of a signed one |
| `BitfieldCommand.EffectDetermines` | backend/redis-stable/src/bitops.c:1186-1301 | That effect determines the new bitmap and the reply |
| `BitfieldCommand.PreparedIsPadding` | backend/redis-stable/src/bitops.c:497-516 | Growing the string for the writes changes no bit a reader can see |
| `BitfieldCommand.PreparedLength` | backend/redis-stable/src/bitops.c:1174-1181 | The string is a prefix of what it grows to, which has room for every write and ends with the last byte a write touches |
| `BitfieldCommand.Execute` | backend/redis-stable/src/bitops.c:1159-1301 | A list of operations has the effect of one after the other, on the grown string; read-only lists leave the key alone |
| `BitOps.Lengths` | backend/redis-stable/src/bitops.c:664-696 | Maximum and minimum length over all sources, missing keys counting as empty, and the error for another type |
| `BitOps.FoldedBits` | backend/redis-stable/src/bitops.c:774-795 | A bit of the result is the conjunction, disjunction, parity or complement of that bit of the padded sources |
| `BitOps.FoldedStays` | backend/redis-stable/src/bitops.c:779-793 | Once a byte is 0 under AND or 255 under OR no further source changes it |
| `BitOps.CombineBytes` | backend/redis-stable/src/bitops.c:719-767 | An operation on 64-bit words is the operation on each of their bytes |
| `BitOps.LoadedByte` | backend/redis-stable/src/bitops.c:709-718 | The bytes of a loaded word are the bytes in memory, in order |
| `BitOps.FoldBlock` | backend/redis-stable/src/bitops.c:719-767 | Four loaded, combined and stored words per source give the same bytes as the fold |
| `BitOps.FastPath` | backend/redis-stable/src/bitops.c:709-769 | The fast path leaves every byte it passed folded over all sources |
| `BitOps.FoldByte` | backend/redis-stable/src/bitops.c:774-795 | One byte of the slow path, early exit included, is the fold |
| `BitOps.BitOp` | backend/redis-stable/src/bitops.c:658-797 | For every number and length of sources the result is as long as the longest and each byte is the fold over the padded sources; errors and deletion exactly when stated |
| `Blocked.EveryRunAgrees` | backend/redis-stable/src/blocked.c:308-352 | In every state that connecting, blocking, unblocking, signalling, serving and disconnecting can reach, all records agree |
| `Blocked.StartAgrees` | backend/redis-stable/src/blocked.c:55-63 | They agree in the initial state |
| `Blocked.WaitsExactlyOnce` | backend/redis-stable/src/blocked.c:361-413 | A client is in the waiter list of a key exactly once if the key is in its own map, and otherwise not at all |
| `Blocked.WatchedKeysAreBlocking` | backend/redis-stable/src/blocked.c:395-405 | The count for a key is the number of its waiters that asked to hear of its deletion, absent when zero, and only for keys with waiters |
| `Blocked.BlockKeeps` | backend/redis-stable/src/blocked.c:68-80 | Blocking a client keeps agreement, counters included; the client is blocked as that kind and nothing else changes |
| `Blocked.BlockForKeysKeeps` | backend/redis-stable/src/blocked.c:361-413 | Blocking on any list of keys, with repetitions, keeps agreement, and the client waits for exactly those keys, last in the list of each |
| `Blocked.BlockForKeysWaits` | backend/redis-stable/src/blocked.c:361-413 | A client that waited for nothing then waits for exactly the keys given: each of their lists is the old one with one new node of the client at the end, every other list and every other client is unchanged |
| `Blocked.UnblockKeeps` | backend/redis-stable/src/blocked.c:165-207 | Unblocking keeps agreement: no list, count, counter or flag remembers the client, all others wait as before, and if asked for it is queued behind those already queued |
| `Blocked.SignalKeeps` | backend/redis-stable/src/blocked.c:449-499 | Signalling keeps a key marked ready exactly if it is queued, and then once; it queues it at the end, and only if some client waits for it, or asked to hear of its deletion |
| `Blocked.SignalReaches` | backend/redis-stable/src/blocked.c:449-499 | The shortcuts by kind lose no wake-up: what a client waits for is queued when it is signalled |
| `Blocked.TakeKeyKeeps` | backend/redis-stable/src/blocked.c:336-350 | A key taken for serving is no longer queued, so it may be signalled again |
| `Blocked.TakeBatchKeeps` | backend/redis-stable/src/blocked.c:325-335 | Swapping in a fresh queue keeps agreement |
| `Blocked.RequeueKeeps` | backend/redis-stable/src/blocked.c:154-162 | A client is in the queue of unblocked clients once, exactly if its flag says so; it goes to the end, and nothing else changes |
| `Blocked.TakeUnblockedKeeps` | backend/redis-stable/src/blocked.c:106-135 | Taking a client from that queue keeps agreement |
| `Blocked.DisconnectKeeps` | backend/redis-stable/src/networking.c:1585-1756 | A client that goes, blocked or not, leaves no trace in any list, count or queue; a client marked as queued is in the queue, as the source asserts |
| `BlockedServer.Server.BlockClient` | backend/redis-stable/src/blocked.c:68-80 | In place: blocking a client that was not blocked keeps every record in agreement |
| `BlockedServer.Server.WaitForKey` | backend/redis-stable/src/blocked.c:372-405 | One key of the loop, repeated or not: own map, waiter list and deletion count agree afterwards as they did before, and no other client changes |
| `BlockedServer.Server.BlockForKeysOf` | backend/redis-stable/src/blocked.c:361-413 | The loop over the keys ends in an agreeing state in which the client waits for exactly those keys, with one new node of its own at the end of each list, and all other lists are unchanged |
| `BlockedServer.ReleasePossible` | backend/redis-stable/src/blocked.c:509-542 | The two assertions in the release of an entry cannot fail |
| `BlockedServer.Server.ReleaseEntry` | backend/redis-stable/src/blocked.c:509-542 | For a client partly released: afterwards it is out of this list too, every count is right, and the two assertions of the source hold on the way |
| `BlockedServer.Server.ReleaseAll` | backend/redis-stable/src/blocked.c:416-430 | The loop over the client's map takes it out of every list, in whatever order the map is walked |
| `BlockedServer.Server.UnblockClient` | backend/redis-stable/src/blocked.c:165-207 | The whole of unblocking, node by node, ends in the specified state |
| `BlockedServer.Server.UnblockClientOnKey` | backend/redis-stable/src/blocked.c:633-650 | Releasing the served key first and then the others ends in the same state |
| `BlockedServer.Server.SignalKey` | backend/redis-stable/src/blocked.c:449-499 | The cascade of early returns, ending in the specified state |
| `BlockedService.HandleClientsBlockedOnKey` | backend/redis-stable/src/blocked.c:555-592 | Exactly the waiters present at the start are looked at, each once, in the order they came, even if commands served block again; served are those whose kind the value suits or who must know of any change; the others keep their places, ahead of those that joined meanwhile |
| `BlockedService.ServeClient` | backend/redis-stable/src/blocked.c:633-678 | Serving a client takes it out of the list, and whatever its command signals or blocks on adds at most one node, at the end; afterwards it waits for exactly what its command blocked on, or is queued to go on |
| `BlockedService.HandleClientsBlockedOnKeys` | backend/redis-stable/src/blocked.c:308-352 | When it returns no key is queued, taken up or marked ready, whatever the commands served signalled, unless their script ran out |
| `Bio.StepKeeps` | backend/redis-stable/src/bio.c:181-390 | Every lock, unlock, queue and counter operation of any thread keeps the invariant |
| `Bio.StartHolds` | backend/redis-stable/src/bio.c:127-179 | The invariant holds when the workers start |
| `Bio.EveryRun` | backend/redis-stable/src/bio.c:181-444 | The invariant holds after every interleaving of submitting, counting, draining and working |
| `Bio.FinishesInOrder` | backend/redis-stable/src/bio.c:280-367 | What a worker has finished is a prefix of what was submitted to it |
| `Bio.GroupsInOrder` | backend/redis-stable/src/bio.c:59-68 | A file is closed only after the syncs asked for before, and a request is answered only after the jobs of its group: jobs of one group finish in the order they were submitted, and exactly those share a worker |
| `Bio.CounterUnderLock` | backend/redis-stable/src/bio.c:181-189 | Whoever takes the lock finds the counter equal to the jobs of that kind queued or running |
| `Bio.CountIsExact` | backend/redis-stable/src/bio.c:371-379 | The number of pending jobs returned is right while the lock is held |
| `Bio.DrainedIsDone` | backend/redis-stable/src/bio.c:382-390 | Draining returns only when everything ever submitted to the worker is finished |
| `Bio.CallbackInTurn` | backend/redis-stable/src/bio.c:415-444 | A completion callback runs at most once, and only after all jobs submitted earlier to its worker are finished |
| `Bio.RequestKinds` | backend/redis-stable/src/bio.c:338-355 | Exactly the three kinds of requests are called back |
| `Bio.CallbacksInOrder` | backend/redis-stable/src/bio.c:415-444 | Over every run callbacks run in the order in which the workers answered the requests |
| `Bio.RequestsKept` | backend/redis-stable/src/bio.c:338-355 | Every completion request a worker got to is on its way to its callback exactly once: none is lost or doubled in the hand-over |
| `BioSignals.NoLostWakeUp` | backend/redis-stable/src/bio.c:181-390 | With signals that wake any one waiter of the condition shared by worker and drainers: in every state of every run in which one thread at a time drains a worker, a worker whose queue is not empty and whose lock is free can go on, and so can a thread draining an empty queue |
| `BioSignals.AllAwakeKept` | backend/redis-stable/src/bio.c:181-390 | Every step, signal and spurious wake-up keeps: a worker waits only for an empty queue and then nobody waits with it, a drainer waits only for one with jobs |
| `BioSignals.LostWakeUp` | backend/redis-stable/src/bio.c:382-390 | With two threads draining the same worker there is a run that ends with a job queued, the lock free and the worker waiting for a signal already given to a drainer |
| `ClusterSlots.KeyHashSlot` | backend/redis-stable/src/cluster.h:43-62 | The two scans hash the first non-empty tag in braces, or the whole key |
| `ClusterSlots.SlotOfTag` | backend/redis-stable/src/cluster.h:43-62 | One of 16384 slots: of the text between the first opening brace and the first closing brace after it if that is not empty, and of the whole key otherwise |
| `ClusterSlots.PatternHashSlot` | backend/redis-stable/src/cluster.c:30-55 | The scan gives the slot of a tag closed before any special character, the slot of a literal pattern, or -1 |
| `ClusterSlots.PatternSlotExactly` | backend/redis-stable/src/cluster.c:30-54 | A pattern determines a slot exactly if it names a tag before any special character, or has no special character at all |
| `ClusterSlots.PatternSlotIsKeySlot` | backend/redis-stable/src/cluster.c:30-55 | If a pattern has a slot every key it can match is in that slot, whatever wildcards, classes and escapes do after the first special character |
| `ClusterSlots.LiteralPatternIsKey` | backend/redis-stable/src/cluster.c:30-55 | On patterns without special characters the two functions agree |
| `ClusterSlots.LiteralPrefix` | backend/redis-stable/src/util.c:65-200 | A matching string begins with the literal beginning of the pattern |
| `ClusterQuery.ScanKey` | backend/redis-stable/src/cluster.c:1145-1209 | One key: slot, owner, open-slot flags and presence counters reflect the keys seen so far, or the scan stops with the right error |
| `ClusterQuery.GetNodeByQuery` | backend/redis-stable/src/cluster.c:1081-1295 | For every cluster and request: local without keys to look at; DownUnbound if and only if the slot of the first key has no owner; CrossSlot if and only if it has one and two keys differ in slot; otherwise the rules below, which cover every case |
| `ClusterQuery.MigratingOwner` | backend/redis-stable/src/cluster.c:1217-1261 | For every request with one slot, whatever the state of the cluster: the owner of a migrating slot serves if and only if the state lets the request through and every key looked up is present or it is MIGRATE, answers ASK if and only if none is, UNSTABLE if and only if some are, and otherwise names the state |
| `ClusterQuery.ImportingNode` | backend/redis-stable/src/cluster.c:1217-1276 | Likewise an importing node serves an ASKING request if and only if it is let through and has one distinct key or all keys present, and answers UNSTABLE if and only if it is let through otherwise |
| `ClusterQuery.OwnerServes` | backend/redis-stable/src/cluster.c:1278-1294 | For a slot that is not open for the request: MOVED to the owner if and only if the state lets the request through, the owner is another node, this one is no replica of it that may answer the reader, and it is not MIGRATE on an importing slot; served locally in the other cases let through |
| `ClusterQuery.KeysMeant` | backend/redis-stable/src/cluster.c:1124-1150 | The keys of a request are those of all queued commands |
| `ClusterQuery.LookedUpMeant` | backend/redis-stable/src/cluster.c:1134-1140 | The keys looked up are those before the first sharded publish/subscribe command |
| `ClusterQuery.WholeRequest` | backend/redis-stable/src/cluster.c:1199-1211 | Without sharded publish/subscribe the keys looked up are all the keys of the request |
| `Adlist.List.LinkNodeHead` | backend/redis-stable/src/adlist.c:90-101 | The node becomes the first of the sequence, links and length consistent |
| `Adlist.List.LinkNodeTail` | backend/redis-stable/src/adlist.c:123-134 | The node becomes the last |
| `Adlist.List.AddNodeHead` | backend/redis-stable/src/adlist.c:76-85 | A fresh node with the value becomes the first |
| `Adlist.List.AddNodeTail` | backend/redis-stable/src/adlist.c:109-118 | A fresh node with the value becomes the last |
| `Adlist.List.InsertNode` | backend/redis-stable/src/adlist.c:136-163 | A new node comes right before or right after a given one |
| `Adlist.List.UnlinkNode` | backend/redis-stable/src/adlist.c:179-193 | Exactly that node leaves the sequence |
| `Adlist.List.RotateTailToHead` | backend/redis-stable/src/adlist.c:348-360 | The last node becomes the first |
| `Adlist.List.RotateHeadToTail` | backend/redis-stable/src/adlist.c:363-375 | The first node becomes the last |
| `Adlist.RotationsUndoEachOther` | backend/redis-stable/src/adlist.c:348-375 | The two rotations are inverse to each other |
| `Adlist.List.Join` | backend/redis-stable/src/adlist.c:379-395 | All nodes of the other list come to the end, and it is left empty and valid |
| `Adlist.List.Dup` | backend/redis-stable/src/adlist.c:263-297 | A fresh list with the copied values in order, or nothing exactly if some value cannot be copied |
| `Adlist.List.SearchKey` | backend/redis-stable/src/adlist.c:308-326 | The first matching node, or none if there is none |
| `Adlist.List.Index` | backend/redis-stable/src/adlist.c:333-345 | The node at a position counted from either end, none outside |
| `Adlist.Iter.Next` | backend/redis-stable/src/adlist.c:242-253 | The iterator moves on before it hands out its node |
| `Adlist.List.VisitFromHead` | backend/redis-stable/src/adlist.c:218-253 | An iteration that deletes any of the nodes just handed out, chosen by position and value, visits every original element once, in order, and leaves exactly the other nodes |
| `Adlist.List.VisitFromTail` | backend/redis-stable/src/adlist.c:218-253 | The same from the tail, in reverse order |

## Left out

- Flask routes, database models and the React front end: request and storage plumbing around the server.
- `crcspeed.c`: the big-endian and 16-bit variants, and the polynomials and widths other than the 64-bit one in use.
- `crccombine.c`: the vectorised multiplication, which is an alternative to the switch; the dimension is fixed at 64.
- `crc64.c`: reflection for widths other than 64 bits, which no caller uses.
- `aof.c`: RDB preambles, module callbacks, timestamp annotations, the state that waits for a first rewrite, old-format upgrades, fsync and power loss; files are a map from names to contents.
- `acl.c`: keys, channels, passwords, the ALLCOMMANDS flag, the log and reply formatting; the bitmap is a set of bits, without its packing into words.
- `bitops.c`: argument parsing, key lookup, notifications and statistics; the byte-count table is the function it tabulates; BITFIELD_RO's refusal of writes.
- `bitops.c`: SETBIT and GETBIT, which would only add easy members.
- `blocked.c`: timeouts, clients waiting for replicas or paused beyond their counters, and what modules do with their own blocked clients.
- `bio.c`: what jobs do, and fairness: that a thread that can go on eventually does. Both callers of the draining function are on the main thread, which is the case `BioSignals.NoLostWakeUp` covers.
- `cluster.c`: gossip, failover, slot assignment and the text of replies.
- `util.c`: glob matching behind the first special character, for which any behaviour is allowed.
- `adlist.c`: memory failure, and the callbacks for freeing values.
- AofLog.Load: a length that cannot be allocated is a short read here, while the process would end.
- BlockedService.HandleClientsBlockedOnKeys: what the served commands do is a finite script, and if it runs out the call is left where it is; the source could go on forever.
- AclReplay.StepRebuiltExactly: a part of the text that is no rule about commands leaves the selector as it is, while the source may refuse it and stop.
- ArgQuotes.QuotedSplitsBack: which bytes count as printable is that of the C locale; a line is any string, while the source stops at a zero byte, which quoting never leaves bare.
- CrcSpeed.Crc64.Checksum: takes buffers shorter than 2^64 bytes, which every length in the code is.
