# ebftpd: verified algorithms and protocols

A Dafny model of the self-contained algorithms and small concurrent protocols of the ebftpd
FTP server, with proofs about every input, every run or every reachable state. `dafny verify
dfyconfig.toml` checks all of it.

| file | what it models |
|---|---|
| `Crc32.dfy`, `CrcResidue.dfy` | the slice-by-8 CRC-32 loop, against the bit-at-a-time form of section 8 of RFC 1952; its residue, generator and table entries |
| `AsyncCrc32.dfy`, `AsyncBlocks.dfy` | the ring of buffers between the thread that submits blocks and the one that hashes them, and what its caller passed in |
| `Wildcard.dfy`, `IpMasks.dfy` | `fnmatch` on literals, `*` and `?`, and the list of IP masks of a user |
| `WildcardRegex.dfy` | the translation of wildcards to regular expressions |
| `Groups.dfy` | primary, secondary and gadmin groups of a user, with rollback |
| `ModeChanges.dfy`, `ModeIdempotence.dfy`, `ModeGrammar.dfy`, `ModeCompiler.dfy`, `ModeMeaning.dfy` | chmod mode strings: applying, applying twice, grammar, compiling, what they do permission by permission |
| `XDupe.dfy` | packing of duplicate names into X-DUPE lines |
| `Counters.dfy`, `LoginProtocol.dfy`, `LoginBounds.dfy`, `TransferProtocol.dfy` | the login and transfer counters under any interleaving of clients |
| `SpeedCounter.dfy`, `SpeedControl.dfy`, `SpeedHistory.dfy` | the transfer speeds shared per path, the transfers that report them, and what the map holds told from the calls alone |
| `LruCache.dfy` | the intrusive list and the map of the cache |
| `Ports.dfy`, `PortRounds.dfy`, `PortCoverage.dfy`, `PortReload.dfy` | the round-robin port allocator and the retry loops that draw from it: one round, which ports are tried, and a change of configuration |
| `ControlReplies.dfy`, `ReplyReader.dfy`, `ReplyTexts.dfy` | replies on the control connection, a client that reads them by section 4.2 of RFC 959, and the texts it gets |
| `Transcode.dfy` | ASCII transfers chunk by chunk (section 3.1.1.1 of RFC 959) |
| `Wrappers.dfy`, `Sequences.dfy`, `Strings.dfy` | what several of these share |

Conventions. Objects whose methods assign their fields are classes, and each method is tied to a
function of the old state; the lemmas are about these functions. Threads are atomic steps:
one step for each critical section and for each statement another thread can observe. Exceptions
are `Option`, `Outcome` or boolean results. Words of 32 bits are lists of booleans, least
significant bit first, and modes are sets of bit numbers.

Where the code does not do what one would expect of it, the model follows the code and a lemma
says exactly when things go right:

* `src/acl/user.cpp:212-237`: a mask with `?` also matches the one-character mask `*`, so it can push out
  a mask that accepts more. `Wildcard.SoundSubsumer` and `IpMasks.LosslessMask` show that masks
  without `?` are exactly those for which this does not happen.
* `src/acl/user.cpp:347-493`: arguments with -1, or with repetitions in `SetGIDs` and `ToggleGIDs`,
  leave an inconsistent user; the lemmas `PrimaryIs`, `AddIs`, `ReplaceIs` and `ToggleIs` give the
  exact conditions. `DelGIDs` needs none.
* `util/util/lrucache.hpp:180-184`: inserting a key that is still cached puts the list and the map out
  of step. `Insert` says that this is the only way to, `FreshWindows` which runs avoid it, `InsertAll`
  what these runs leave in the cache, and `RepeatKey` that the list outgrows any capacity above one otherwise.
* `src/ftp/portallocator.hpp:49-54`: `SetPorts` keeps the next port of the old configuration, so that ports
  outside the new one can be handed out (`LeftOverPort`). `OnlyConfigured` says exactly when none ever is,
  and `FirstPortReturns` that with all ports in use the retry loop has an end exactly if its first port is configured.
* `src/ftp/data.cpp:105-123`: with overlapping ranges the retry loop can give up without having tried
  every port (`OverlapGivesUpEarly`). It tries all of them, from every position, exactly if the list of ports is
  one round of different ports repeated (`TriesAllIff`), and each as often as it is configured exactly
  if the ranges are disjoint (`TriesEachOnceIff`).
* `src/ftp/controlimpl.cpp:47-63`: a line without a code that looks like a final line ends the reply for
  the client; `ReplyTexts.RunIsRead` says exactly when all replies are recovered, texts and all.
* `src/ftp/util.cpp:20-30`: a line feed at the start of a chunk gets no carriage return. `SentLinesEnd` says
  exactly when every line feed sent has one, and `ChunksMatter` when the output does not depend on the chunks;
  the round trip holds all the same.
* `src/ftp/logincounter.cpp:24-41`: the test against the maximum number of users has no effect, because the
  return it guards is commented out: a user without a limit exceeds any (`NoMaximum`), and a bound holds in
  every run exactly if the users' own limits imply it (`OnlyPersonalLimits`). A kick lets a user exceed a
  limit above 0 by one login (`KickExceedsLimit`), and never by more (`LoginProtocol.EveryRun`): by the time the one
  who kicked logs in, somebody else may have taken the place. Under limit 0 there is nobody to kick, and
  nobody gets in (`DisallowedStaysOut`).
* `src/fs/mode.cpp:117-126`: with copies (`u=g,g=o`) applying a mode twice can differ from applying it once.
  `IdempotentIff` says that it does not exactly if it does not for eight modes, and `OneChange` that it takes
  two changes.
* `src/fs/mode.cpp:133-135`: `=` without a class drops nothing, unlike in the chmod of the GNU coreutils that the
  file says it follows: it acts as `+` (`EqualsWithoutClass`).

## Model

| member | source | states |
|---|---|---|
| Crc32.SliceBy8 | util/util/sliceby8.cpp:315-362 | for every buffer, length, start address and initial value, the three loops compute the bit-at-a-time reflected CRC-32, reading only inside the buffer |
| Crc32.WholeBlocks | util/util/sliceby8.cpp:334-355 | the block loop advances the register by all bytes up to its limit |
| Crc32.AlignedBlocks | util/util/sliceby8.cpp:319-356 | the prologue and the 8-byte loop end fewer than 8 bytes before the end of the buffer, with the register of all bytes consumed |
| Crc32.BlockStep | util/util/sliceby8.cpp:335-354 | eight table lookups on two words advance the register by exactly the eight bytes of the block |
| Crc32.ByteStep | util/util/sliceby8.cpp:322-325 | one table lookup advances the register by one byte |
| Crc32.TableIsSteps | util/util/sliceby8.cpp:339-354 | the table k of the recurrence holds 8(k+1) bit steps of its index |
| Crc32.StepsLinear | util/util/sliceby8.cpp:339-354 | the bit steps are linear over GF(2), which is why lookups may be combined by exclusive or |
| Crc32.ChecksumAppend | util/util/crc32.hpp:36-39 | the checksum of a concatenation is the checksum of the second part started from that of the first, for every split |
| Crc32.CRC32.constructor | util/util/crc32.hpp:33-33 | the initial checksum 0 is that of no bytes |
| Crc32.CRC32.Update | util/util/crc32.hpp:36-39 | after any sequence of updates the field is the CRC-32 of everything hashed so far |
| CrcResidue.Residue | util/util/sliceby8.cpp:315-362 | whatever the message and the checksum it is continued from, the checksum of the message followed by the four little-endian bytes of its own checksum is 0x2144DF1C |
| CrcResidue.ZeroByte | util/util/sliceby8.cpp:317-361 | the checksum of one zero byte, both complements included |
| CrcResidue.GeneratorIs | util/util/sliceby8.cpp:48-48 | the generator given by its exponents is the constant 0xEDB88320 |
| CrcResidue.RowZero | util/util/sliceby8.cpp:32-48 | the entries of the first table at the powers of two are the literals of the source |
| CrcResidue.LastColumn | util/util/sliceby8.cpp:48-286 | the entry of each of the eight tables at 0x80 is the literal of the source |
| CrcResidue.RowsAreLinear | util/util/sliceby8.cpp:29-303 | the other entries of a table follow from those at the powers of two by exclusive or |
| AsyncCrc32.StepKeepsInv | util/util/asynccrc32.hpp:62-177 | every step of either thread and of the caller keeps the ring invariant: filled slots are a cyclic window in submission order, counted by `pending` |
| AsyncCrc32.RunKeepsInv | util/util/asynccrc32.hpp:62-177 | hence every interleaving does |
| AsyncCrc32.StepKeepsSummed | util/util/asynccrc32.hpp:80-80 | the register follows the bytes hashed, block by block |
| AsyncCrc32.Safety | util/util/asynccrc32.hpp:66-90 | in every reachable state `pending` is the number of filled slots and at most the queue size, the asserts hold, and the threads never use one slot's data at once |
| AsyncCrc32.ChecksumOfSubmitted | util/util/asynccrc32.hpp:117-177 | the value `Checksum()` returns is the CRC-32 of the blocks put into the ring, and so is the register once the consumer has exited, every slot being empty then |
| AsyncBlocks.PassedOn | util/util/asynccrc32.hpp:151-170 | after every interleaving the blocks put into the ring, and then the one of the call under way, are the arguments of the caller's `Update(bytes, len)` calls, in order and whole |
| AsyncBlocks.FilledIn | util/util/asynccrc32.hpp:128-149 | in the other style they are, byte by byte, what the caller wrote last into each buffer in turn, cut to the length it gave |
| AsyncBlocks.ChecksumOfEverything | util/util/asynccrc32.hpp:117-177 | after every interleaving the value `Checksum()` returns is the CRC-32 of everything the caller asked to be hashed, told from the caller's steps alone, and so is the register once the consumer has exited |
| AsyncCrc32.NoDeadlock | util/util/asynccrc32.hpp:62-177 | while the producer is inside a call, one of the threads can go on; lost wake-ups included |
| AsyncCrc32.StepUsesWork | util/util/asynccrc32.hpp:62-177 | each step of a thread decreases a measure |
| AsyncCrc32.CallsReturn | util/util/asynccrc32.hpp:62-177 | every call returns under every schedule: the threads take a bounded number of steps, six more for each spurious wake-up, and can go on as long as the producer is in a call |
| Wildcard.MatchIsTransitive | util/util/string.cpp:39-42 | a pattern without `?` that matches another pattern as text accepts all that the other accepts |
| Wildcard.SoundSubsumer | util/util/string.cpp:39-42 | matching as text decides inclusion of languages soundly if and only if the pattern has no `?` |
| Wildcard.MatchIsAligned | util/util/string.cpp:39-42 | a pattern matches exactly the texts that can be cut into one piece for each of its characters: anything for `*`, one character for `?`, and for a literal itself or, with `iCase`, the same letter in the other case |
| Wildcard.CaseDoesNotMatter | util/util/string.cpp:39-42 | with `iCase` a match does not change with the case of letters in the pattern or in the text |
| IpMasks.User.AddIPMask | src/acl/user.cpp:212-237 | refuses a covered mask and changes nothing; otherwise deletes and reports exactly the masks it matches, keeps the others in order, and appends |
| IpMasks.Members | src/acl/user.cpp:223-232 | a mask is dropped if and only if the new one matches it |
| IpMasks.InOrder | src/acl/user.cpp:223-232 | the masks kept and those reported as deleted keep their order and how often they occur |
| IpMasks.RunAntichain | src/acl/user.cpp:212-237 | after any run, with any masks, no mask kept matches another |
| IpMasks.AddAccepts | src/acl/user.cpp:212-237 | adding a mask without `?` accepts exactly its language in addition |
| IpMasks.RunAccepts | src/acl/user.cpp:212-237 | after any run of masks of literals and `*` exactly the union of their languages is accepted |
| IpMasks.LosslessMask | src/acl/user.cpp:212-237 | a mask never causes an address to be lost to a later mask if and only if it has no `?` |
| Groups.User.SetPrimaryGID | src/acl/user.cpp:347-366 | the new state, or the exact old one if `SaveGIDs` throws; the same group again is not saved |
| Groups.User.AddGIDs | src/acl/user.cpp:368-393 | the same for adding, dropping repetitions on the way |
| Groups.User.CleanGadminGIDs | src/acl/user.cpp:395-411 | keeps exactly the gadmin groups that are memberships |
| Groups.User.DelGIDs | src/acl/user.cpp:413-437 | the new state, the first remaining secondary group moving up, or the exact old one if `SaveGIDs` throws |
| Groups.User.SetGIDs | src/acl/user.cpp:439-456 | the new state, or the exact old one if `SaveGIDs` throws |
| Groups.User.ToggleGIDs | src/acl/user.cpp:458-493 | the new state, or the exact old one if `SaveGIDs` throws |
| Groups.PrimaryIs | src/acl/user.cpp:347-366 | a consistent user stays consistent if and only if the group is not -1 or there was no primary group; memberships gain the group, which comes first, and the others keep their order |
| Groups.AddIs | src/acl/user.cpp:368-393 | consistent if and only if the arguments lack -1, or are nothing else for a user without groups; memberships become the union, new ones at the end in the order of their first occurrences, so that the first of them becomes the primary group of a user without groups; gadmin groups stay |
| Groups.DeleteIs | src/acl/user.cpp:413-437 | always consistent; memberships become the difference in the old order, and exactly the gadmin groups among them are kept |
| Groups.ReplaceIs | src/acl/user.cpp:439-456 | consistent if and only if the arguments are distinct and lack -1, or are just -1; memberships become the arguments in order, and exactly the gadmin groups among them are kept |
| Groups.ToggleIs | src/acl/user.cpp:458-493 | consistent if and only if the arguments lack -1 and those that were no members are distinct (or only -1 is left); memberships become the symmetric difference, those kept before those added |
| Groups.DeleteUndoesAdd | src/acl/user.cpp:368-437 | deleting groups that were just added and all new restores the exact state, gadmin groups and order included |
| Groups.ToggleTwice | src/acl/user.cpp:458-493 | toggling twice restores the memberships |
| Groups.StepKeepsConsistent | src/acl/user.cpp:347-493 | every operation keeps secondaries distinct, the primary not among them, no secondaries without a primary, gadmin groups within memberships; the memberships, in order, and the gadmin groups are those of the operation on plain lists |
| Groups.RunKeepsConsistent | util/util/scopeguard.hpp:102-139 | so does every run in which any of the saves may throw and be rolled back, and the memberships, in order, are those of the successful operations |
| Groups.GadminWhoRemain | src/acl/user.cpp:395-411 | after every run the user is gadmin of exactly those groups of the start that the user never left in between, rejoined or not |
| WildcardRegex.WildcardToRegex | util/util/misc.hpp:77-94 | the loop writes the translation character by character |
| WildcardRegex.ParseInverts | util/util/misc.hpp:77-94 | the text reads back as one piece per wildcard character |
| WildcardRegex.TranslationIsFaithful | util/util/misc.hpp:77-94 | the regular expression fully matches a string exactly when the wildcard does, and the wildcard can be recovered from it |
| ModeChanges.Apply | src/fs/mode.cpp:111-144 | the loop applies the changes in order |
| ModeChanges.Collapses | src/fs/mode.cpp:111-144 | any list without copies acts as one `(m & keep) \| set` |
| ModeChanges.Idempotent | src/fs/mode.cpp:111-144 | hence applying it twice is applying it once |
| ModeChanges.CopyCopies | src/fs/mode.cpp:117-142 | a copy gives each affected class, permission by permission, what the class copied from has in the mode so far, under each operator |
| ModeChanges.CopiesMoveOn | src/fs/mode.cpp:117-126 | with copies it need not be |
| ModeIdempotence.AllIsLocal | src/fs/mode.cpp:111-144 | what becomes of a permission depends on nothing but that permission in the three classes, for any list, copies included |
| ModeIdempotence.IdempotentIff | src/fs/mode.cpp:111-144 | under a fixed umask a list is idempotent on every mode if and only if it is on the eight modes made of whole classes |
| ModeIdempotence.OneChange | src/fs/mode.cpp:114-143 | a single change, copy or not, is idempotent on every mode |
| ModeChanges.EqualsWithoutClass | src/fs/mode.cpp:128-135 | `=` without a class acts as `+` and drops nothing |
| ModeChanges.KeepsHighBits | src/fs/mode.cpp:111-144 | bits above 0777 never change, copies included |
| ModeChanges.StaysInClasses | src/fs/mode.cpp:128-143 | if every change names a class, no bit outside the named classes changes |
| ModeGrammar.AcceptsGrammar | src/fs/mode.cpp:50-102 | the strings accepted are exactly who* (op perm)+ separated by commas, a trailing comma allowed |
| ModeGrammar.Complete | src/fs/mode.cpp:50-102 | every sentence of the grammar is read as the items it was written from |
| ModeGrammar.RoundTrip | src/fs/mode.cpp:50-102 | compiling the printed form of any well-formed change list gives back that list |
| ModeGrammar.CompiledIsWellFormed | src/fs/mode.cpp:50-102 | everything compiled is well formed, stays within the permission bits, and leaves the bits above 0777 of any mode alone |
| ModeCompiler.NumericModeFromString | src/fs/mode.cpp:26-42 | accepts one to three octal digits, or four of which the first is 0, and returns their value, although it reads them from the right |
| ModeCompiler.OctalLeading | src/fs/mode.cpp:32-39 | a digit put in front weighs a power of eight |
| ModeCompiler.NumericIsPermissions | src/fs/mode.cpp:26-48 | an accepted number is at most 0777 |
| ModeCompiler.NumericReplaces | src/fs/mode.cpp:44-48 | a numeric mode replaces the permission bits whatever the umask |
| ModeCompiler.CompileClause | src/fs/mode.cpp:55-98 | one pass of the outer loop compiles one clause and stops at the comma, the end, or an error |
| ModeCompiler.CompileNext | src/fs/mode.cpp:97-98 | after a comma there is another clause to read, and otherwise the string is accepted exactly at its end |
| ModeCompiler.CompileActions | src/fs/mode.cpp:66-96 | the inner loop compiles all actions of a clause, and fails exactly where the grammar does |
| ModeCompiler.ScanWho | src/fs/mode.cpp:56-64 | collects the classes of the longest run of class letters |
| ModeCompiler.CompileClauses | src/fs/mode.cpp:54-101 | the outer loop terminates and succeeds exactly on the sentences of the grammar, adding their meaning |
| ModeCompiler.Mode.CompileSymbolicMode | src/fs/mode.cpp:50-102 | terminates, succeeds exactly on the sentences of the grammar, and appends their meaning to the object |
| ModeCompiler.Mode.Compile | src/fs/mode.cpp:104-109 | numeric and symbolic modes told apart by the first character |
| ModeCompiler.Mode.Apply | src/fs/mode.cpp:111-144 | applies the compiled changes |
| ModeMeaning.AffectedBits | src/fs/mode.cpp:57-64 | a permission of a class is affected if and only if the clause has the letter of the class or `a` |
| ModeMeaning.ClauseAffects | src/fs/mode.cpp:57-95 | so it is for each change of every compiled clause |
| ModeMeaning.AllIsEverybody | src/fs/mode.cpp:58-58 | whatever follows, `a` compiles to the same changes as `ugo`, and is refused where that is |
| ModeMeaning.NamesDecide | src/fs/mode.cpp:56-64 | so do any class letters that name the same classes, in whatever order and number |
| ModeMeaning.ItemBits | src/fs/mode.cpp:114-142 | one action applied, permission by permission and letter by letter, umask and copies included |
| ModeMeaning.SentenceMeans | src/fs/mode.cpp:50-144 | compiling any sentence of the grammar and applying it does to every mode what its actions say, one after the other, without reference to bit masks |
| ModeMeaning.NumberMeans | src/fs/mode.cpp:26-48 | a numeric mode grants each class what its own octal digit says, and nothing to a class without a digit |
| XDupe.MessageOne | src/ftp/xdupe.cpp:28-69 | the text is the prefixed lines of the packing |
| XDupe.PayloadsAreGreedy | src/ftp/xdupe.cpp:37-67 | each name goes on the last line if it fits there, and on a new line otherwise |
| XDupe.StaysAhead | src/ftp/xdupe.cpp:37-67 | any other packing of the names has more lines, or as many and a last line at least as long |
| XDupe.FewestLines | src/ftp/xdupe.cpp:28-69 | no order-preserving packing of the truncated names uses fewer lines |
| XDupe.ReadsBack | src/ftp/xdupe.cpp:28-69 | payloads have at most 67 characters, and the words read off the lines that start with the prefix are the names, in order, each cut to its first 67 characters |
| Counters.Counter.StartLogin | src/ftp/logincounter.cpp:24-41 | admits or refuses by the personal limit only, and counts an admission in both counts |
| Counters.Counter.LoginsUsed | src/ftp/logincounter.cpp:43-47 | whether a limited user has no login left; asking may enter the user with count 0 |
| Counters.Counter.StartTransfer | src/ftp/transfercounter.cpp:24-38 | the same with the maximum number of transfers for users who are not exempt |
| Counters.Counter.Stop | src/ftp/logincounter.cpp:49-57 | takes one login off both counts |
| Counters.SumUpdate | src/ftp/logincounter.cpp:38-39 | the sum of the personal counts follows the total |
| LoginProtocol.ClientKeepsOk | src/ftp/clientimpl.cpp:72-133 | a client's state, its guard and the threads about to log it out agree on what is still to come |
| LoginProtocol.StopNeverUnderflows | src/ftp/logincounter.cpp:49-57 | the asserts of `Stop` never fire |
| LoginProtocol.StepKeepsInv | src/ftp/clientimpl.cpp:609-628 | every step of any client or thread keeps the accounts and the limits |
| LoginProtocol.InterruptKeepsInv | src/ftp/task/task.cpp:79-83 | so does the server when it interrupts the client to kick, whether or not it is still logged in |
| LoginProtocol.EveryRun | src/ftp/logincounter.cpp:24-57 | under every interleaving the total is the sum of the personal counts and the number of logins held, nobody is logged out twice, a destroyed client is logged out as often as it was logged in, and no user exceeds a limit above 0 by more than one, or at all without a kick, or has a login under limit 0 |
| LoginProtocol.Admission | src/ftp/logincounter.cpp:24-47 | after every interleaving a kick is looked for exactly if it was asked for and as many logins are held as the limit allows, and a login is refused exactly if as many are held even without the kicked one |
| LoginBounds.KickExceedsLimit | src/cmd/rfc/pass.cpp:107-122 | for every user and every limit above 0 some run exceeds it by one: all logins are used, one is kicked, somebody else takes its place, and the one who kicked logs in |
| LoginBounds.DisallowedStaysOut | src/ftp/task/task.cpp:52-86 | under limit 0, or one below -1, no run ever has a login of the user, kick or no kick |
| LoginBounds.NoMaximum | src/ftp/logincounter.cpp:32-37 | with one user without a limit the total exceeds any maximum in some run, without any kick |
| LoginBounds.OnlyPersonalLimits | src/ftp/logincounter.cpp:24-41 | no run ever has more than a given number of logins if and only if everybody has a limit and the limits above 0, each with the login a kick adds, stay within that number together |
| TransferProtocol.StartKeepsInv | src/ftp/transfercounter.cpp:24-38 | an admission or refusal keeps the accounts and the limits |
| TransferProtocol.GuardKeepsInv | src/cmd/rfc/retr.cpp:66-88 | so does the guard that stops a transfer, and its asserts hold |
| TransferProtocol.EveryRun | src/ftp/transfercounter.cpp:24-48 | under every interleaving the total is the sum of the personal counts and the number of transfers, no user exceeds a limit, and transfers that are not exempt never exceed the maximum |
| TransferProtocol.Admission | src/ftp/transfercounter.cpp:24-38 | after every interleaving a transfer is refused for the personal limit exactly if that many transfers of the user are active, otherwise for the maximum exactly if the user is not exempt and that many are active in all, and is admitted otherwise |
| TransferProtocol.PersonalLimitIsReached | src/ftp/transfercounter.cpp:30-30 | a number of simultaneous transfers of a user occurs in some run if and only if the user's limit allows it |
| TransferProtocol.MaximumIsReached | src/ftp/transfercounter.cpp:31-34 | as long as a user's own limit does not come first, a number of simultaneous transfers that are not exempt occurs in some run if and only if the maximum allows it |
| TransferProtocol.ExemptExceedMaximum | src/ftp/transfercounter.cpp:31-34 | exempt ones may push the total past it |
| SpeedCounter.Counter.UpdateSpeeds | src/ftp/speedcounter.cpp:24-50 | the loop over the limit paths, repetitions included, as long as the asserts hold |
| SpeedCounter.Counter.ClearSpeeds | src/ftp/speedcounter.cpp:52-70 | the same for a transfer that ends; nothing happens for one that never reported |
| SpeedControl.Control.Apply | src/ftp/speedcontrol.hpp:79-105 | reports the new figures in place of the last ones and remembers them |
| SpeedControl.Control.Destroy | src/ftp/speedcontrol.hpp:107-110 | takes the last figures back |
| SpeedControl.TotalUpdate | src/ftp/speedcounter.cpp:38-40 | changing one transfer changes the total of a path by the difference of its shares |
| SpeedControl.MidwayIsEnough | src/ftp/speedcounter.hpp:58-67 | in the middle of a call, also after earlier occurrences of the same path, what is subtracted is still there |
| SpeedControl.UpdateIsSafe | src/ftp/speedcounter.hpp:58-67 | the asserts of `operator-=` hold and the divisor is positive throughout an update |
| SpeedControl.ClearIsSafe | src/ftp/speedcounter.hpp:58-67 | the asserts hold throughout a clear |
| SpeedControl.StepKeepsInv | src/ftp/speedcounter.cpp:24-70 | every step keeps the map equal to the live transfers |
| SpeedHistory.RunIsExpected | src/ftp/speedcontrol.hpp:79-110 | after every run each transfer has the limits it was begun with, and its last figures are those of its last report, or none if it never reported, has no limits, or has ended |
| SpeedHistory.EveryRun | src/ftp/speedcontrol.hpp:79-110 | after every run a path is in the map exactly when a live registered transfer uses it, with the count and sum, with multiplicity, of what the last calls of these transfers reported, and no assert fires next |
| SpeedHistory.EndedLeaveNothing | src/ftp/speedcontrol.hpp:107-110 | once all transfers that were begun have ended the map is empty |
| LruCache.Cache.constructor | util/util/lrucache.hpp:151-155 | an empty cache |
| LruCache.Cache.PushFront | util/util/lrucache.hpp:49-57 | relinks the pointers so that the list stays doubly linked with the entry in front |
| LruCache.Cache.Unlink | util/util/lrucache.hpp:59-65 | takes an entry at any position out of the list, which stays doubly linked |
| LruCache.Cache.EraseOldest | util/util/lrucache.hpp:68-74 | the last entry leaves list and map |
| LruCache.Cache.Insert | util/util/lrucache.hpp:180-184 | iteration yields the new pair and then what is left of the old ones; list and map stay in step if and only if the key is not among those left; out of step, while the map has room, nothing is erased |
| LruCache.Cache.Lookup | util/util/lrucache.hpp:166-178 | finds the value stored under a key, or says that there is none, and reorders nothing |
| LruCache.Cache.Iterate | util/util/lrucache.hpp:80-111 | following the pointers from `begin()` to `end()` yields the contents |
| LruCache.NothingElse | util/util/lrucache.hpp:31-40 | a map in step with the list holds no entry that is not on the list |
| LruCache.Cache.InsertAll | util/util/lrucache.hpp:180-184 | a run of insertions that finds every key gone leaves a cache in step with the most recent `capacity` insertions, newest first |
| LruCache.MostRecent | util/util/lrucache.hpp:180-184 | what such a run computes, in closed form |
| LruCache.RepeatKey | util/util/lrucache.hpp:180-184 | inserting one key again and again makes a list of any length, for every capacity above one |
| LruCache.FreshWindows | util/util/lrucache.hpp:180-184 | a run keeps list and map in step if and only if no `capacity` consecutive insertions repeat a key |
| Ports.PortAllocator.SetPorts | src/ftp/portallocator.hpp:49-54 | starts with the first new range and keeps the next port of the old configuration |
| Ports.PortAllocator.NextPort | src/ftp/portallocator.hpp:56-73 | one draw whatever the next port; in order, it returns the port at the current position of all ports and moves on cyclically; any port without ranges |
| PortReload.OnlyConfigured | src/ftp/portallocator.hpp:49-73 | after a new configuration every port ever drawn is configured if and only if none was drawn before, or all ports from the one left over up to the first range are configured |
| PortReload.LeftOverPort | src/ftp/portallocator.hpp:49-73 | a run that draws a port outside the configuration |
| PortReload.FirstPortReturns | src/ftp/data.cpp:105-123 | after a new configuration, with all ports in use, the retry loop has an end if and only if the first port it draws is configured |
| PortReload.ConfiguredFirstEnds | src/ftp/data.cpp:105-123 | if it is, the loop has an end whatever trying the ports leads to |
| Ports.EachOnce | src/ftp/portallocator.hpp:56-73 | from every position, N calls return each of the N configured ports as often as it is configured, and the next repeats the first |
| Ports.DisjointRanges | src/cfg/setting.cpp:154-171 | no port is configured twice if and only if the ranges are disjoint |
| Ports.BindPort | src/ftp/data.cpp:105-123 | whenever some draw would end the loop, from whatever state of the allocator, the loop terminates there: with the first port that is not in use, or where the first port comes again, all ports in between being in use |
| Ports.InOrderEnds | src/ftp/data.cpp:105-123 | on an allocator in order there is always such a draw |
| Ports.InOrderTries | src/ftp/data.cpp:168-186 | and the ports tried are successive ones from its position, none after a whole round |
| Ports.ExhaustedAfterAll | src/ftp/data.cpp:168-186 | with disjoint ranges it gives up only after trying every port exactly once |
| Ports.OverlapGivesUpEarly | src/ftp/data.cpp:105-123 | with overlapping ones it can give up earlier |
| PortCoverage.TriesEachOnceIff | src/ftp/data.cpp:105-123 | from every position the loop gives up only after trying every port exactly as often as it is configured if and only if the ranges are disjoint |
| PortCoverage.TriesAllIff | src/ftp/data.cpp:168-186 | from every position the loop gives up only after trying every configured port if and only if the list of ports is one round of different ports, repeated |
| PortCoverage.DisjointRepeats | src/cfg/setting.cpp:154-171 | disjoint ranges make up such a list |
| ControlReplies.ControlImpl.SendReply | src/ftp/controlimpl.cpp:47-63 | writes the line before it finds out about a ProtocolError, and drops parts in single-line mode |
| ControlReplies.ControlImpl.MultiReply | src/ftp/controlimpl.cpp:92-101 | sends the lines of a message up to the first error |
| ControlReplies.ControlImpl.PartReply | src/ftp/controlimpl.cpp:65-77 | sends or defers a text |
| ControlReplies.ControlImpl.Reply | src/ftp/controlimpl.cpp:79-90 | sends the deferred lines, then its own, and starts afresh |
| Strings.SplitInverts | util/util/string.cpp:147-152 | the pieces of a text joined by the separator are the text again |
| ControlReplies.LinesOfText | src/ftp/controlimpl.cpp:103-109 | the lines of a text make it up, and none contains a newline |
| ControlReplies.DeferredOnce | src/ftp/controlimpl.cpp:79-90 | each deferred text goes out once, in order, before the reply's own lines, of which the last is the only final one, and the queue is empty then |
| ControlReplies.ControlImpl.SetSingleLineReplies | src/ftp/controlimpl.hpp:71-72 | changes the mode and nothing else |
| ControlReplies.SendIs | src/ftp/controlimpl.cpp:92-101 | a message either is sent as a whole or fails at its first line |
| ControlReplies.StepKeepsTrack | src/ftp/controlimpl.cpp:47-109 | a call succeeds if and only if the lines of the reply under way still have one code; what is written is the replies asked for, each deferred text once and before the reply's own lines |
| ControlReplies.RunTracks | src/ftp/controlimpl.cpp:47-109 | so it is after every run without a ProtocolError, and each reply has one code |
| ReplyReader.ReadsGroup | src/ftp/controlimpl.cpp:51-58 | the client takes exactly the lines of a reply if and only if the first line looks coded and no line without a code looks final |
| ReplyReader.ReadsAll | src/ftp/controlimpl.cpp:47-109 | all replies are recovered if and only if all are readable |
| ReplyReader.RunIsRecovered | src/ftp/controlimpl.cpp:47-109 | after any run that ends with a final reply the client has read one reply for each `Reply` call, with the lines written for it, if and only if all are readable |
| ReplyReader.SingleLines | src/ftp/controlimpl.cpp:49-49 | from wherever in a run single-line mode is switched on, as long as it stays on each reply is one line, the first one after what it had already sent |
| ReplyTexts.RenderedSays | src/ftp/controlimpl.cpp:51-53 | a coded line is the code, the mark and the text, and the client gets just these from it; a line without a code is the text |
| ReplyTexts.RecordIsAsked | src/ftp/controlimpl.cpp:65-109 | the lines of the replies are those of the texts of the calls: deferred ones first, the own ones after them, and in single-line mode only the last line of the final text |
| ReplyTexts.RunIsRead | src/ftp/controlimpl.cpp:47-109 | after any run that ends with a final reply the client has read one reply for each `Reply` call, with its code and with the texts of its own calls and those deferred to it, line by line and in order, if and only if all are legible |
| ReplyTexts.LooksFinal | src/ftp/controlimpl.cpp:52-53 | whatever the code and the texts, three calls of which the second sends an unprefixed line that looks final run without an error, and the client does not read the reply they make up |
| Transcode.LFtoCRLF | src/ftp/util.cpp:20-30 | the loop over one chunk |
| Transcode.CRLFtoLF | src/ftp/util.cpp:32-41 | the loop over one chunk |
| Transcode.GainsBareFeeds | src/ftp/util.cpp:24-29 | a chunk gains one byte for each line feed that follows something other than a carriage return, and comes out unchanged if and only if it has none |
| Transcode.ToCrlfTwice | src/ftp/util.cpp:20-30 | doing it again changes nothing |
| Transcode.TransferRoundTrip | src/ftp/util.cpp:20-41 | for every chunking when sent and every chunking when received, the original bytes come back if and only if the file has no carriage return |
| Transcode.StoredIs | src/cmd/rfc/stor.cpp:284-300 | what is stored does not depend on the chunks received |
| Transcode.SentLength | src/cmd/rfc/retr.cpp:229-249 | each line feed that starts a chunk unprotected costs one carriage return |
| Transcode.ChunksMatter | src/cmd/rfc/retr.cpp:229-249 | what is sent does not depend on the chunks if and only if there is no such line feed |
| Transcode.ChunkStartsWithLineFeed | src/ftp/util.cpp:24-29 | two chunks that miss a carriage return |
| Transcode.OneChunkLinesEnd | src/ftp/util.cpp:24-29 | in one chunk every line feed follows a carriage return if and only if the chunk does not start with a line feed |
| Transcode.SentLinesEnd | src/cmd/rfc/retr.cpp:229-249 | over any chunks every line feed sent follows a carriage return if and only if none is missed at the start of a chunk and the file does not start with a line feed |

## Left out

- The 8 lookup tables of `util/util/sliceby8.cpp:29-303` are literals; the model uses the recurrence they are generated by. `RowZero` and `LastColumn` compare 15 of the 2048 entries with it, and the others are taken to satisfy it. Machine words are lists of 32 booleans, and the two word loads are little-endian.
- `HexString` of both CRC classes: formatting.
- Mixing the two `Update` overloads on one `AsyncCRC32`: an instance uses one style throughout.
- The threads of `AsyncCRC32`, of the login protocol and of the transfer protocol are steps on values rather than classes: Dafny's methods are sequential.
- Bracket expressions and backslash escapes in masks: `Match` reads `[` and `\` as literals.
- `SaveIPMasks`, `DelIPMask`, `ClearIPMasks`: they would only add easy members.
- `Transaction` rolls back whenever an exception is in flight; one that was in flight before the operation began is not modelled. The assigned and swapped back variables are those of the operation itself.
- Iteration order of the hash set of gadmin groups: `CleanGadminGIDs` picks the elements in any order.
- Modes are sets of bit numbers rather than machine integers, so shifts and widths do not occur.
- ModeCompiler.Mode.CompileSymbolicMode: does not say which changes are left behind by a string that is refused, because the object is not used after the exception.
- `MessageTwo`, `MessageThree` and `MessageFour` of X-DUPE: one name per line or one line.
- Exceptions between a successful `Start` and the assignment of `loggedIn` (the shared memory writer in between), and changes of a user's limit while logins are held: limits are fixed per user.
- `GlobalCount` and the other plain readers of the counters.
- Which of several logins a kick takes (the one idle longest): any of them. The search for it may miss one, as it looks at one client after the other.
- `SaveGIDs` writes through a connection that swallows database errors (`src/db/user/user.cpp:85-90`): such a failure throws nothing, keeps the new state in memory and rolls nothing back.
- Floating-point speeds and the sleep times computed from them; only the divisor is shown to be positive. `CheckMinimum`, whose exception leaves the counter as it is, is an `Apply` that does not take place.
- Interruption of the sleep in `SpeedControl::Apply`, between the update of the counter and the store of the last figures.
- `LRUCache::Flush`, which takes a key out of the map only, and writing through the references that `Lookup` and iterators hand out: values are fixed once inserted. The capacity is any positive number.
- `AddrAllocator` and the choice of a local address in `InitPassive` and `InitActive`; sockets are a function that says what trying a port leads to. Other callers do not draw ports in between.
- The bytes `\r\n` after each reply line: the output is a sequence of lines, none of which contains a newline.
- Credit arithmetic of RETR: a bound on one formula.
- Growing files in the RETR loop, data connections, TLS, the database, the file system, path resolution, templates, logs, configuration parsing and the text of commands.
