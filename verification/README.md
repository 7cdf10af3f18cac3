# Verified model of the volamos runtime

volamos runs AmigaOS command-line programs on a host. This project models six of its
components in Dafny and proves what they promise a guest program: the `AnchorPath`
directory scanner, `ReadArgs`, the 68000 assembler and hunk writer behind the fixtures, the
descriptor table and event queue of `bsdsocket.library`, the buffered reads of
`dos.library`, and `DateStamp`.

`dafny verify dfyconfig.toml` checks the whole project.

## How the model is laid out

Each component has specification functions on values (what one call makes of a state),
classes and methods that run as the original does (loops, in-place updates, early exits)
and are proved against those functions, and theorems about the functions over every input
and every run.

- **Directory scanner** (`dosanchor.rs`). `HostTree` is the host directory tree and the sorted,
  filtered listing; `AnchorModel` one `MatchFirst`/`MatchNext`/`MatchEnd` on the host's level
  stack, the guest's `AChain` list, the held locks and `ap_Buf`; `AnchorCalls` the calls as they
  run. `AnchorWalk`, `AnchorRun` and `AnchorUnique` are about the order of the reports,
  `AnchorBound` about their number, `AnchorKept` and `AnchorNames` about the names in them,
  `AnchorShown` and `AnchorFlags` about what the caller reads in its AnchorPath;
  `AnchorInvariant` and `AnchorInterleave` are about locks and guest memory over every run of
  calls on any number of AnchorPaths, `AnchorLeaks` about the calls that leave a lock behind,
  `AnchorPaths` about the two path spellings. The order of the reports rests on one assumption
  about the host: lookups agree with listings. `HostResolver` is the volume and assign manager
  (`vfs.rs`) and shows when it meets that assumption; `HostPaths` says what its paths mean.
- **ReadArgs** (`dosargs.rs`). `ArgReader` is the tokenizer, `ArgTemplate` the template parser,
  `ArgMatch` the matcher; `ArgTokens` and `ArgEquals` read a line as a list of items,
  `ArgGrammar` says byte by byte what lines and templates mean; `ArgStores` follows each value
  into its slot, `ArgDelivery` into the result array, and `ArgNumbers`, `ArgRequired` and
  `ArgSwitches` say when a line fails and what its flags come to; `ArgPrint` and `ArgRoundTrip`
  print an assignment and match it again; `ArgBorrow` is the `/M` borrowing; `ArgHeap` and
  `ArgCalls` are the guest heap, the result array and `FreeArgs`, `ArgRuns` whole runs of the
  two calls.
- **Assembler and hunk writer** (`amiga_asm.py`, read back by `loader.rs`). `HunkFormat` is the
  file format with its parser and loader, `HunkResolve` the second pass, `HunkLoad` the emitted
  file, its bytes and the file parsed again, `HunkForms` what the loader passes over,
  `HunkTheorem` what loading it at any addresses gives, `HunkBuilder` the two builders as they
  run. A `CodeBuilder` carries a ghost record of which call put each word there.
- **Sockets** (`bsdsocket.rs`). `SocketTable` is the descriptor table on values, `SocketEffects`
  what each call does to a descriptor, `EventBits` which events a poll queues, `EventQueue` the
  round robin of `GetSocketEvents`, `WaitSelect` (with `FdBits`) the packed descriptor sets,
  `SocketLibrary` the calls as they run, `ScatterGather` the iovecs of `sendmsg` and `recvmsg`,
  `MessageLayout` the bytes they are written as.
- **Buffered reads** (`dosbuf.rs`): `BufferedStream`. **Dates** (`dosdate.rs`): `DateStamp`.
- `Guest` and `GuestMemory` hold shared types, guest memory and the guest heap; `Pieces` cuts
  byte strings at separators and joins them.

What comes from outside is a parameter: the host tree, the pattern engine, the heap's choice
of blocks (any placement that fits, or failure, at any call), what `poll` and the other host
socket calls answer, the clock. Guest words that wrap around are taken modulo 2^32 where the
original does.

## Where the code differs from its documentation, or from what a caller may expect

The model follows the code.

- The scanner's comments call `APF_DIDDIR` self-clearing; the code sets it when a directory
  is left and never clears it (`AnchorShown.NextShows`).
- A wildcard pattern without volume or directory is scanned in `cwd/`. That is the current
  directory if and only if its spelling does not end in a separator
  (`HostResolver.BarePatternInCwd`). If it does, it is the parent, or nothing at the root
  (`HostResolver.BarePatternDirectory`). So with `SYS:` as the current directory `MatchFirst`
  fails with ERROR_OBJECT_NOT_FOUND (`HostResolver.BarePatternAtRoot`), and with a spelling
  like `SYS:work/`, which `--cwd` leaves as it is, the scan is of the parent
  (`HostResolver.BarePatternInParent`). The spellings that `CurrentDir` stores end in a
  separator at the root only (`HostResolver.StoredSpelling`).
- A lock on an object behind an assign with several directories can record a spelling that
  leads to another object (`HostResolver.TwinsDisagree`). It leads to the object of the lock
  if and only if no directory searched earlier has the recorded names
  (`HostResolver.SelfResolvesIff`).
- The path prose looks names up among the assigns first; the code takes volumes first
  (`HostResolver.VolumesFirst`).
- On an `ap_Buf` overflow no terminator is written: `ap_Buf` gets the first `ap_Strlen - 1`
  bytes and the byte after them is untouched.
- `ReadArgs`' prose says a bare word fills the next unfilled slot; the positional cursor
  does not skip slots a keyword has filled already, and the word takes the value's place
  (`ArgStores.KeywordThenWord`). A line loses no value if and only if no slot but a /M slot
  is put into twice (`ArgStores.NothingLostIff`).
- A keyword's value is only checked against the end of the line, so an unfinished quote is
  taken as a value there (`ArgStores.UnfinishedTaken`), and there only
  (`ArgStores.UnfinishedQuoteIff`).
- `ReadArgs` on an anchor that still has a record overwrites the record, and the blocks of
  the earlier call can never be freed (`ArgRuns.StrandingRun`, `ArgCalls.AnchorReused`). A
  caller that uses its own anchors may strand blocks if and only if it passes one whose record
  still holds a block (`ArgRuns.RunMayStrandIff`).
- The prose lets still unfilled required slots behind the `/M` slot borrow from it; the code
  also takes a required `/S` or `/T` there for unfilled, so the flag takes a value away
  (`ArgRoundTrip.RequiredFlagSteals`). Borrowing goes forward: the *first* such slot gets
  the *last* value. The array's entry for a flag holds no text, so such a value is lost;
  `ArgDelivery.ValuesAccounted` counts exactly these and the replaced ones.
- `WaitSelect`'s comment announces -1 with `EINTR` for a signal that is already pending; the
  code returns 0 with `Errno()` 0.
- `Dup2Socket`'s comment says any requested target can be honoured; onto 0x7FFFFFFF it makes
  the numbering start over, and a later `socket` call then replaces an open descriptor
  (`SocketTable.WrappedReuses`).
- `UnGetC(-1)` before any read pushes back an end of stream that never was read
  (`BufferedStream.ColdTakeBack`).
- The two-hunk build leaves `dc_l_selfptr` pointers at zero and the single-hunk build leaves
  `move.l #codelabel` pointers at zero, without complaint (`HunkBuilder.LostSelfPointer`,
  `HunkTheorem.TwoHunkAllRight`, `HunkTheorem.SingleHunkAllRight`).
- A lock is left behind when the heap gives no `AChain` (`AnchorLeaks.NoStoreStrands`), when
  `MatchFirst`'s first path overflows `ap_Buf` (`AnchorLeaks.OverflowStrands`), and by
  `MatchFirst` on an AnchorPath that is still scanning (`AnchorLeaks.RestartStrands`). These
  and no other calls do it: the held locks are the initial ones and one for each live level
  if and only if no call of the run was one of them (`AnchorLeaks.LocksExactlyLive`).
- `CompareDates` subtracts ticks in 32 bits; the model wraps around, as a release build does.

## Model

| member | source | states |
|---|---|---|
| AnchorRun.ScanReportsItinerary | crates/volamos-core/src/dosanchor.rs:541-681 | For every tree, pattern, `ap_Strlen`, choice of when to set APF_DODIR and heap failures: a MatchFirst that succeeds and any number of MatchNext calls report the depth-first walk, pruned to the chosen directories, one report a call, then ERROR_NO_MORE_ENTRIES for ever; the caller reads each report off its AnchorPath; directories are left as often as entered, the calls that succeed are no more than the entries reported and the directories entered, and the end comes within the number of objects and directories below the start |
| AnchorRun.ItineraryBounded | crates/volamos-core/src/dosanchor.rs:541-681 | Every scan's reports are its entries, one leaving for each directory entered and the refusals, and are bounded by the tree |
| AnchorBound.WalkBalanced | crates/volamos-core/src/dosanchor.rs:604-681 | The walk of a directory leaves exactly the directories it enters and is no longer than the objects and directories below it |
| AnchorShown.NextShows | crates/volamos-core/src/dosanchor.rs:281-319 | After a MatchNext the caller reads the reported name, kind and path in its AnchorPath, a failure changes none of them, and APF_DIDDIR is set if and only if it was set before or the call left a directory whose path fits |
| AnchorShown.FirstShows | crates/volamos-core/src/dosanchor.rs:281-319 | The same for MatchFirst, which never touches APF_DIDDIR |
| AnchorShown.NextNotes | crates/volamos-core/src/dosanchor.rs:281-299 | The name and kind reported are also in the AChain at `ap_Last`, and no other AChain changes |
| AnchorShown.FirstNotes | crates/volamos-core/src/dosanchor.rs:281-299 | The same for MatchFirst, in its new AChain |
| AnchorShown.FirstOutcome | crates/volamos-core/src/dosanchor.rs:386-525 | How a MatchFirst ends, in the order of its checks: bad pattern, nothing found, unreadable, no entry that the pattern accepts and that is not hidden, no AChain |
| AnchorFlags.NextFlags | crates/volamos-core/src/dosanchor.rs:550-681 | After a MatchNext APF_DODIR is set if and only if it was set and the call entered no directory, with entering said by its guard; APF_DIR_CHANGED and APF_DIDDIR likewise; no other flag changes |
| AnchorFlags.FirstFlags | crates/volamos-core/src/dosanchor.rs:465-524 | After a MatchFirst APF_ITSWILD is set if and only if it was set or the call began a wildcard scan; no other flag changes |
| AnchorFlags.OneEntryPerSetting | crates/volamos-core/src/dosanchor.rs:555-588 | In any run of a caller that sets APF_DODIR now and then and never clears it, each setting is used up by one directory entered or is still there at the end |
| AnchorFlags.VisitsReportFuture | crates/volamos-core/src/dosanchor.rs:541-681 | Such a caller gets the depth-first walk into the directories for which a call finds the bit, one for each setting at most |
| AnchorKept.ItineraryKept | crates/volamos-core/src/dosanchor.rs:322-335 | However it is steered, a wildcard scan finds only names that its pattern accepts and that are no sidecars; below a literal match only names that are no sidecars |
| AnchorKept.ItineraryCovers | crates/volamos-core/src/dosanchor.rs:322-335 | A wildcard scan reports every such entry of its directory, under the directory as the caller spelled it |
| AnchorNames.LiteralName | crates/volamos-core/src/dosanchor.rs:389-424 | A literal MatchFirst reports the last name of the object's path as the volume spells it, and the empty name for a root |
| AnchorNames.NameAtEnd | crates/volamos-core/src/dosanchor.rs:215-221 | The reported name is the last component after the first colon, whatever slashes follow it |
| AnchorNames.EmptyNameIff | crates/volamos-core/src/dosanchor.rs:215-221 | It is empty exactly for a volume's root and for a path without a colon |
| AnchorRun.FirstBeginsItinerary | crates/volamos-core/src/dosanchor.rs:386-524 | A MatchFirst that begins a scan reports the head of that walk and leaves a scan whose future is the rest of it, for wildcard and literal patterns |
| AnchorRun.PlayReportsFuture | crates/volamos-core/src/dosanchor.rs:527-681 | From any sound scan, n further calls report what its level stack still has to come, then the end |
| AnchorWalk.NextReportsFuture | crates/volamos-core/src/dosanchor.rs:541-681 | One MatchNext reports the first of what is still to come and leaves the rest, whether it descends, is refused, reports an entry or leaves a directory |
| AnchorWalk.EnterFollowsFuture | crates/volamos-core/src/dosanchor.rs:550-602 | Entering a directory, or being refused it, keeps what is still to come: the directory's whole walk and one APF_DIDDIR report go in front of the rest |
| AnchorUnique.ItineraryUnique | crates/volamos-core/src/dosanchor.rs:480-524 | On a tree with distinct, slash-free names no displayed path is reported as found twice, however the caller steers a wildcard scan |
| HostTree.ListingIsOrderedSelection | crates/volamos-core/src/dosanchor.rs:322-335 | A listing is the multiset of the entries the filter keeps, in byte order |
| HostTree.PrecedesIff | crates/volamos-core/src/dosanchor.rs:334 | That order: one name comes before another where it ends first or has the smaller byte at the first difference |
| HostTree.ListAndFilter | crates/volamos-core/src/dosanchor.rs:322-335 | The read, filter and sort as it runs returns that listing, or the error for something read_dir refuses |
| HostResolver.VfsCoherent | crates/volamos-core/src/vfs.rs:448-541 | With any volumes, assigns, current directory and parent steps, lookups that ignore case agree with listings; and every lock's spelling leads to its object if and only if no assign has the names in a directory it searches earlier, in which case the host assumption of the theorems is met |
| HostResolver.ChildResolves | crates/volamos-core/src/vfs.rs:820-865 | A listed name appended to its directory's path leads to that entry, whatever the path's steps, case and assign |
| HostResolver.SelfResolvesIff | crates/volamos-core/src/vfs.rs:465-541 | The spelling a lock on any path records leads to the same object of the host, directory of the assign included, if and only if no directory searched earlier has the recorded names; otherwise it leads into an earlier one |
| HostResolver.SteadyHolds | crates/volamos-core/src/vfs.rs:497-541 | That is so for every path where each name stands for one directory or for several without names that differ only in case |
| HostResolver.VolumesFirst | crates/volamos-core/src/vfs.rs:734-770 | A path that starts with a volume's name leads to the same object whatever the assigns are; any other name is decided by an assign of that name |
| HostResolver.BarePatternDirectory | crates/volamos-core/src/dosanchor.rs:370-384 | However the current directory is spelled, `cwd/` is that directory if the spelling does not end in a separator, and otherwise its parent or, at the root, nothing |
| HostResolver.BarePatternInCwd | crates/volamos-core/src/dosanchor.rs:370-384 | `cwd/` leads to an existing current directory if and only if its spelling does not end in a separator |
| HostResolver.StoredSpelling | crates/volamos-core/src/vfs.rs:593-599 | A spelling as CurrentDir stores it ends in a separator only at the root |
| HostResolver.BarePatternAtRoot | crates/volamos-core/src/dosanchor.rs:370-397 | With the root as current directory, spelled with a separator at its end, a wildcard pattern without a directory fails with ERROR_OBJECT_NOT_FOUND and changes nothing |
| HostResolver.BarePatternInParent | crates/volamos-core/src/dosanchor.rs:370-384 | With `S:w/` as current directory a pattern for every name finds w itself, in the root |
| HostResolver.TwinsDisagree | crates/volamos-core/src/vfs.rs:497-541 | A concrete assign for which a lock's spelling leads to another object |
| HostPaths.FindNameIs | crates/volamos-core/src/vfs.rs:875-901 | A name finds the entry spelled so, else the first in byte order of those that differ only in case, else nothing |
| HostPaths.WalkLeads | crates/volamos-core/src/vfs.rs:820-865 | A resolved path ends at an object of the host, and the recorded names, as the host spells them, lead there |
| HostPaths.VolumeRecorded | crates/volamos-core/src/vfs.rs:649-667 | What a path leads to is recorded under the configured spelling of its volume or assign, if there is one |
| HostPaths.AutoBases | crates/volamos-core/src/vfs.rs:734-772 | A name that is neither stands for what the fallback directory has under it |
| HostPaths.RelativePath | crates/volamos-core/src/vfs.rs:465-503 | A path without a colon is the path of the current directory with it behind, or the current directory itself while that is a file |
| HostPaths.RootPath | crates/volamos-core/src/vfs.rs:549-583 | A path that begins with a colon is taken from the root of the current volume |
| HostPaths.ParentUndoes | crates/volamos-core/src/vfs.rs:779-797 | A name followed by a step to the parent is no step; a step with no name before it leads nowhere |
| HostPaths.JoinParses | crates/volamos-core/src/dosanchor.rs:233-239 | A name joined to a path is one component more |
| AnchorInvariant.MirrorsVisits | crates/volamos-core/src/dosanchor.rs:583-601 | The guest list from `ap_Last` through `an_Parent` visits exactly the level stack from top to bottom and ends at `ap_Base` |
| AnchorInvariant.ApplyKeepsInv | crates/volamos-core/src/dosanchor.rs:356-689 | Any one call on any AnchorPath, successful or failed, keeps every scan's guest list equal to its stack and every lock accounted for |
| AnchorInvariant.FirstKeepsInv | crates/volamos-core/src/dosanchor.rs:386-524 | MatchFirst keeps the invariant, the leaked locks growing by exactly the lock of a scan it replaces or failed to record |
| AnchorInvariant.NextKeepsInv | crates/volamos-core/src/dosanchor.rs:527-681 | MatchNext keeps the invariant, leaking exactly the lock it had taken when no AChain could be had |
| AnchorInvariant.EndKeepsInv | crates/volamos-core/src/dosanchor.rs:683-689 | MatchEnd releases the locks of its own scan's levels and no others |
| AnchorInterleave.ReachableStates | crates/volamos-core/src/dosanchor.rs:465-476 | After any run of interleaved calls: each live scan's list visits its stack, each `an_Lock` is its level's lock, and the held locks are the initial ones, the leaked ones and one distinct lock per live level |
| AnchorLeaks.NextStrandsExactly | crates/volamos-core/src/dosanchor.rs:550-602 | A MatchNext leaves a lock behind if and only if the pending entry is a directory, APF_DODIR is set, the directory is found and the heap gives a lock but no AChain; the lock is the one it took |
| AnchorLeaks.FirstStrandsExactly | crates/volamos-core/src/dosanchor.rs:386-524 | A MatchFirst leaves locks behind if and only if it gets as far as its lock and then has no AChain, no room for the first path or a scan still live on its AnchorPath |
| AnchorLeaks.LocksExactlyLive | crates/volamos-core/src/dosanchor.rs:356-689 | After any run the held locks are the initial ones and one for each live level if and only if no call of the run was such a call |
| AnchorLeaks.NoStoreStrands | crates/volamos-core/src/dosanchor.rs:404 | A concrete MatchFirst without memory for its AChain after which no scan is live and its lock is held |
| AnchorLeaks.OverflowStrands | crates/volamos-core/src/dosanchor.rs:410-419 | The same for a first path that overflows `ap_Buf` |
| AnchorLeaks.RestartStrands | crates/volamos-core/src/dosanchor.rs:456-464 | The same for a second MatchFirst on a scanning AnchorPath, even after MatchEnd |
| AnchorInterleave.EndedScansHoldNothing | crates/volamos-core/src/dosanchor.rs:683-689 | When every scan has ended only the initial and the leaked locks are held |
| AnchorInterleave.OthersNeverShow | crates/volamos-core/src/dosanchor.rs:527-539 | What one AnchorPath's calls report in a run does not depend on the calls on the others |
| AnchorPaths.NextPaths | crates/volamos-core/src/dosanchor.rs:564-576 | At every depth the path looked up and the path displayed are the same suffix of names under the qualified and under the caller's own prefix |
| AnchorPaths.FirstPaths | crates/volamos-core/src/dosanchor.rs:363-386 | MatchFirst starts a scan under the two prefixes its pattern names |
| AnchorPaths.DescentPaths | crates/volamos-core/src/dosanchor.rs:225-239 | A descent appends one and the same name and slash to both prefixes, or makes a directly matched object its own prefix |
| AnchorPaths.BufferReceivesPrefix | crates/volamos-core/src/dosanchor.rs:300-319 | `ap_Buf` receives the longest prefix that fits, a terminator only when all of it fits, and nothing at or past `ap_Strlen` is written |
| AnchorCalls.Matcher.MatchFirst | crates/volamos-core/src/dosanchor.rs:356-525 | The call as it runs leaves exactly the state, and returns exactly the code, of the model's MatchFirst |
| AnchorCalls.Matcher.MatchNext | crates/volamos-core/src/dosanchor.rs:527-681 | The call as it runs, state taken out and put back, agrees with the model's MatchNext |
| AnchorCalls.Matcher.MatchEnd | crates/volamos-core/src/dosanchor.rs:683-689 | The unlock loop agrees with the model's MatchEnd |
| AnchorCalls.Matcher.StorePath | crates/volamos-core/src/dosanchor.rs:300-319 | The byte loop into `ap_Buf` stores what the model stores and reports overflow exactly when the path does not fit |
| ArgTemplate.TemplateProper | crates/volamos-core/src/dosargs.rs:129-201 | An accepted template has one slot per comma-separated part, at most one /M and one /F, and non-empty capital names without separators |
| ArgTemplate.RunParseTemplate | crates/volamos-core/src/dosargs.rs:129-201 | The parsing loops agree with the template function, ERROR_BAD_TEMPLATE included |
| ArgTemplate.TemplateReadsBack | crates/volamos-core/src/dosargs.rs:129-201 | The templates that some text asks for are exactly those with proper names and at most one /M and one /F, other than a single slot with neither name nor modifier, and each of them, written out, parses back to itself |
| ArgGrammar.TemplateIff | crates/volamos-core/src/dosargs.rs:129-201 | A template is accepted exactly for the slots its parts mean: names apart at `=` in capitals, modifiers of one letter in either case, one kind at most, one /M and one /F; any other is refused |
| ArgGrammar.PartIff | crates/volamos-core/src/dosargs.rs:140-196 | The same for one part |
| Guest.SameLetter | crates/volamos-core/src/dosargs.rs:203-208 | Case is that of the twenty-six letters alone |
| ArgStores.FindArgFills | crates/volamos-core/src/dosargs.rs:661-667 | A word for which FindArg gives a slot flips that slot's flag, or asks for a value and puts it into that slot and no other, for a /F slot with its quotes; one for which it gives -1 goes to the first positional slot |
| ArgStores.NothingLostIff | crates/volamos-core/src/dosargs.rs:361-433 | On a line without /F every slot ends with the last value put into it, a /M slot with all of them, and no value is lost if and only if no other slot is put into twice, as the items and the template alone decide |
| ArgDelivery.ValuesAccounted | crates/volamos-core/src/dosargs.rs:361-533 | On any line without /F that matches, the values put are those the result array leads to, those replaced by a later value for the same slot, and those that required flags borrow from the /M slot |
| ArgDelivery.AllDeliveredIff | crates/volamos-core/src/dosargs.rs:361-533 | The array leads to as many values as the line puts if and only if no slot but the /M slot is put into twice and no required flag is among the slots that borrow, read off the items and the template |
| ArgDelivery.BorrowShows | crates/volamos-core/src/dosargs.rs:437-459 | Borrowing, into strings and numbers alike, keeps the number of values shown but for one per flag that borrows |
| ArgNumbers.ParsesNumerals | crates/volamos-core/src/dosargs.rs:336-341 | A text is a number if and only if it is an optional sign, any zeros and the decimal form of an amount whose signed value fits 32 bits, and then it is that value |
| ArgNumbers.BadNumberIff | crates/volamos-core/src/dosargs.rs:355-459 | A line without /F fails with ERROR_BAD_NUMBER if and only if it puts into a /N slot what is no numeral before anything else is wrong, or a required /N slot borrows such a text |
| ArgNumbers.NumberHeld | crates/volamos-core/src/dosargs.rs:373-379 | A line that gets through leaves in a /N slot the value of the last numeral put there |
| ArgRequired.RequiredIff | crates/volamos-core/src/dosargs.rs:437-475 | A line without /F that gets through the loop matches if and only if no bad number is borrowed and no required slot is left without a value, and fails with ERROR_REQUIRED_ARG_MISSING if and only if one is, as items and template decide |
| ArgSwitches.FlagsCounted | crates/volamos-core/src/dosargs.rs:371-372 | A line without /F that matches leaves a /S flag set if and only if it names it, and a /T flag if and only if it names it an odd number of times |
| ArgStores.LoopHolds | crates/volamos-core/src/dosargs.rs:361-433 | The same from any slots and cursor on, for one slot |
| ArgStores.KeywordThenWord | crates/volamos-core/src/dosargs.rs:405-433 | `A=x y` for `A,B` matches with A holding y and B empty |
| ArgStores.UnfinishedQuoteIff | crates/volamos-core/src/dosargs.rs:355-435 | A line with an unfinished quote gets through if and only if the quote is a keyword's value and the line gets through with the quote taken for finished, with the same slots |
| ArgStores.UnfinishedTaken | crates/volamos-core/src/dosargs.rs:361-405 | `A="x` matches with A holding x |
| ArgReader.ItemAdvances | crates/volamos-core/src/dosargs.rs:244-299 | Every item but Nothing ends strictly past where it was looked for |
| ArgReader.ItemStaysOnLine | crates/volamos-core/src/dosargs.rs:244-323 | An item ends at or before the end of the line it starts on, so taking the raw rest of that line for /F never moves the cursor back |
| ArgReader.NothingStays | crates/volamos-core/src/dosargs.rs:244-299 | Where Nothing was found it is found again, and after an unfinished quote there is nothing |
| ArgGrammar.ItemIs | crates/volamos-core/src/dosargs.rs:244-299 | Which item stands at a place, byte by byte: blanks, the ends of a line, `=`, a quote, and words up to the next delimiter |
| ArgGrammar.RestTaken | crates/volamos-core/src/dosargs.rs:411-420 | A word for a /F slot takes everything from its first byte to the end of the line, and the line is done |
| ArgGrammar.PositionalsAre | crates/volamos-core/src/dosargs.rs:347-353 | Bare words fill the slots that are neither /K nor /S nor /T, in template order |
| ArgGrammar.KeywordOnly | crates/volamos-core/src/dosargs.rs:347-433 | A /K slot gets nothing from a line that does not name it |
| ArgReader.Reader.ReadItem | crates/volamos-core/src/dosargs.rs:244-299 | The tokenizer loop moves its cursor to, and returns, the specified item |
| ArgReader.Reader.RestOfLineFromLastItem | crates/volamos-core/src/dosargs.rs:313-323 | /F takes the raw bytes from the last item's start to the end of the line |
| ArgMatch.TakeAdvances | crates/volamos-core/src/dosargs.rs:361-433 | Taking an item always moves the reader forward, never past the buffer |
| ArgMatch.RunMatchArgs | crates/volamos-core/src/dosargs.rs:345-477 | The matching loop terminates and agrees with the matching function in slots, error code and final cursor |
| ArgProgress.NextReadSeesEmptyLine | crates/volamos-core/src/dosargs.rs:571-574 | The cursor never moves back, and after a match any template sees an empty line from there |
| ArgProgress.MultiNeverTooMany | crates/volamos-core/src/dosargs.rs:409-433 | A template with a non-/K /M slot never gives ERROR_TOO_MANY_ARGS |
| ArgTokens.LoopIsItems | crates/volamos-core/src/dosargs.rs:355-435 | Without /F the match depends on the line only through its list of items |
| ArgEquals.EqualsIsSpace | crates/volamos-core/src/dosargs.rs:301-308 | For /F-free templates, replacing a single `=` between items by a space changes neither slots nor error code nor final cursor |
| ArgEquals.LoopWithout | crates/volamos-core/src/dosargs.rs:355-435 | Taking a single `=` out of the list of items changes nothing in the result |
| ArgBorrow.BorrowLends | crates/volamos-core/src/dosargs.rs:437-459 | As long as there are values, each required unfilled slot behind the /M slot takes the last one left, in template order |
| ArgBorrow.BorrowConserves | crates/volamos-core/src/dosargs.rs:437-459 | The /M list before borrowing is the list that remains followed by the borrowed values in reverse template order |
| ArgBorrow.CopyTemplate | crates/volamos-core/src/dosargs.rs:437-474 | `FROM/A/M,TO/A` on n words fails exactly when n < 2, and otherwise TO takes the last and FROM the others |
| ArgPrint.EscapesUndone | crates/volamos-core/src/dosargs.rs:262-283 | Every byte string, escaped between quotes, is read back as itself |
| ArgPrint.CapitalsUndone | crates/volamos-core/src/dosargs.rs:262-283 | The same with `*N` and `*E` for `*n` and `*e`, in any mixture |
| ArgPrint.LoneStar | crates/volamos-core/src/dosargs.rs:262-283 | A star before any other byte stands for itself |
| ArgPrint.NumberReadsBack | crates/volamos-core/src/dosargs.rs:336-341 | Every 32-bit number is read back from its decimal form |
| ArgRoundTrip.PrintedLineMatches | crates/volamos-core/src/dosargs.rs:345-477 | For every /F-free template, covering assignment and order of slots, printing and matching gives the assignment back and stops at the end of the text, if and only if no required /S or /T slot stands behind a /M slot that has values |
| ArgRoundTrip.RequiredFlagSteals | crates/volamos-core/src/dosargs.rs:438-459 | The line ` FROM="x" TO` for `FROM/M,TO/A/S`: the match takes the file away from FROM and gives it to the switch |
| ArgHeap.CStringUnique | crates/volamos-core/src/dosargs.rs:481-491 | A text without zero bytes is the only one that can be read at its address |
| ArgHeap.PlaceMulti | crates/volamos-core/src/dosargs.rs:523-538 | A /M slot's null-terminated table leads to exactly its strings, in blocks that were free, or the heap failed |
| ArgCalls.Materialize | crates/volamos-core/src/dosargs.rs:497-555 | On success the result array leads to every slot through blocks this call took, on failure the heap is as before |
| ArgCalls.Dos.ReadArgs | crates/volamos-core/src/dosargs.rs:561-599 | All or nothing: on failure no block it took stays live; on success the array leads to every slot and the anchor's record holds exactly the blocks taken |
| ArgCalls.Dos.FreeArgs | crates/volamos-core/src/dosargs.rs:605-618 | Frees the recorded blocks and the anchor only if ReadArgs allocated it; unknown or null anchors change nothing |
| ArgCalls.ReadThenFree | crates/volamos-core/src/dosargs.rs:561-618 | ReadArgs directly followed by FreeArgs leaves exactly the blocks that were live before |
| ArgRuns.RunAccounts | crates/volamos-core/src/dosargs.rs:561-618 | Over any run of ReadArgs and FreeArgs the live blocks are the first ones, those in the records and those of overwritten records, all disjoint |
| ArgRuns.AllFreed | crates/volamos-core/src/dosargs.rs:605-618 | When every record has been freed the heap is as at the start if and only if nothing was stranded |
| ArgRuns.RunMayStrandIff | crates/volamos-core/src/dosargs.rs:580-597 | With anchors the callers own: a caller that never passes an anchor whose record still holds a block strands nothing, whatever ReadArgs answers; where a call of a run passes one, some outcome of that call strands blocks |
| ArgRuns.MayStrandIff | crates/volamos-core/src/dosargs.rs:580-597 | Before a call: some outcome of it strands blocks if and only if it passes such an anchor; with 0 none does |
| ArgRuns.NothingStrandedIff | crates/volamos-core/src/dosargs.rs:580-597 | After a run: blocks were stranded if and only if such a call succeeded |
| ArgRuns.StrandingRun | crates/volamos-core/src/dosargs.rs:580-618 | A concrete run of two reads with one anchor and one free that strands a block |
| ArgCalls.AnchorReused | crates/volamos-core/src/dosargs.rs:580-618 | Two reads with one anchor and one free, as they run: the first read's block stays live without a record |
| HunkBuilder.BuildHunkExecutable | fixtures/amiga_asm.py:608-666 | The builder as it runs gives a file exactly when every label is known and every branch is in reach, and that file parses and loads as the program means at every pair of addresses |
| HunkBuilder.BuildSingleHunkExecutable | fixtures/amiga_asm.py:669-708 | The same for the single-hunk builder, at every address |
| HunkBuilder.TwoResolvesIff | fixtures/amiga_asm.py:544-578 | The second pass goes through if and only if all labels are known and all displacements fit a word |
| HunkBuilder.CodeBuilder.Resolve | fixtures/amiga_asm.py:544-578 | The in-place patch loops give the specified words, and list each pointer they patch once under its hunk |
| HunkBuilder.CodeBuilder.ResolveSelf | fixtures/amiga_asm.py:580-599 | The same for self pointers |
| HunkBuilder.CodeBuilder.Branch | fixtures/amiga_asm.py:296-305 | A branch appends an opcode and one displacement word of its own |
| HunkBuilder.GroupByHunk | fixtures/amiga_asm.py:643-654 | Grouping keeps each offset exactly once, in order, under its target hunk |
| HunkBuilder.DataBuilder.Align4 | fixtures/amiga_asm.py:95-97 | Pads with fewer than four zero bytes to a whole number of longwords |
| HunkTheorem.TwoHunkFileLoads | fixtures/amiga_asm.py:608-666 | Parsed and loaded at any addresses, every pointer holds its hunk's base plus label plus addend modulo 2^32, every branch lands on its label, every other word is as emitted, and the relocations list each pointer once under its hunk |
| HunkTheorem.SingleHunkFileLoads | fixtures/amiga_asm.py:669-708 | The same for the single-hunk file |
| HunkBuilder.LostSelfPointer | fixtures/amiga_asm.py:608-666 | A concrete program with one self pointer, built as it runs: the file is written and the pointer loads as zero at every address |
| HunkTheorem.TwoHunkAllRight | fixtures/amiga_asm.py:544-578 | All pointers of a two-hunk program are right at every pair of addresses if and only if it has no self pointer |
| HunkTheorem.SingleHunkAllRight | fixtures/amiga_asm.py:580-599 | All pointers of a single-hunk program to its own code are right at every address if and only if each of them is a self pointer |
| HunkLoad.TwoParses | crates/volamos-core/src/loader.rs:1112-1275 | The emitted two-hunk file parses back into its two bodies and its relocations, nothing left over |
| HunkLoad.OneParses | crates/volamos-core/src/loader.rs:1112-1275 | The emitted single-hunk file parses back likewise |
| HunkLoad.TwoHunkBytes | fixtures/amiga_asm.py:627-666 | The two-hunk file byte for byte: the numbers of its blocks, the tables and the relocation groups |
| HunkLoad.OneHunkBytes | fixtures/amiga_asm.py:688-708 | The single-hunk file likewise |
| HunkForms.NamesAside | crates/volamos-core/src/loader.rs:1111-1127 | A load file means the same with names of resident libraries as without |
| HunkForms.TypeFlags | crates/volamos-core/src/loader.rs:1191-1202 | Memory flags on a hunk's type, with their longword of attributes if both are set, change nothing |
| HunkForms.SizeFlags | crates/volamos-core/src/loader.rs:1155-1160 | Nor do those on the sizes in the header |
| HunkForms.BodyTooLong | crates/volamos-core/src/loader.rs:1203-1209 | A body longer than its header entry is refused |
| HunkForms.BadTable | crates/volamos-core/src/loader.rs:1128-1140 | So is a header without hunks or with a range that is empty or past the table |
| HunkResolve.PointersPatched | fixtures/amiga_asm.py:556-573 | After the pointer pass each site holds label plus addend and no other word changed |
| HunkResolve.BranchesPatched | fixtures/amiga_asm.py:574-580 | After the branch pass each displacement, counted from its own word as the M68000 does, lands on its label and no other word changed |
| HunkResolve.PutLongIsPatch | crates/volamos-core/src/loader.rs:1520-1540 | Storing a longword in the loaded bytes is patching two words |
| SocketTable.StepKeeps | crates/volamos-core/src/bsdsocket.rs:2633-2643 | Every call keeps: open sockets at most `dtablesize`, `dtablesize` in 64..4096 and never shrinking, descriptors not negative, pending bits within armed bits |
| SocketTable.Reachable | crates/volamos-core/src/bsdsocket.rs:376-398 | Those hold after every run of calls from a new table |
| SocketTable.StepBelow | crates/volamos-core/src/bsdsocket.rs:2741-2751 | Every open descriptor stays below the next one if and only if the call does not open descriptor 0x7FFFFFFF |
| SocketEffects.OpensIff | crates/volamos-core/src/bsdsocket.rs:495-538 | When socket, accept and Dup2Socket open a descriptor, and which |
| SocketEffects.OpenedIs | crates/volamos-core/src/bsdsocket.rs:624-671 | The new entry: its connection, nothing armed or queued, connected if accepted, listening and connected as what it was copied from |
| SocketEffects.OtherIs | crates/volamos-core/src/bsdsocket.rs:2705-2762 | What every call leaves of every other descriptor |
| SocketEffects.NumbersOn | crates/volamos-core/src/bsdsocket.rs:532-534 | The next number is one more, or 1 after the largest |
| SocketTable.OpensUnused | crates/volamos-core/src/bsdsocket.rs:532-534 | Until that happens socket and accept always open an unused descriptor and disturb no other |
| SocketTable.WrappedReuses | crates/volamos-core/src/bsdsocket.rs:2717-2758 | A concrete run after which socket replaces an open descriptor |
| EventQueue.NoneTwiceWhileWaiting | crates/volamos-core/src/bsdsocket.rs:2822-2860 | In any run of any calls, while a descriptor stays open with something queued, no other descriptor is handed back twice |
| EventQueue.DrainsOnce | crates/volamos-core/src/bsdsocket.rs:2822-2860 | With no new events each pending descriptor is handed back once with exactly its queued bits, then -1, and nothing else changes |
| EventQueue.NextIsNearest | crates/volamos-core/src/bsdsocket.rs:2833-2838 | The descriptor handed back is the pending one nearest past the cursor, going round |
| EventBits.NewBitsIff | crates/volamos-core/src/bsdsocket.rs:1691-1739 | One poll answer queues for each of the five events exactly when it happened, from the entry and the answer alone |
| EventBits.PollQueues | crates/volamos-core/src/bsdsocket.rs:1691-1739 | After a poll an event is queued if and only if it was before or happened; no other bit and nothing else of the entry changes |
| EventBits.ArmedPolledReported | crates/volamos-core/src/bsdsocket.rs:2822-2866 | From arming through a poll to GetSocketEvents: the descriptor is handed back once with exactly the events that stayed or happened |
| EventBits.NewsIff | crates/volamos-core/src/bsdsocket.rs:1733-1745 | A poll is news, and may raise the event signal, if and only if some event happened |
| EventBits.MaskArms | crates/volamos-core/src/bsdsocket.rs:1064-1076 | SO_EVENTMASK arms for the mask asked for, and of what was queued keeps what stays armed |
| EventBits.SizeAsked | crates/volamos-core/src/bsdsocket.rs:2633-2643 | A larger table size asked for becomes the size, held to 64..4096 |
| EventBits.AnswersReady | crates/volamos-core/src/bsdsocket.rs:1650-1677 | Which poll answers make a descriptor ready in which of the three sets |
| EventBits.SignalsTaken | crates/volamos-core/src/bsdsocket.rs:1497-1530 | The pending signals asked for are taken and all others stay |
| SocketLibrary.BsdSocketState.SocketCall | crates/volamos-core/src/bsdsocket.rs:495-538 | The handler's table, result and errno, in the order the code checks |
| SocketLibrary.BsdSocketState.AcceptCall | crates/volamos-core/src/bsdsocket.rs:624-671 | The same for accept, EMFILE before EBADF |
| SocketLibrary.BsdSocketState.Dup2SocketCall | crates/volamos-core/src/bsdsocket.rs:2705-2762 | The same for Dup2Socket: only a growing table needs room, the new entry is armed for nothing |
| SocketLibrary.BsdSocketState.SetEventMask | crates/volamos-core/src/bsdsocket.rs:1064-1076 | Arms a descriptor and drops what it is no longer armed for |
| SocketLibrary.BsdSocketState.GetSocketEvents | crates/volamos-core/src/bsdsocket.rs:2822-2866 | Collecting, sorting and searching hands back the specified descriptor with its bits |
| SocketLibrary.BsdSocketState.QueueEvents | crates/volamos-core/src/bsdsocket.rs:1691-1739 | Every armed descriptor is queued what its poll answer means, in whatever order the table is walked |
| SocketLibrary.BsdSocketState.WaitSelectCall | crates/volamos-core/src/bsdsocket.rs:1497-1752 | On success each set holds exactly its own open ready descriptors below nfds and the result counts all three; on a poll error or a pending signal all three sets are unchanged |
| SocketLibrary.BsdSocketState.MarkReady | crates/volamos-core/src/bsdsocket.rs:1650-1677 | Clearing and marking the sets gives exactly the ready interests, each counted once per set |
| WaitSelect.PickedReady | crates/volamos-core/src/bsdsocket.rs:1553-1569 | Picking from the list of interests is picking the set's open ready members below nfds |
| WaitSelect.FdAdd | crates/volamos-core/src/bsdsocket.rs:1468-1472 | Setting a bit in the packed longwords adds that descriptor and no other |
| FdBits.AddedBit | crates/volamos-core/src/bsdsocket.rs:1450-1472 | In one word, setting a bit sets that one only |
| FdBits.BitsDouble | crates/volamos-core/src/bsdsocket.rs:1450-1456 | Bit b of a word is 2 to the b |
| WaitSelect.InSetAt | crates/volamos-core/src/bsdsocket.rs:1450-1456 | Descriptor 32k + b is bit b of longword k |
| ScatterGather.ReceivedWhole | crates/volamos-core/src/bsdsocket.rs:980-1012 | Over distinct bytes of memory clear of the flags word the iovecs hold the received bytes in order and whole, and no other byte but the flags changed |
| ScatterGather.ReceivedThenSent | crates/volamos-core/src/bsdsocket.rs:944-1012 | The same message sent after it was received starts with the data received, although only a send cuts each iovec to the size of memory |
| ScatterGather.StoredMeans | crates/volamos-core/src/bsdsocket.rs:999-1011 | Overlapping iovecs or not, each address holds the last byte sent to it and every other address is as it was |
| ScatterGather.ClampedTargets | crates/volamos-core/src/bsdsocket.rs:948-954 | Cutting each length to the size of memory keeps the first addresses, as many as memory has bytes |
| ScatterGather.RecvMsg | crates/volamos-core/src/bsdsocket.rs:980-1024 | The loops place exactly those bytes, never reading past the host buffer, and clear the flags; failures write nothing |
| ScatterGather.SendMsg | crates/volamos-core/src/bsdsocket.rs:944-972 | The buffer handed to the host is the bytes of the iovecs in order |
| ScatterGather.ListKept | crates/volamos-core/src/bsdsocket.rs:921-940 | A receive that touches neither header nor table leaves the message's iovec list as it was |
| MessageLayout.ListRead | crates/volamos-core/src/bsdsocket.rs:921-940 | Of a message and a table written as big-endian longwords at the offsets of `struct msghdr` and `struct iovec` the list read is the list written |
| MessageLayout.ReceivedLies | crates/volamos-core/src/bsdsocket.rs:980-1024 | Received over distinct bytes, byte i of iovec k is the byte of the data after those for the iovecs before, `msg_flags` is zero and no other byte changes |
| MessageLayout.SentTakes | crates/volamos-core/src/bsdsocket.rs:944-972 | A send takes its bytes from the same places |
| MessageLayout.RoomIs | crates/volamos-core/src/bsdsocket.rs:980-998 | The host is asked for as much as the iovecs name, or as much as memory has |
| BufferedStream.StepRefines | crates/volamos-core/src/dosbuf.rs:54-72 | After at least one read, FGetC, UnGetC(-1) and FGets are the steps of a plain stream position |
| BufferedStream.RunDeliversPrefix | crates/volamos-core/src/dosbuf.rs:54-145 | From the start, after a first read, any mix of the three delivers, with un-got characters retracted, the stream up to its position |
| BufferedStream.LinesConcatenate | crates/volamos-core/src/dosbuf.rs:212-242 | Successive FGets results concatenate to the stream, a newline only ever ends one |
| BufferedStream.LinesAreTheStream | crates/volamos-core/src/dosbuf.rs:212-242 | Lines read until one comes back empty are the whole stream |
| BufferedStream.GetCPops | crates/volamos-core/src/dosbuf.rs:54-72 | Whatever was pushed back, a read takes the first of what is left |
| BufferedStream.UnGetCPushes | crates/volamos-core/src/dosbuf.rs:127-145 | A push succeeds exactly when none is pending and is what is read next |
| BufferedStream.ColdTakeBack | crates/volamos-core/src/dosbuf.rs:135-140 | UnGetC(-1) before any read makes the next read report the end, rightly only when there is nothing to read |
| BufferedStream.DosState.ReadBufferedByte | crates/volamos-core/src/dosfile.rs:974-980 | A handle is read as one stream, for the current input the rest of the command line and then the file |
| BufferedStream.DosState.FGetC | crates/volamos-core/src/dosbuf.rs:54-72 | The call on one handle's maps is the specified read, sets IoErr only when the host was asked, and leaves other handles alone |
| BufferedStream.DosState.FGetsInto | crates/volamos-core/src/dosbuf.rs:212-242 | The loop stores the specified line and its terminator and nothing past it; a null result exactly for an empty line or no room |
| DateStamp.ClockSplit | crates/volamos-core/src/dosdate.rs:65-88 | The split is normal, and from 1978 on stands for exactly the elapsed fiftieths of a second if and only if the days fit their field |
| DateStamp.NewYear | crates/volamos-core/src/dosdate.rs:65-88 | At the first moment of a year, by the calendar from 1970, the stamp has the days from 1978 to that year |
| DateStamp.BeforeEpoch | crates/volamos-core/src/dosdate.rs:65-88 | Before 1978 the stamp is zero |
| DateStamp.ComparesTicks | crates/volamos-core/src/dosdate.rs:133-140 | On normal stamps CompareDates has the sign of the difference of the tick counts |
| DateStamp.OnlyNormalCompares | crates/volamos-core/src/dosdate.rs:133-140 | A stamp compares rightly with every normal stamp if and only if it is normal itself |
| DateStamp.ClockOrdersStamps | crates/volamos-core/src/dosdate.rs:65-140 | A later clock never gives an earlier stamp, and a later one exactly in a later tick |
| DateStamp.WriteNow | crates/volamos-core/src/dosdate.rs:91-102 | The three longwords in guest memory read back as the stamp, no other byte changes |

## Left out

- ArgBorrow.BorrowConserves: stated for string slots; a borrowed value that goes into a /N slot is parsed, and the match fails when it is no number (`ArgMatch.Finish` models that, `ArgBorrow.BorrowLends` covers the order).
- AnchorRun.ScanReportsItinerary: needs the host to answer lookups as its listings do and not to change during a scan; links, sizes and the contents of FileInfoBlocks beyond name and kind are not modelled.
- AnchorUnique.ItineraryUnique: for wildcard patterns; a literal pattern's own name may recur below it.
- HunkBuilder.BuildHunkExecutable: for bodies of fewer than 2^30 longwords, the most a hunk size field can say.
- SocketLibrary.BsdSocketState.WaitSelectCall: the three descriptor sets and the signal longword do not share memory, and the timeout and how long poll blocks are not modelled.
- ScatterGather.RecvMsg: the host returns no more bytes than the buffer holds; guest memory is smaller than 4 GiB where a send cuts lengths.
- Instruction encoders of the assembler: they append plain words, modelled by `CodeBuilder.Word` and `MoveLLabel`, `MoveLCodeLabel`, `DcLSelfPtr`, `Branch` for those with a label.
- Loader: hunk bodies of type BSS, metadata blocks, overlays and the other relocation kinds; relocation of hunks with CODE and DATA bodies is modelled.
- Guest heap: any placement of fresh, disjoint, aligned blocks; the free-list itself is not modelled. Guest memory outside the result array and the heap is left as it is.
- UTF-8 conversion of file names and patterns: names are byte strings.
- Pattern engine and sidecar files: arbitrary predicates. The scanner's theorems take path resolution as an arbitrary function that agrees with listings.
- HostResolver.VfsCoherent: for host directories that exist, with file names that hold no slash and no colon; an assign is the list of directories it expands to, so the expansion itself, its depth limit and volumes created on first use are not modelled.
- ArgStores.NothingLostIff: about the matching loop; `ArgDelivery.AllDeliveredIff` is about the whole match.
- ArgRuns.NothingStrandedIff: other users of the guest heap are not in the run.
- AChain blocks are never freed by the original, so nothing is proved about their release.
- Host effects of sockets (connect, bind, send and receive on the wire, name lookups, options other than SO_EVENTMASK, ioctl, errno translation, SetErrnoPtr mirroring): their outcome is a parameter.
- SocketBaseTagList's tag walking: a cyclic chain of tags does not end; its effect on `dtablesize` is modelled.
- BufferedStream.DosState.FGetC: the current input and the command line stay the same ones; SelectInput and programs started by the guest are not modelled.
- FRead, FWrite, FPutC, SetVBuf and Flush: FRead reads past a pushed-back character, the others only write or do nothing. Read errors of an open host file are not modelled.
- Delay and the register marshalling, trap dispatch and registration of the handlers.
- The CPU backend and the memory sanitizer.
