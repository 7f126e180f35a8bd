# Verified models of Theseus components

This project models eight components of the Theseus operating system in Dafny and proves what they
promise. `dafny verify dfyconfig.toml` checks all of it.

| files | component |
|---|---|
| `BlockAllocator`, `AllocatorRuns`, `AllocatorClass` | the fixed-size block allocator: nine intrusive free lists, stored in the freed blocks themselves, in front of a fallback heap |
| `CMemory`, `CString` | tlibc's word-at-a-time `memcmp` and `memcpy`, overlapping `memmove`, `strstr`, and `strtok_r` with its state between calls |
| `PercentEncoding`, `PercentIterators` | percent encoding (section 2.1 of RFC 3986): the laws of encoding and decoding, the chunking encoder, the backtracking decoder and the fast path `if_any` |
| `ShellJobs`, `ShellTables`, `ShellHistory` | the shell's job table, its pipes and the global stream map, and the command history |
| `Shbench` | the shbench worker: a ring of live allocations with a moving window of saved ones |
| `Ping` | the ping loop (echo messages of RFC 792) with late, duplicate and unsolicited replies |
| `Writers` | tlibc's truncating `StringWriter` under `CountingWriter` |
| `SwapParser` | the parser of swap tuples |

`Bytes` holds bytes, little-endian words and `Option`.

Operations are given twice where the program updates something in place: as a function on a value that
describes the whole state, about which the theorems are proved, and as a class or method with the program's
own fields, arrays and loops, whose postcondition is that function.

## How the outside world is modelled

- The heap is a sequence of bytes. A list link is eight little-endian bytes inside a free block, so a client
  write that strayed into a listed block would corrupt a list; that this cannot happen is proved, not assumed.
- The fallback heap is known only by its contract (`FallbackContract`): it fails, or it returns a non-null,
  aligned range inside the heap that is disjoint from every range it has granted and not had back. Its answer
  is a parameter of `allocate`. Every grant counts as at least one byte long. At any time it may write anything
  into memory it has not granted, where it keeps its own nodes.
- The shbench worker's allocator returns null or an address the worker does not hold, which is what
  `AllocatorRuns.AllocatedIsNew` proves of the block allocator.
- C strings live in memory that ends at their terminator, so every index check also shows that nothing is
  read or written past it; the one search that can read past it says so in its result.
- Stdio queues are numbered in order of creation and carry only their EOF flag. The scheduler's view of each
  task is a function handed to `task_handler`, and new task ids are unused ones. `unblock` fails on exited
  tasks and makes the others runnable.
- The clock, the network and the socket of ping are the inputs of each turn of the loop. 64-bit arithmetic
  wraps, as it does in the default release build.

## Properties of the code that are false, and exactly when they hold

- `memcpy` does the work of `memmove` on every memory exactly when the destination is not above the source,
  the regions are disjoint, or a single word is copied (`MemcpyExact`).
- `strstr` on an empty haystack returns null even for an empty needle (`Strstr`).
- `strcasestr` finds the least occurrence up to the case of letters, on every haystack, exactly for needles made
  of ASCII letters with at most a space in front (`CaseExact`). Its mask ignores bit 5 of every byte, so any
  other byte also matches a second one, as `[` matches `{` and `@` matches a backquote (`FlipWrong`); and a
  space further on equals the haystack's terminator, so that the search reports a match that is none or reads on
  past the terminator (`SpaceWrong`).
- Decoding undoes encoding on all inputs exactly for sets with `%` or with all hex digits (`RoundTripSets`);
  of the built-in sets that is only the path-segment set. Encoding is invisible to decoding exactly for sets
  with neither `%` nor a hex digit (`TransparentSets`).
- Going up and back down the history restores it exactly when `buffered_cmd_recorded` was clear or the history
  was empty (`NavigationRestores`). Enter and Ctrl+C leave the flag set, so a run can reach a prompt where
  navigating drops a command from the history (`StaleFlagReached`, `HistoryLost`).
- The documentation of `JobStatus::Stopped` says that all tasks of a stopped job are blocked or exited. After
  `task_handler` that holds exactly when no task is runnable, or the job was marked as running and no task is
  blocked (`StoppedExact`); after `fg` and `bg` exactly when the last task has not exited or all have
  (`ResumeExact`). Runs of a two-task pipeline reach both failures (`StoppedMayRun`, `PromptLost`). The
  documentation of `Running` is right (`StatusTrue`).
- A foreground job with a blocked task, as after Ctrl+Z, gives the prompt back exactly when the run is not stuck:
  `fg` on a job whose last task had exited makes it so, until all tasks of that job have exited (`RunReturns`).
  A run of that pipeline is stuck (`PromptLost`).
- shbench keeps its saved window until the next sweep exactly when the window is empty or does not start at slot 0
  (`SavedSpared`). The very first window starts there and, with five slots or more, is overwritten
  at once (`FirstWindow`).
- At exit shbench leaks the saved slots at or beyond `mp` (`LeakCount`). Their number is fixed by the parameters
  (`Leftover`): none for rings of fewer than five slots (`SmallRing`); for a ring of 5k slots k or none, depending
  on the allocations of a round modulo 21 (`FifthLeft`), and k for both built-in ranges of sizes (`RegularLeft`,
  `LargeLeft`).
- shbench prints 19300 allocations per iteration whatever the block sizes. That is the number for the regular
  sizes, and the printed total is then right exactly when the threads divide the iterations evenly; for the
  large sizes an iteration makes 3871 allocations (`PrintedTotal`).
- In every run of ping, `total_time` is the sum of the times exactly when they add up to less than 2^64; the
  mean never exceeds the maximum, and is not below the minimum exactly when the wrapped sum is at least the
  minimum times the number of replies (`RunMean`). A run with a reply stamped in the future breaks this
  (`MeanOutside`); without one, and with the clock below 2^48 ms, it cannot happen (`PastStatistics`). The
  number of requests sent is the number asked for exactly when that is below 2^16 (`AllResolved`).
- C11 wants `snprintf` to terminate every buffer that is not empty. The writers do so, whatever the buffer held,
  exactly when it has at least two bytes and some write reaches the inner writer (`TerminatesExactly`). An empty
  format makes no write at all and `%s` with an empty string only an empty `write_all`; a buffer of any size then
  stays as it was (`Unterminated`).

## Model

| member | source | states |
|---|---|---|
| `BlockAllocator.ListIndexFits` | kernel/block_allocator/src/lib.rs:34-40 | `list_index` is the smallest class whose blocks fit both size and alignment, and none exactly when 2048 bytes are not enough |
| `BlockAllocator.BackingAligned` | kernel/block_allocator/src/lib.rs:95-99 | a block aligned to its size is aligned for every layout of its class |
| `BlockAllocator.SetLinkGet` | kernel/block_allocator/src/lib.rs:118-126 | a link written into a block as eight bytes reads back as the same link |
| `BlockAllocator.ChainSurvives` | kernel/block_allocator/src/lib.rs:42-44 | a write inside one grant leaves a chain of links through other grants as it was |
| `BlockAllocator.ChainUnique` | kernel/block_allocator/src/lib.rs:42-49 | the chain a list head starts through memory is unique, so it is finite and acyclic |
| `BlockAllocator.WritePreserves` | kernel/block_allocator/src/lib.rs:108-115 | any bytes a client writes into a block it holds keep the invariant of the lists, the grants and the live blocks |
| `BlockAllocator.OutsidePreserves` | kernel/block_allocator/src/lib.rs:46-49 | any bytes the fallback heap writes into memory it has not granted keep the invariant |
| `BlockAllocator.FallbackPreserves` | kernel/block_allocator/src/lib.rs:94-104 | a block newly granted by the fallback heap keeps the invariant |
| `BlockAllocator.PopPreserves` | kernel/block_allocator/src/lib.rs:87-93 | taking the head of a list removes exactly that block from it and keeps the invariant |
| `BlockAllocator.DeallocatePreserves` | kernel/block_allocator/src/lib.rs:115-133 | freeing a live block puts it at the front of the list of its class, or returns it to the fallback heap, and keeps the invariant |
| `BlockAllocator.LiveAreSafe` | kernel/block_allocator/src/lib.rs:80-106 | live allocations are non-null, aligned and big enough for their layouts, inside the heap and pairwise disjoint |
| `BlockAllocator.ListedAreSafe` | kernel/block_allocator/src/lib.rs:108-127 | listed blocks are aligned, inside the heap, disjoint from live ones and from blocks of every list |
| `AllocatorRuns.StepPreserves` | kernel/block_allocator/src/lib.rs:86-133 | every legal step dereferences only heap addresses and keeps the invariant |
| `AllocatorRuns.RunSafety` | kernel/block_allocator/src/lib.rs:86-133 | in every run of allocations, deallocations, client writes and writes of the fallback heap: live blocks are aligned, in the heap and disjoint; each list is a chain of distinct blocks; no block is in two lists or both listed and live |
| `AllocatorRuns.DataKept` | kernel/block_allocator/src/lib.rs:86-133 | no step, of a client or of the fallback heap, changes the bytes or layout of an allocation that is neither freed nor written by its holder |
| `AllocatorRuns.AllocatedIsNew` | kernel/block_allocator/src/lib.rs:80-106 | `allocate` never returns an address already held |
| `AllocatorRuns.AllocateExact` | kernel/block_allocator/src/lib.rs:80-106 | `allocate` returns null if and only if no block of the layout's class is listed and the fallback heap has nothing; otherwise the first listed block or the fallback's answer, which is entered as live with this layout and is granted with the size and alignment of its class, or of the layout itself if it has none |
| `AllocatorRuns.PoppedBlock` | kernel/block_allocator/src/lib.rs:89-93 | a block taken from a list has a null first word, the list goes on with the next block, and the other heads stay |
| `AllocatorRuns.StepCounts` | kernel/block_allocator/src/lib.rs:86-133 | live plus listed blocks of a class change only when a block is drawn from the fallback heap, and then by one |
| `AllocatorRuns.DrawnIsPeak` | kernel/block_allocator/src/lib.rs:86-133 | in every run and for each class, blocks ever drawn from the fallback heap = live + listed = the peak number live at once |
| `AllocatorRuns.AskedOnlyAtPeak` | kernel/block_allocator/src/lib.rs:87-104 | the fallback heap is asked for a fixed-size block exactly when the number live equals the peak so far |
| `AllocatorRuns.BlocksNeverReturned` | kernel/block_allocator/src/lib.rs:115-127 | a fixed-size block is never given back to the fallback heap |
| `AllocatorRuns.FreeThenAllocate` | kernel/block_allocator/src/lib.rs:86-133 | freeing a block and allocating any layout of its class returns the same block without asking the fallback heap and restores lists and grants |
| `AllocatorClass.FixedSizeBlockAllocator.constructor` | kernel/block_allocator/src/lib.rs:53-70 | a new allocator on a heap of bytes has nine empty lists and satisfies the invariant |
| `AllocatorClass.FixedSizeBlockAllocator.FallbackAlloc` | kernel/block_allocator/src/lib.rs:72-78 | passes on the fallback answer and enters it in the books |
| `AllocatorClass.FixedSizeBlockAllocator.Allocate` | kernel/block_allocator/src/lib.rs:86-106 | updates list heads and heap bytes in place as the state function says, returns its pointer and keeps the invariant |
| `AllocatorClass.FixedSizeBlockAllocator.Deallocate` | kernel/block_allocator/src/lib.rs:115-133 | updates list heads and heap bytes in place as the state function says and keeps the invariant |
| `CMemory.CompareMeaning` | tlibc/src/string.rs:44-73 | bytewise comparison is 0 exactly on equal regions, and otherwise the byte of the first region minus that of the second at the first mismatch |
| `CMemory.CompareOrder` | tlibc/src/string.rs:44-73 | it is negative if and only if the byte of the first region is the smaller one at the first mismatch, and positive if and only if it is the greater one |
| `CMemory.DiffInWord` | tlibc/src/string.rs:49-58 | inside a differing word the byte loop finds the difference, so `unreachable!()` is never reached |
| `CMemory.Memcmp` | tlibc/src/string.rs:44-73 | word-at-a-time comparison equals bytewise comparison for every length |
| `CMemory.MovedByte` | tlibc/src/string.rs:90-107 | in the memory after a move, each byte of the destination is the old source byte and every other byte is as it was |
| `CMemory.Memmove` | tlibc/src/string.rs:90-107 | for every overlap the memory after the call is that one |
| `CMemory.Memcpy` | tlibc/src/string.rs:76-87 | copies words and then bytes in order; equals `memmove` whenever `CopySafe` holds |
| `CMemory.CopyByte` | tlibc/src/string.rs:76-87 | for any overlap, each copied byte is the old source byte, or the final value of that byte if an earlier chunk overwrote it |
| `CMemory.MemcpyExact` | tlibc/src/string.rs:76-87 | `memcpy` equals `memmove` on all memories if and only if the destination is not above the source, the regions are disjoint, or n is one word |
| `CString.SpanMaximal` | tlibc/src/string.rs:188-196 | a span is the longest run of bytes whose membership equals `cmp` |
| `CString.InnerStrspn` | tlibc/src/string.rs:172-197 | the two scanning loops compute the span for the set of delimiter bytes |
| `CString.Strspn` | tlibc/src/string.rs:376-379 | the length of the leading run of delimiter bytes |
| `CString.Strpbrk` | tlibc/src/string.rs:341-349 | the first byte that is a delimiter, or null when there is none before the terminator |
| `CString.InnerStrstr` | tlibc/src/string.rs:381-403 | on every haystack and needle, the outcome of the two loops: the least offset at which the comparison reaches the end of the needle or runs past the haystack's terminator decides, and without one the answer is null |
| `CString.SearchExact` | tlibc/src/string.rs:381-403 | up to the mask, the search finds the least occurrence on every haystack if and only if no needle byte after the first masks to 0 |
| `CString.Strstr` | tlibc/src/string.rs:405-408 | the least occurrence on a non-empty haystack, null exactly when there is none; null on an empty haystack |
| `CString.CaseExact` | tlibc/src/string.rs:409-412 | the case-blind search finds the least occurrence up to the case of letters on every haystack if and only if the needle consists of ASCII letters with at most a space in front |
| `CString.FlipWrong` | tlibc/src/string.rs:393-395 | for a needle byte that is neither a letter nor a space, the haystack with bit 5 of that byte flipped is reported as a match |
| `CString.Strcasestr` | tlibc/src/string.rs:409-412 | the outcome of the search for every needle, and the least occurrence up to case for needles of that kind |
| `CString.StrtokR` | tlibc/src/string.rs:420-454 | buffer, token and `*lasts` after a call are those of the state function |
| `CString.RunsExact` | tlibc/src/string.rs:435-453 | the listed runs are exactly the maximal delimiter-free runs of the string |
| `CString.RunsOrdered` | tlibc/src/string.rs:435-453 | the runs come in order of position and do not overlap |
| `CString.PlanMeaning` | tlibc/src/string.rs:435-453 | each call, by its own delimiters, takes the first maximal run of the string from where the last call stopped, and none exactly when the string is used up or only delimiters are left |
| `CString.ResumeMeaning` | tlibc/src/string.rs:442-453 | after a call `*lasts` is null if the call found no run or its run ended at the terminator, and otherwise points behind the delimiter that ended the run |
| `CString.StrtokSession` | tlibc/src/string.rs:420-454 | after any number of calls, each with any delimiters, the calls have returned exactly those runs, each cut off with a NUL and nothing else changed |
| `CString.StrtokFixed` | tlibc/src/string.rs:420-454 | with the same delimiters in every call, the k-th call returns the k-th maximal run and every call past the last run returns null |
| `CString.StrtokBuffer` | tlibc/src/string.rs:442-448 | the buffer changes only by NULs written over a delimiter of one of the calls |
| `CString.StrtokTokens` | tlibc/src/string.rs:442-453 | every token returned so far is still in the buffer, intact and NUL-terminated |
| `PercentEncoding.RoundTripExact` | libs/percent_encoding/lib.rs:257-281 | on each input, decoding undoes encoding if and only if the input has no escape that the encoder leaves alone |
| `PercentEncoding.DigitTable` | libs/percent_encoding/lib.rs:347-352 | a byte is a digit of value n if and only if it is the n-th character of `0123456789abcdef` or of `0123456789ABCDEF` |
| `PercentEncoding.EscapeTable` | libs/percent_encoding/lib.rs:182-202 | the escape of a byte is a percent sign and the upper-case digits of its high and low halves |
| `PercentEncoding.DecodeDigits` | libs/percent_encoding/lib.rs:347-370 | a percent sign and two digits, each in either case, decode to the byte they stand for |
| `PercentEncoding.DecodePlain` | libs/percent_encoding/lib.rs:359-370 | any other byte decodes to itself |
| `PercentEncoding.RoundTrip` | libs/percent_encoding/lib.rs:142-155 | for a set containing `%`, decoding undoes encoding on every byte string |
| `PercentEncoding.RoundTripSets` | libs/percent_encoding/lib.rs:182-202 | decoding undoes encoding on all inputs exactly for sets with `%` or with every hex digit |
| `PercentEncoding.Transparent` | libs/percent_encoding/lib.rs:257-281 | for a set with neither `%` nor hex digits, decoding an encoding equals decoding the input |
| `PercentEncoding.TransparentSets` | libs/percent_encoding/lib.rs:347-370 | that law holds on all inputs exactly for those sets |
| `PercentEncoding.EncodeIdentity` | libs/percent_encoding/lib.rs:204-215 | encoding changes an input exactly when it has a byte of the set, and then makes it longer |
| `PercentEncoding.IdempotentSets` | libs/percent_encoding/lib.rs:257-281 | encoding twice is encoding once on all inputs exactly for sets that no escape of theirs meets |
| `PercentEncoding.EscapesFreeMeaning` | libs/percent_encoding/lib.rs:60-64 | for sets with all non-ASCII bytes this means: neither `%` nor a character of `0123456789ABCDEF` is in the set |
| `PercentEncoding.BuiltInSets` | libs/percent_encoding/lib.rs:118-168 | every built-in set has all non-ASCII bytes and no hex digit, and only the path-segment set has `%` |
| `PercentEncoding.BuiltInMembers` | libs/percent_encoding/lib.rs:110-168 | a byte is in a built-in set if and only if it is in its base set or among the characters the definition lists |
| `PercentEncoding.BuiltInLaws` | libs/percent_encoding/lib.rs:110-168 | for each built-in set and each of the three laws, whether it holds on all inputs: round trip exactly for the path-segment set, the other two exactly for the others |
| `PercentIterators.ChunksEncode` | libs/percent_encoding/lib.rs:254-281 | chunks are non-empty, at most one per byte, at least one if there is input, concatenate to the bytewise encoding, and the ASCII assertions hold exactly when each non-ASCII byte is in the set |
| `PercentIterators.FewChunks` | libs/percent_encoding/lib.rs:212-214 | there is at most one chunk exactly when the input has at most one byte or nothing to encode |
| `PercentIterators.PercentEncode.Next` | libs/percent_encoding/lib.rs:257-281 | one step of the iterator yields and leaves what the state function says |
| `PercentIterators.PercentEncode.SizeHint` | libs/percent_encoding/lib.rs:283-289 | the hint bounds the number of chunks still to come in every state |
| `PercentIterators.PercentEncode.IntoCow` | libs/percent_encoding/lib.rs:301-318 | the conversion has the bytes of the encoding and borrows exactly when there is at most one chunk |
| `PercentIterators.AfterPercentSign` | libs/percent_encoding/lib.rs:347-357 | consumes two hex digits and yields their byte, or restores the iterator |
| `PercentIterators.DecodeFromIsDecode` | libs/percent_encoding/lib.rs:359-370 | decoding from a position equals bytewise decoding of the rest |
| `PercentIterators.DecodeLength` | libs/percent_encoding/lib.rs:372-375 | the decoding has between a third of and all the remaining bytes |
| `PercentIterators.PercentDecode.Next` | libs/percent_encoding/lib.rs:362-370 | yields the head of the decoding of what is left, and nothing exactly at the end |
| `PercentIterators.PercentDecode.SizeHint` | libs/percent_encoding/lib.rs:372-375 | a third of the remaining length and that length bound the bytes still to come in every state |
| `PercentIterators.PercentDecode.IfAny` | libs/percent_encoding/lib.rs:388-405 | some result exactly when decoding changes the input, and then the full decoding |
| `PercentIterators.PercentDecode.IntoCow` | libs/percent_encoding/lib.rs:378-385 | equals the bytewise decoding, borrowed exactly when decoding changes nothing |
| `ShellHistory.PressAll` | applications/shell/src/lib.rs:344-383 | over any run of Up, Down, Enter, Ctrl+C and edits the history index never exceeds the history length |
| `ShellHistory.DedupMeaning` | applications/shell/src/lib.rs:527-529 | deduplication removes exactly the repeats next to each other and keeps the newest entry |
| `ShellHistory.EnterRecords` | applications/shell/src/lib.rs:526-554 | Enter on a command leaves a history without repeats, with all its commands and the new one last, clears line and index and leaves the flag |
| `ShellHistory.KeysElse` | applications/shell/src/lib.rs:391-403 | Ctrl+C at a prompt clears line and index and nothing else; with a foreground job, or on an empty line, Enter and Ctrl+C leave the history alone |
| `ShellHistory.UpsDowns` | applications/shell/src/lib.rs:343-383 | the state after k Ups and more than k Downs from a prompt, in every case |
| `ShellHistory.NavigationRestores` | applications/shell/src/lib.rs:343-383 | everything is restored exactly when the flag was clear or the history empty; log, line and index exactly when, besides, the line was not empty |
| `ShellHistory.HistoryLost` | applications/shell/src/lib.rs:363-374 | with the flag left set, navigating removes the newest history entry |
| `ShellHistory.StaleFlagReached` | applications/shell/src/lib.rs:507-554 | Enter does not clear the flag, so such a prompt is reachable |
| `ShellHistory.Shell.GotoPreviousCommand` | applications/shell/src/lib.rs:344-360 | updates the four fields as the state function for Up says |
| `ShellHistory.Shell.GotoNextCommand` | applications/shell/src/lib.rs:363-383 | updates the four fields as the state function for Down says |
| `ShellHistory.Shell.PressEnter` | applications/shell/src/lib.rs:507-554 | records and deduplicates the line and returns to the prompt, leaving the flag, and does nothing with a foreground job or an empty line |
| `ShellHistory.Shell.PressCtrlC` | applications/shell/src/lib.rs:391-403 | without a foreground job clears the line and the index, leaving the flag |
| `ShellJobs.BuildPreserves` | applications/shell/src/lib.rs:701-770 | starting a job keeps the tables in agreement and its queues apart from all others |
| `ShellJobs.HandlerPreserves` | applications/shell/src/lib.rs:1012-1163 | `task_handler` keeps the tables in agreement and EOF exact, whatever it observes of each task |
| `ShellJobs.CtrlDPreserves` | applications/shell/src/lib.rs:474-482 | Ctrl+D closes only the input of the foreground job and keeps the invariant |
| `ShellJobs.ResumePreserves` | applications/shell/src/lib.rs:1382-1444 | `fg` and `bg` keep the invariant |
| `ShellJobs.OthersPreserves` | kernel/app_io/src/lib.rs:107-119 | other shells inserting and removing their own streams keep the invariant |
| `ShellJobs.StepPreserves` | applications/shell/src/lib.rs:385-629 | every step of the shell keeps the invariant |
| `ShellJobs.LaunchExact` | applications/shell/src/lib.rs:513-549 | in every run, a command started at a prompt becomes a running job of exactly its tasks in order, is in the foreground if and only if it is not in the background, and leaves the other jobs alone; with a foreground job nothing changes |
| `ShellJobs.ResumeMoves` | applications/shell/src/lib.rs:1382-1444 | in every run, `fg` on an existing job puts it in the foreground whether or not its tasks could be unblocked, `bg` does not, and nothing but the status of that job changes |
| `ShellJobs.CtrlDCloses` | applications/shell/src/lib.rs:474-482 | Ctrl+D sets EOF on the first pipe of the foreground job and on no other queue |
| `ShellJobs.HandlerCloses` | applications/shell/src/lib.rs:1062-1088 | after `task_handler` a queue is at EOF if and only if it was, or it is a pipe beside or the stderr queue of a task seen exited |
| `ShellJobs.HandlerForeground` | applications/shell/src/lib.rs:1090-1130 | `task_handler` empties the foreground if and only if all tasks of the job have exited, or it was running and a task is blocked |
| `ShellJobs.RunAgrees` | applications/shell/src/lib.rs:139-149 | in every reachable state of every run, `task_to_job` is the exact inverse of the task lists, this shell's stream-map keys are exactly its tasks, and the foreground job exists |
| `ShellJobs.RunQueuesAgree` | applications/shell/src/lib.rs:64-90 | in every reachable state, a job with N tasks has N+1 pipes and N stderr queues, a queue is at EOF exactly when a task at one of its ends was seen exited or the user closed it, and each task is wired to its place in the chain |
| `ShellJobs.ExitedAreClosed` | applications/shell/src/lib.rs:1062-1088 | after `task_handler`, the pipes on both sides and the stderr queue of every task seen exited are at EOF |
| `ShellJobs.RemovedJobs` | applications/shell/src/lib.rs:1121-1160 | a job leaves the table exactly when all its tasks have exited, and then all its queues are at EOF and its tasks are in neither map |
| `ShellJobs.OthersUntouched` | applications/shell/src/lib.rs:1153-1160 | `task_handler` leaves other shells' streams alone |
| `ShellJobs.StatusTrue` | applications/shell/src/lib.rs:1090-1107 | a job left running has no blocked task, and a newly stopped one has one and leaves the foreground |
| `ShellJobs.StoppedExact` | applications/shell/src/lib.rs:49-57 | after `task_handler` a job marked as stopped has no runnable task if and only if no task is runnable, or it was marked as running and no task is blocked |
| `ShellJobs.ResumeExact` | applications/shell/src/lib.rs:1415-1437 | after `fg` or `bg` no task is blocked, and a job marked as stopped has no runnable task if and only if the last task has not exited or all have |
| `ShellJobs.StoppedMayRun` | applications/shell/src/lib.rs:1090-1107 | a run reaches a job that counts as stopped while one of its tasks runs |
| `ShellJobs.StuckExact` | applications/shell/src/lib.rs:1427-1434 | in every run, the foreground job counts as stopped if and only if `fg` was used on a job whose last task had exited and not all tasks of the foreground job have exited since |
| `ShellJobs.RunReturns` | applications/shell/src/lib.rs:1090-1103 | in every run, a blocked task of the foreground job returns the prompt if and only if the run is not in that state |
| `ShellJobs.CleanRunReturns` | applications/shell/src/lib.rs:1012-1163 | in every run without such an `fg`, a blocked task of the foreground job returns the prompt |
| `ShellJobs.PromptLost` | applications/shell/src/lib.rs:1427-1434 | a run reaches a foreground job with a blocked task that keeps the prompt from returning |
| `ShellTables.NewJobNumber` | applications/shell/src/lib.rs:753-761 | the loop over the keys in order finds the least unused positive number |
| `ShellTables.CloseAround` | applications/shell/src/lib.rs:1062-1088 | the search by id sets EOF on exactly the three queues around the exited task |
| `ShellTables.SweepTasks` | applications/shell/src/lib.rs:1020-1108 | the inner loop finds whether a job is alive or just stopped, its new status, and all queues to close |
| `ShellTables.JobTable.PassJobs` | applications/shell/src/lib.rs:1017-1138 | the loop over all jobs updates statuses, EOF flags and the foreground, and collects the finished jobs |
| `ShellTables.JobTable.RemoveFinished` | applications/shell/src/lib.rs:1150-1160 | removes exactly the finished jobs and their tasks' entries |
| `ShellTables.JobTable.HandleTasks` | applications/shell/src/lib.rs:1012-1163 | the whole handler equals the state function and keeps the invariant |
| `ShellTables.JobTable.WireTasks` | applications/shell/src/lib.rs:713-733 | creates N+1 pipes and N stderr queues and enters each task's place in the chain in the stream map |
| `ShellTables.JobTable.LaunchTasks` | applications/shell/src/lib.rs:701-770 | the whole of `build_new_job` for spawned tasks equals the state function, with the least unused job number |
| `ShellTables.JobTable.RunCommand` | applications/shell/src/lib.rs:513-549 | Enter on a command equals the state function, with a foreground job and without |
| `ShellTables.JobTable.CloseInput` | applications/shell/src/lib.rs:474-482 | sets EOF on the foreground job's input and keeps the invariant |
| `ShellTables.JobTable.ResumeTasks` | applications/shell/src/lib.rs:1415-1437 | the loop over unblock results: the last task decides the status, the invariant is kept |
| `Shbench.ClearSlot` | applications/heap_eval/src/shbench.rs:166-178 | freeing a slot keeps slots, layouts and live allocations matched |
| `Shbench.FillSlot` | applications/heap_eval/src/shbench.rs:140-146 | storing a new allocation keeps slots, layouts and live allocations matched |
| `Shbench.WindowsDisjoint` | applications/heap_eval/src/shbench.rs:158-165 | no slot is in two windows in a row |
| `Shbench.SizeLogExact` | applications/heap_eval/src/shbench.rs:124-134 | a base size and its halves: every size reached by halving is asked for, aligned to 2, 250, 50, 10 or 1 times by its magnitude, and no other layout is |
| `Shbench.LapEnds` | applications/heap_eval/src/shbench.rs:147-165 | a lap from one sweep to the next takes the steps that skip the window, and keeps the next window |
| `Shbench.SavedSpared` | applications/heap_eval/src/shbench.rs:149-152 | the cursor leaves the window alone until the next sweep if and only if the window is empty or does not start at slot 0 |
| `Shbench.FirstWindow` | applications/heap_eval/src/shbench.rs:154-165 | the first sweep keeps a window at slot 0, and with five slots or more the next step overwrites it |
| `Shbench.Worker.Release` | applications/heap_eval/src/shbench.rs:167-171 | frees a live pointer with its own layout and clears the slot |
| `Shbench.Worker.Sweep` | applications/heap_eval/src/shbench.rs:154-180 | moves the window on and frees exactly the slots outside it, each once |
| `Shbench.Worker.Step` | applications/heap_eval/src/shbench.rs:133-181 | one allocation: the new cursor, window and slots, with non-null slots exactly those below `mp` or in the window |
| `Shbench.RegularRound` | applications/heap_eval/src/shbench.rs:32-33 | a round over the regular sizes makes 19300 allocations, as the constant says |
| `Shbench.LargeRound` | applications/heap_eval/src/shbench.rs:28-33 | a round over the large sizes makes 3871 |
| `Shbench.PrintedTotal` | applications/heap_eval/src/shbench.rs:44-45 | the printed number of objects is the number allocated if and only if the threads divide the iterations evenly, for the regular sizes, or there are no iterations, for the large ones |
| `Shbench.Worker.Rounds` | applications/heap_eval/src/shbench.rs:121-186 | the nested loops complete if and only if the allocator refuses nothing; then they have asked for exactly the prescribed layouts in order, keep the invariant, and leave cursor and window where that number of steps puts them |
| `Shbench.Worker.Finish` | applications/heap_eval/src/shbench.rs:188-195 | frees the slots below `mp` once each; exactly the saved slots at or beyond `mp` stay live |
| `Shbench.LeakCount` | applications/heap_eval/src/shbench.rs:188-195 | the number of allocations left is the number of window slots at or beyond `mp` |
| `Shbench.SmallRing` | applications/heap_eval/src/shbench.rs:162-165 | with fewer than five slots nothing is saved and nothing is left |
| `Shbench.FifthLeft` | applications/heap_eval/src/shbench.rs:121-195 | with 5k slots and any number of allocations per round, k allocations or none are left, and which follows from that number modulo 21 |
| `Shbench.RegularLeft` | applications/heap_eval/src/shbench.rs:24-27 | with 5k slots and the regular sizes exactly k are left |
| `Shbench.LargeLeft` | applications/heap_eval/src/shbench.rs:28-31 | so they are with the large sizes |
| `Shbench.RunWorker` | applications/heap_eval/src/shbench.rs:81-196 | a worker completes if and only if it is refused nothing; it has then asked for count times the layouts of a round, its final window is fixed by their number, and it leaves exactly the saved allocations at or beyond `mp`, whose number the parameters fix and which is at most a fifth of the ring |
| `Ping.BigEndian` | applications/ping/src/lib.rs:159 | the first byte of a time stamp is the most significant one |
| `Ping.PayloadTime` | applications/ping/src/lib.rs:251-257 | a payload has the asked size, its time is the time read back, and the rest is filler |
| `Ping.TurnPreserves` | applications/ping/src/lib.rs:222-326 | every turn keeps the invariant, whatever packet arrives |
| `Ping.Conservation` | applications/ping/src/lib.rs:274-317 | requests sent = received + timed out + waiting, so `received` never exceeds `seq_no` |
| `Ping.ResolvedOnce` | applications/ping/src/lib.rs:157-170 | a turn resolves only requests that were waiting and never a resolved one again |
| `Ping.TimeoutExact` | applications/ping/src/lib.rs:308-317 | a turn gives up exactly on requests that have waited for the timeout or longer |
| `Ping.TurnExact` | applications/ping/src/lib.rs:249-317 | for each request, whether a turn leaves it answered, expired or waiting: a reply counts even in the turn that sends the request or in which its time is up |
| `Ping.PanicsExactly` | applications/ping/src/lib.rs:157-159 | a turn panics if and only if its packet replies with fewer than eight data bytes to a request in flight |
| `Ping.Schedule` | applications/ping/src/lib.rs:249-278 | in every run, rebinding or not, the number sent and `send_at` are those of the schedule: one interval per request since the socket was last bound, in 64-bit arithmetic |
| `Ping.SendsExactly` | applications/ping/src/lib.rs:249-278 | a turn sends exactly one request if the socket can send, fewer than the limit have been sent and one is due, and none otherwise |
| `Ping.NotEarly` | applications/ping/src/lib.rs:249-278 | without rebinding and below 2^64, request n is not sent before n intervals have passed |
| `Ping.WaitingSent` | applications/ping/src/lib.rs:274-277 | the time kept for a waiting request is when it was sent |
| `Ping.BreaksExactly` | applications/ping/src/lib.rs:319-324 | in every run the loop ends if and only if all requests are sent and none waits, or not all are sent, one has timed out and the last poll had nothing to do |
| `Ping.TimeoutDrains` | applications/ping/src/lib.rs:319-324 | once all is sent and the timeout has passed, the next turn leaves nothing waiting and breaks |
| `Ping.RttExact` | applications/ping/src/lib.rs:157-168 | a counted reply is booked with the time since its stamp if and only if the stamp is not in the future |
| `Ping.HonestReply` | applications/ping/src/lib.rs:154-170 | a reply that echoes its request is booked with the true round-trip time |
| `Ping.RunMean` | applications/ping/src/lib.rs:330-338 | in every run: the total is the sum of the times if and only if that is below 2^64; the mean is at most the maximum; it is at least the minimum if and only if the minimum times the number of replies is at most the wrapped sum |
| `Ping.MinMax` | applications/ping/src/lib.rs:337-338 | minimum and maximum are among the times and bound all of them |
| `Ping.AverageExact` | applications/ping/src/lib.rs:330-335 | the mean times the number of replies is the total |
| `Ping.MeanOutside` | applications/ping/src/lib.rs:157-168 | a complete run with two replies, one of them stamped in the future, whose mean is below its minimum |
| `Ping.PastStatistics` | applications/ping/src/lib.rs:330-342 | in every run that counts no reply stamped in the future, with a clock below 2^48 ms, the total is the sum and the mean is between minimum and maximum |
| `Ping.HonestIsPast` | applications/ping/src/lib.rs:251-257 | a run whose replies echo their requests is such a run |
| `Ping.RunConservation` | applications/ping/src/lib.rs:222-328 | in every run, under any replies, sent = received + timed out + waiting and nothing is both answered and timed out |
| `Ping.AllResolved` | applications/ping/src/lib.rs:319-322 | on normal exit every request sent was answered or timed out, and the number sent is the count truncated to 16 bits |
| `Ping.Pinger.GetIcmpPong` | applications/ping/src/lib.rs:153-171 | updates queue, count, times and total as the state function says |
| `Ping.Pinger.OneTurn` | applications/ping/src/lib.rs:222-326 | the loop body equals the state function, panics included |
| `Ping.Pinger.PingLoop` | applications/ping/src/lib.rs:222-328 | the loop ends after the first turn that breaks, in the first turn that panics, or with its inputs, in the state those turns lead to |
| `Ping.LoopIsRun` | applications/ping/src/lib.rs:222-328 | on a clock that does not go back those turns are a run, so the laws of runs hold of the loop |
| `Writers.WriterResult` | tlibc/src/io.rs:58-96 | after any sequence of writes to capacity n, the buffer holds the first n-1 bytes of the whole text and a NUL, nothing beyond changes, and the count is the untruncated total; below capacity 2 nothing changes |
| `Writers.PiecesDoNotMatter` | tlibc/src/io.rs:22-50 | how the text is cut into writes makes no difference |
| `Writers.CompleteExactly` | tlibc/src/io.rs:72-77 | the text is complete exactly when the count is below the capacity |
| `Writers.TerminatedIff` | tlibc/src/io.rs:60-70 | after any writes a NUL lies in the buffer if and only if there is room for two bytes and a write reached the inner writer, or one lay there before |
| `Writers.TerminatesExactly` | tlibc/src/io.rs:60-70 | writes terminate the buffer whatever memory held before if and only if there is room for two bytes and some write reaches the inner writer |
| `Writers.Unterminated` | tlibc/src/stdio/printf.rs:657-660 | a buffer of one byte, and one of any size under empty `write_all` calls only, is left as it was |
| `Writers.StringWriter.Write` | tlibc/src/io.rs:60-78 | copies in place what fits before a NUL, advances the pointer and shrinks the capacity |
| `Writers.CountingWriter.WriteStr` | tlibc/src/io.rs:22-27 | counts the full length and passes the text on |
| `Writers.CountingWriter.WriteU8` | tlibc/src/io.rs:28-33 | counts one byte and passes it on |
| `Writers.CountingWriter.Write` | tlibc/src/io.rs:34-41 | counts what the inner writer claims |
| `Writers.CountingWriter.WriteAll` | tlibc/src/io.rs:42-50 | counts the full length; an empty slice never reaches the inner writer |
| `SwapParser.ParseInputTuples` | applications/swap/src/lib.rs:109-143 | the loop over open parentheses computes the parse function, errors included |
| `SwapParser.ParseSucceeds` | applications/swap/src/lib.rs:109-143 | parsing succeeds exactly when there is an open parenthesis and each has a later close parenthesis with a comma before it; the no-tuples error exactly without open parentheses |
| `SwapParser.TupleAt` | applications/swap/src/lib.rs:111-135 | there is one tuple per open parenthesis, nested ones included, in order, parsed from the text after it |
| `SwapParser.ParseToClose` | applications/swap/src/lib.rs:117-118 | that text ends at the next close parenthesis |
| `SwapParser.ReexportExactly` | applications/swap/src/lib.rs:119-131 | names and third field are trimmed, and the third field asks for re-export if and only if it reads `true`, `yes` or `y` |
| `SwapParser.OutputsOk` | applications/swap/src/lib.rs:117-126 | parsed names are always trimmed and free of commas and close parentheses |
| `SwapParser.ParseUndoesPrint` | applications/swap/src/lib.rs:107-143 | parsing any printed non-empty list, with any padding and text between tuples, gives back exactly that list |
| `SwapParser.CanonicalRoundTrip` | applications/swap/src/lib.rs:107-143 | parsing undoes the canonical printer if and only if the list is non-empty and its names are trimmed and free of parentheses and commas |

## Left out

- The fallback heap (`linked_list_allocator`), the scheduler, `spawn`, `Terminal`, `Stdio` contents and smoltcp: known only by the contracts above.
- `percent_encode_byte`: its 768-character table is modelled by the digit formula it spells out.
- `decode_utf8` and `decode_utf8_lossy`: they hand over to the standard library.
- What `strcasestr` reads past the haystack's terminator: the model stops there and says that it happens.
- `memccpy`, `memchr`, `memrchr`, `memset`, `strchr`, `strrchr`, `strcmp`, `strncmp`, `strcpy`, `strncpy`, `strcat`, `strncat` and `strlen`: each is one loop over bytes in order, without words, overlap or state between calls; `strdup` and `strerror` allocate or look up a table.
- `eval_cmdline` and key events that only redraw or move the cursor: the tasks a command line spawns are given, and a command segment without a word, on which `args.remove(0)` panics, starts no job.
- Key handling while terminal calls fail: drawing errors returned with `?` are not modelled.
- The bytes in stdio queues: only EOF flags and wiring are.
- Ctrl+C and Ctrl+Z on a foreground job: they act on its tasks, which the shell sees as observations in `task_handler`.
- Overflow of `usize` in `CountingWriter.written` and in shbench's sizes: the counts are unbounded.
- Floating-point rounding of ping's average and the division by zero in the loss percentage when nothing was sent.
- Errors of the network interface that make ping return without statistics.
- `do_swap`: it works on loaded crates that are not part of this model.
- hull, less, loadc, the other heap benchmarks, ACPI, the loggers and the build scripts.
