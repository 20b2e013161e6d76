# Models and proofs for the CamShare server

The CamShare server (`CamShareServer/`) brings its own TCP and session middleware and the libraries that run it: the
event loop libev, AES and MD5, and codecs for AMF3, JSON and Base64. This project models the parts whose correctness is
not visible from one function, and proves what they promise. `dafny verify dfyconfig.toml` checks all of it.

Code that changes state is modelled by classes and methods with the fields, branches and loops of the source; each is
tied to functions on values, and the main results are proved about these functions or are the contracts of the methods
at the top (`Iterate`, `FdReify`, `EncryptThenDecrypt`, `WriteThenParse`, `PresentAll` and so on).

**The event loop** (`Ev*.dfy`). `EvHeap` is the 4-ary heap with cached times and back-pointers: every sift keeps the
elements, the order and the slots. `EvQueues` has the stacks of pending events. `EvHistory` says what a loop owes its
watchers: its history is the sequence of everything fed, cancelled and delivered, and a callback may run only if it
receives exactly the OR of what it is owed, nothing of higher priority is pending, and it became pending last within
its own; `EvDebt` says the same of the single feeds, runs and cancellations. `EvScript` and `EvLoop` add timers and
callbacks, which are lists of requests that may feed, clear, start, stop and restart anything; `Iterate` states what
one iteration does to history and timers. `EvPeriodic` has the periodic timers, and `EvIteration` the iteration with
both heaps. `EvIo`, `EvPoll` and `EvSelect` are the lazily synchronised table of file descriptors and two backends.

**AES** (`Gf256`, `Aes*`, `BlockModes`). The generated tables, the key schedules and the unrolled rounds are shown to
be the cipher of FIPS 197, the equivalent inverse cipher to be its inverse, and CBC, CFB128 and CTR to be the modes of
NIST SP 800-38A, to undo themselves, and not to depend on how the data is cut into calls. `AesText` is the text form
used by the server. `AesSbox` and `AesVectors` hold the table and the examples of FIPS 197, which the model has to
give.

**Codecs.** `Amf3*`, `Json*` and `Base64` are round trips over all values, with the limits of the code stated as exact
conditions: an AMF3 object of 512 members cannot be read back, JSON integers near the limits become doubles, and
strings end at their first NUL. `Amf3Layout` and `JsonLexical` say what stands in the bytes and characters: markers,
UTF-8, escapes, blanks, comments, numbers. `JsonSeparators`, `JsonMembers` and `JsonStrict` say exactly what the JSON
reader lets stand between elements and between members, and for every text what a reader that checks the commas makes
of it.

**MD5** (`Md5Block`, `Md5`). However a message is cut into calls of `md5_append`, the digest is that of RFC 1321, of
which `Md5Vectors` has an example.

**The server's threads.** `TcpProtocol` is the close protocol of `TcpServer` and `CamShareMiddleware` as a transition
system in which the loop thread, any number of handler threads and the send thread interleave in every possible way,
one step for each section under a mutex; `TcpInvariant` is what every step keeps, `TcpRuns` what follows for whole
runs, `TcpNumbers` what becomes of the packets in every run, and `TcpReuse` and `TcpLeak` have the runs in which the
protocol fails and what comes of them. `Reorder` is the packet reorder buffer of a client, `Session` the class that
holds the requests with their timeouts, and `SessionTable` what it promises.

## What the proofs show about the code

* `TcpServer::SendMessageImmediately` reads `m->fd` once more after `m` is back in the idle list. The counters stay
  exact all along a run if and only if the send thread always finds the descriptor it sent the message to
  (`TcpRuns.ExactWhenUndisturbed`); else one counter stays too high and another is too low
  (`TcpInvariant.ReleaseMiscounts`). Both the loop thread (`TcpReuse.TakenByLoop`) and a handler that takes the message
  for an answer (`TcpReuse.TakenByHandler`) can get there, and a client can then be deleted while its message is being
  served (`TcpReuse.ClosedTooEarly`), while the connection the message was sent to is never closed
  (`TcpLeak.NeverClosed`). The other results for whole runs are about the runs in which that does not happen, but those
  of `TcpNumbers` hold of every run.
* `Session` tells requests apart by their addresses, but `EraseRequest` leaves the item of the request in the check
  list. When the next request of that name is at the same address, the old item makes it fail too early
  (`SessionTable.ReusedAddress`). That cannot happen exactly in the runs in which every accepted request finds no item
  of its name and address in the list (`SessionTable.UnmistakableExact`).
* `GetTickCountDifferences` takes a wrap-around of the tick count for a day (`SessionTable.WrapLooksLikeADay`); it is
  right exactly when the count did not wrap around (`SessionTable.DifferenceMeaning`).
* `Reader::readArray` rejects a separator only if it is a comma and a closing bracket at once, so any one token but a
  bracket may stand between two elements, with comments around it. Before anything but an object that is all
  (`JsonSeparators.OneSeparatorExact`); before an object the beginning of another object may stand there too, cut off
  by a comment, as long as its members are overwritten (`JsonSeparators.SeparatorExact`).
* `Reader::readObject` accepts any token after a comment that stands for a comma (`JsonMembers.PlainSeparatorExact`),
  members that are overwritten (`JsonMembers.HiddenExact`) and a comma behind a last member with an empty name
  (`JsonMembers.TrailingCommaExact`). A reader that checks for commas gives the same on every text in which nothing of
  that kind is let pass, and fails on all others (`JsonStrict.StrictExact`).
* `decodeNumber` refuses a digit as soon as the number is at the threshold, so -2147483648 to -2147483640 and
  4294967290 to 4294967295 come back as doubles (`JsonRoundTrip.ParseExact`).
* `read_obj` stops after 512 dynamic members without reading the end mark of the object (`Amf3Exact.ObjectExact`).
* `decodeUnicodeCodePoint` takes any four digits for the second half of a surrogate pair; the code point is that of the
  pair exactly if they are a low surrogate (`JsonLexical.SurrogatesExact`).
* An undefined value is read as a null handle, so it comes back as an element of an array only, and a null handle is
  not written at all (`Amf3Exact.TreeExact`).
* `periodic_recalc` computes its base with at least `MIN_INTERVAL` and goes on in steps of the interval, so a shorter
  interval may be missed; the result is the first expiry time after now exactly when that base is an expiry time
  (`EvPeriodic.RecalcExact`).
* `AesDecrypt` returns its result as a C string, so only strings without NUL come back (`AesText.DecryptedInverse`). A
  comment in `AesEncrypt` speaks of 16 more bytes for a string of whole blocks; the code adds none, and the model
  follows the code.

## Model

| member | source | states |
|---|---|---|
| `EvHeap.Parent` | CamShareServer/libev/ev.c:2034-2037 | The parent of slot `i` in the 4-heap, with the truncating division of C: the root is its own parent, and every other slot is among the four children of its parent |
| `EvHeap.RootIsMinimum` | CamShareServer/libev/ev.c:2903-2915 | In a heap as `verify_heap` describes it the first element expires first |
| `EvHeap.StepDown` | CamShareServer/libev/ev.c:2041-2078 | Exchanging an element with its least child moves the only defect of the order to that child, without creating another |
| `EvHeap.StepUp` | CamShareServer/libev/ev.c:2121-2138 | Exchanging an element with its larger parent moves the only defect to the parent |
| `EvHeap.MinChild` | CamShareServer/libev/ev.c:2046-2068 | The fast and the slow path both find a least child, and find one exactly if there is one |
| `EvHeap.Downheap` | CamShareServer/libev/ev.c:2041-2078 | From any heap that is in order except below element `k0`: the same elements, in order, each watcher knowing its slot |
| `EvHeap.Upheap` | CamShareServer/libev/ev.c:2121-2138 | The same for an element that may be earlier than its parent |
| `EvHeap.Adjustheap` | CamShareServer/libev/ev.c:2143-2149 | The same for an element that may be out of place in either direction |
| `EvHeap.Reheap` | CamShareServer/libev/ev.c:2153-2161 | From elements in any order, a heap of the same elements, with their slots |
| `EvHistory.SinceIsStable` | CamShareServer/libev/ev.c:1786-1802 | While a watcher stays pending, the feed that made it pending does not change, and before that feed it was not pending |
| `EvHistory.SettledBetween` | CamShareServer/libev/ev.c:3075-3092 | Who was pending and is not any more (for the same feed) ran or was cancelled in between |
| `EvHistory.DeliveryOrder` | CamShareServer/libev/ev.c:1804-1817 | Watchers fed in reverse and run from a stack run in the order they were collected, whatever the callbacks feed and clear in between |
| `EvHistory.FedAreDelivered` | CamShareServer/libev/ev.c:3074-3155 | When nothing is owed any more, every watcher fed in reverse has run or was cancelled, in that order |
| `EvHistory.SecondBatchFirst` | CamShareServer/libev/ev.c:3472-3474 | Of two batches fed one after the other, the watchers of the second one that were not pending run before those of the first one of the same priority, or are cancelled |
| `EvDebt.OwedExact` | CamShareServer/libev/ev.c:1786-1802 | Without the recursion: something is owed to a watcher if and only if some feed of it has no run and no cancellation behind it, and then an event is owed if and only if one of those feeds has it |
| `EvDebt.MayRunExact` | CamShareServer/libev/ev.c:3075-3092 | A callback may run if and only if it receives just that, nobody of higher priority has been fed and not run, and among those of its own priority the others were fed before it |
| `EvDebt.LawfulExact` | CamShareServer/libev/ev.c:3075-3092 | So a history is one the loop may have if and only if every callback in it ran in its turn |
| `EvQueues.FeedIsFaithful` | CamShareServer/libev/ev.c:1786-1802 | Feeding, with coalescing into an entry that is there, keeps queues and history together: every entry holds the OR of what was fed since the last run, and lower entries became pending earlier |
| `EvQueues.ClearIsFaithful` | CamShareServer/libev/ev.c:3576-3600 | Replacing an entry by the dummy watcher cancels exactly what its watcher was owed |
| `EvQueues.TopMayRun` | CamShareServer/libev/ev.c:3075-3092 | The top of the first non-empty queue is of the highest priority that is pending, became pending last in it, and carries exactly what its watcher is owed |
| `EvQueues.PopIsFaithful` | CamShareServer/libev/ev.c:3082-3089 | Popping it keeps queues and history together |
| `EvQueues.EmptyMeansPaid` | CamShareServer/libev/ev.c:3075-3092 | With all queues empty, no watcher is owed anything |
| `EvScript.PlayedAppend` | CamShareServer/libev/ev.c:3075-3092 | Running two stretches of callbacks one after the other is running both, with the script used up in step |
| `EvLoop.Loop.FeedEvent` | CamShareServer/libev/ev.c:1786-1802 | The queue is the old one with the event coalesced or pushed, the history has one more feed, and the highest queue is looked at again |
| `EvLoop.Loop.ClearPending` | CamShareServer/libev/ev.c:3576-3600 | What the watcher was owed is cancelled and returned; the queues keep their heights |
| `EvLoop.Loop.TimerStart` | CamShareServer/libev/ev.c:3674-3695 | The set of active timers grows by the timer; heap order, slots and cached times hold; a timer that is active is left alone |
| `EvLoop.Loop.TimerStop` | CamShareServer/libev/ev.c:3698-3725 | The set shrinks by exactly the timer, which keeps the time that was left; its pending event is cancelled |
| `EvLoop.Loop.TimerAgain` | CamShareServer/libev/ev.c:3728-3752 | All cases of `ev_timer_again`: rescheduled, started or stopped |
| `EvLoop.Loop.FeedReverseDone` | CamShareServer/libev/ev.c:1811-1817 | The collected watchers are fed in reverse order, each once |
| `EvLoop.Loop.ReifyFirst` | CamShareServer/libev/ev.c:3127-3151 | One round: a one-shot timer is stopped, a repeating one goes to `max (at + repeat, now)`, and is still active |
| `EvLoop.Loop.TimersReify` | CamShareServer/libev/ev.c:3120-3155 | Terminates; every timer that was due, and no other, is settled and fed once, in reverse order of collection, which is the order of expiry; afterwards no timer is due |
| `EvLoop.Loop.Perform` | CamShareServer/libev/ev.c:3674-3752 | One request of a callback changes history and timers as stated by `Recorded` and `Timed`, and the queues stay faithful to the history |
| `EvLoop.Loop.InvokePending` | CamShareServer/libev/ev.c:3075-3092 | For callbacks that feed, clear, start, stop and restart: terminates with all queues empty and nothing owed, every callback ran when it was allowed to, and history and timers are exactly those of the callbacks that ran with their requests; every callback that ever ran received the OR of all feeds of its watcher since its last run or cancellation |
| `EvLoop.Loop.Iterate` | CamShareServer/libev/ev.c:3074-3155 | `timers_reify` and `ev_invoke_pending` together: exactly the due timers are fed; those of equal priority that were not pending are called in non-decreasing order of expiry whatever the callbacks request; every one is called or cancelled |
| `EvPoll.ArrayNextsize` | CamShareServer/libev/ev.c:1725-1743 | The new size is larger than the old one and holds what is needed |
| `EvPoll.ToPollInjective` | CamShareServer/libev/ev_poll.c:73-75 | Different masks give different poll flags |
| `EvPoll.ToPollExact` | CamShareServer/libev/ev_poll.c:73-75 | poll is asked for input exactly when EV_READ is in the mask, for output exactly when EV_WRITE is, and for nothing else |
| `EvPoll.FromPollExact` | CamShareServer/libev/ev_poll.c:117-121 | Input, an error or a hangup is told as EV_READ; output, an error or a hangup as EV_WRITE |
| `EvPoll.PollRoundTrip` | CamShareServer/libev/ev_poll.c:112-121 | Flags that were asked for are told as events that were wanted, all of them if all are reported |
| `EvPoll.OneEntryPerWatchedFd` | CamShareServer/libev/ev_poll.c:51-86 | With `pollidxs` the inverse of `polls`, a watched fd has exactly one entry, with its flags, and an fd that is not watched has none |
| `EvPoll.FindEntry` | CamShareServer/libev/ev_poll.c:59-70 | The entry of the fd is found or allocated at the end; no other fd is affected |
| `EvPoll.RemoveEntry` | CamShareServer/libev/ev_poll.c:76-85 | Swap-remove keeps the inverse, drops this fd and no other |
| `EvPoll.PollModify` | CamShareServer/libev/ev_poll.c:51-86 | The fd is watched for the new mask, all others as before; inverse and density of the arrays are kept |
| `EvSelect.SelectModify` | CamShareServer/libev/ev_select.c:70-136 | The fd is set in the two vectors as the mask says, all others as before, with the vectors grown as needed |
| `EvSelect.SelectedExact` | CamShareServer/libev/ev_select.c:125-131 | The read vector is for EV_READ, the write vector for EV_WRITE |
| `EvSelect.Drive` | CamShareServer/libev/ev_select.c:70-136 | Given the same changes, the poll and the select backend watch the same fds for the same events, those asked for last |
| `EvSelect.Scan` | CamShareServer/libev/ev_select.c:245-268 | Every fd that is set is reported exactly once, from the highest down, with its events |
| `EvIo.WlistAdd` | CamShareServer/libev/ev.c:3553-3557 | The linked list has the watcher in front |
| `EvIo.WlistDel` | CamShareServer/libev/ev.c:3560-3572 | The linked list is the old one without the first occurrence of the watcher |
| `EvIo.OrEvents` | CamShareServer/libev/ev.c:1908-1911 | The loop over the list gives the OR of the masks |
| `EvIo.FdEventNocheck` | CamShareServer/libev/ev.c:1830-1843 | The watchers of the list that wait for some of the events are fed, in the order of the list |
| `EvIo.HitsAreExact` | CamShareServer/libev/ev.c:1836-1842 | Each is fed exactly the events it waits for among those reported |
| `EvIo.HitsInOrder` | CamShareServer/libev/ev.c:1836-1842 | They are fed in the order of the list |
| `EvIo.MaskIsExact` | CamShareServer/libev/ev.c:1908-1911 | An event is in the OR of the masks if and only if some watcher of the list waits for it |
| `EvIo.HitsOnce` | CamShareServer/libev/ev.c:1836-1842 | No watcher is fed twice |
| `EvIo.IoLoop.FdChange` | CamShareServer/libev/ev.c:1925-1937 | The flags are recorded; an fd without flags before is put at the end of `fdchanges`, so each is listed once, and until `fd_reify` only listed fds may disagree with the backend |
| `EvIo.IoLoop.IoStart` | CamShareServer/libev/ev.c:3629-3652 | The watcher is in front of the list of its fd, and no other list changes; an active watcher is left alone |
| `EvIo.IoLoop.IoStop` | CamShareServer/libev/ev.c:3655-3671 | The watcher leaves the list of its fd, and no other list changes |
| `EvIo.IoLoop.FdReify` | CamShareServer/libev/ev.c:1895-1922 | After any starts and stops: the backend watches every fd for exactly the OR of the masks of its watchers |
| `EvIo.IoLoop.FdEvent` | CamShareServer/libev/ev.c:1845-1854 | An fd that changed since the poll gets no event; the watchers of any other get theirs |
| `EvIo.IoLoop.PollEvent` | CamShareServer/libev/ev_poll.c:112-121 | An entry with POLLNVAL kills the watchers of its fd; any other tells them its events |
| `EvIo.IoLoop.PollPoll` | CamShareServer/libev/ev_poll.c:104-123 | The loop over the entries, which ends when all that poll reported has been seen: a watcher is fed if and only if it waits for some of what is reported for its fd, the fd is open and did not change meanwhile |
| `EvIo.IoLoop.FdKill` | CamShareServer/libev/ev.c:1940-1950 | Every watcher of the fd is stopped, once, in the order of the list; other fds are not affected |
| `EvPeriodic.PeriodicRecalc` | CamShareServer/libev/ev.c:3160-3181 | The loop ends at the first step of the interval from its base that is after `now` |
| `EvPeriodic.FirstGridPoint` | CamShareServer/libev/ev.c:3160-3181 | For an interval of at least `MIN_INTERVAL` the result is the least `offset + k * interval` after `now` |
| `EvPeriodic.RecalcExact` | CamShareServer/libev/ev.c:3162-3163 | For every positive interval the result is the least `offset + k * interval` after `now` if and only if the base, which is computed with `MIN_INTERVAL`, is one of these times |
| `EvPeriodic.SmallIntervalMisses` | CamShareServer/libev/ev.c:3162-3163 | So the time that is computed for a timer of 100 microseconds, with `now` at 200 microseconds, is after `now` and no time at which it should expire |
| `EvPeriodic.Periodics.PeriodicStart` | CamShareServer/libev/ev.c:3762-3787 | The three kinds of periodics get their first time; the heap invariants hold and the set grows by the timer |
| `EvPeriodic.Periodics.ReifyFirst` | CamShareServer/libev/ev.c:3191-3218 | A one-shot periodic is stopped, any other gets its next time, which is not before `now`; no other timer is touched |
| `EvPeriodic.Periodics.PeriodicsReify` | CamShareServer/libev/ev.c:3184-3223 | Exactly the periodics that were due are collected to be fed, each once, in the order of expiry; afterwards none is due |
| `EvPeriodic.Periodics.PeriodicsReschedule` | CamShareServer/libev/ev.c:3228-3246 | After a time jump every recurring periodic has a new time, the others keep theirs, and the rebuilt heap is in order |
| `EvIteration.EventLoop.PeriodicsReify` | CamShareServer/libev/ev.c:3185-3223 | The periodics that were due are fed to the queues, each once, in reverse order of their expiry; of those that end, and of no other watcher, the pending event was cancelled; the timers are left alone |
| `EvIteration.EventLoop.Iterate` | CamShareServer/libev/ev.c:3471-3488 | `timers_reify`, `periodics_reify` and `ev_invoke_pending` on one loop: exactly the timers and the periodics that were due are fed; those of equal priority that were not pending are called in the order of their expiry, and the periodics before the timers, whatever the callbacks request; every one is called or cancelled |
| `Gf256.GmulLinear` | CamShareServer/common/aes.c:365-366 | Multiplication in GF(2^8) distributes over addition |
| `Gf256.PowSurjective` | CamShareServer/common/aes.c:379-384 | Every non-zero byte is a power of {03}, so the log table is defined everywhere |
| `Gf256.Primitive` | CamShareServer/common/aes.c:379-384 | No smaller positive power of {03} than the 255th is one, so the loop, which also enters the 255th power, writes no entry of the log table twice but that of 1, which ends as 255 |
| `AesSpec.SubByteInverse` | CamShareServer/common/aes.c:398-413 | The two S-boxes of section 5.1.1 and 5.3.2 of FIPS 197 undo each other |
| `AesSbox.IsSubByte` | CamShareServer/common/aes.c:398-413 | What makes a byte the S-box value of another; by it the table of figure 7 of FIPS 197 is proved, row by row |
| `AesVectors.MixColumnBytes` | CamShareServer/common/aes.c:418-443 | MixColumns on one column in the words of section 5.1.3 |
| `AesVectors.Key1` | CamShareServer/common/aes.c:494-503 | The first expanded words of the example in appendix A.1: a0fafe17, 88542cb1, 23a33939, 2a6c7605; so on up to `Key10` |
| `AesVectors.AppendixB` | CamShareServer/common/aes.c:690-770 | The cipher gives the output of the example in appendix B, through the states the standard lists |
| `AesVectors.TextExample` | CamShareServer/common/Arithmetic.cpp:381-437 | AesEncrypt of that block under that key is 3925841d02dc09fbdc118597196a0b32 |
| `AesSpec.MixColumnsInverse` | CamShareServer/common/aes.c:418-443 | InvMixColumns undoes MixColumns |
| `AesSpec.InvMixColumnsLinear` | CamShareServer/common/aes.c:599-608 | InvMixColumns distributes over the addition of round keys (section 5.3.5 of FIPS 197) |
| `AesSpec.CipherInverse` | CamShareServer/common/aes.c:668-770 | The inverse cipher of section 5.3 undoes the cipher of section 5.1, for every number of rounds |
| `AesSpec.EqInvCipherAgrees` | CamShareServer/common/aes.c:591-612 | With InvMixColumns applied to the inner round keys, the equivalent inverse cipher is the inverse cipher |
| `AesTables.GenLogs` | CamShareServer/common/aes.c:376-384 | The loop fills the tables of powers and logarithms of {03} |
| `AesTables.GenRcon` | CamShareServer/common/aes.c:386-394 | The round constants are the powers of {02} of section 5.2 |
| `AesTables.GenSboxes` | CamShareServer/common/aes.c:398-413 | The rotations and the constant give the S-box of section 5.1.1 and its inverse, for all 256 bytes |
| `AesTables.GenTables` | CamShareServer/common/aes.c:370-444 | All eleven generated tables are those FIPS 197 implies, for every byte |
| `Aes.ForwardRoundsCorrect` | CamShareServer/common/aes.c:619-640 | A T-table round is SubBytes, ShiftRows, MixColumns and AddRoundKey |
| `Aes.ReverseRoundsCorrect` | CamShareServer/common/aes.c:642-663 | A reverse T-table round is InvSubBytes, InvShiftRows, InvMixColumns and AddRoundKey |
| `Aes.LastForwardCorrect` | CamShareServer/common/aes.c:739-761 | The last round has no MixColumns |
| `Aes.LastReverseCorrect` | CamShareServer/common/aes.c:705-727 | The last reverse round has no InvMixColumns |
| `Aes.SetkeyEnc` | CamShareServer/common/aes.c:451-553 | For 128, 192 and 256 bits: 10, 12 and 14 rounds and the key schedule of section 5.2, also byte by byte; any other size is refused and nothing changes |
| `Aes.ExpandedExact` | CamShareServer/common/aes.c:488-553 | Byte j of word n of the buffer: the key; at the start of a round byte j a round back, plus the S-box of byte j + 1 mod 4 of the word before, plus the round constant in byte 0; in the middle of a round of 256 bits the same without the turn and the constant; else the sum of the two bytes |
| `Aes.InvertSchedule` | CamShareServer/common/aes.c:591-612 | The schedule backwards, with InvMixColumns applied to all but its first and last round key |
| `Aes.SetkeyDec` | CamShareServer/common/aes.c:561-612 | The same for the decryption schedule |
| `Aes.CryptEcb` | CamShareServer/common/aes.c:668-770 | The loop over pairs of rounds computes the cipher, or its equivalent inverse, with the round keys of the context |
| `Aes.EncryptsAsCipher` | CamShareServer/common/aes.c:690-770 | With the schedule of `aes_setkey_enc` that is the cipher of section 5.1 |
| `Aes.DecryptsAsInvCipher` | CamShareServer/common/aes.c:690-770 | With the schedule of `aes_setkey_dec` it is the inverse cipher of section 5.3 |
| `Aes.EcbInverse` | CamShareServer/common/aes.c:668-770 | For every key and block, decryption undoes encryption |
| `Aes.EncryptThenDecrypt` | CamShareServer/common/aes.c:451-770 | The calls in sequence, for all three key sizes: the block comes back |
| `BlockModes.CbcInverse` | CamShareServer/common/aes.c:800-831 | CBC decryption undoes CBC encryption over any block cipher, for every number of blocks |
| `BlockModes.CbcMeaning` | CamShareServer/common/aes.c:819-830 | Every cipher block is the encryption of its block plus the cipher block before it, the first one plus the vector |
| `BlockModes.CbcDecryptMeaning` | CamShareServer/common/aes.c:802-815 | Every block is the decryption of its cipher block plus the cipher block before it |
| `BlockModes.CbcChunks` | CamShareServer/common/aes.c:819-830 | Two encrypting calls that carry the vector do what one call does |
| `BlockModes.CbcDecryptChunks` | CamShareServer/common/aes.c:802-815 | Two decrypting calls that carry the vector do what one call does |
| `BlockModes.CfbChunks` | CamShareServer/common/aes.c:840-881 | Two calls that carry offset and vector do what one call does, wherever the data is cut |
| `BlockModes.CfbInverse` | CamShareServer/common/aes.c:840-881 | Decryption gives the data back for every length and ends in the same state |
| `BlockModes.CfbMeaning` | CamShareServer/common/aes.c:851-876 | Section 6.3 of NIST SP 800-38A: byte `i` is added to the encryption of the cipher block before its own |
| `BlockModes.IncrementIsPlusOne` | CamShareServer/common/aes.c:904-906 | The loop with carry adds one to the counter as a big-endian number, modulo 2^128 |
| `BlockModes.IncrementExact` | CamShareServer/common/aes.c:904-906 | In bytes: the last one that is not 0xff is counted up, and those behind it become zero; all of them if there is none |
| `BlockModes.CounterValue` | CamShareServer/common/aes.c:904-906 | After `j` increments the number is `j` more, modulo 2^128 |
| `BlockModes.NumberInjective` | CamShareServer/common/aes.c:904-906 | Counters with the same number are the same block |
| `BlockModes.CtrChunks` | CamShareServer/common/aes.c:888-917 | Two calls that carry offset, counter and stream block do what one call does |
| `BlockModes.CtrInverse` | CamShareServer/common/aes.c:888-917 | The same call decrypts |
| `BlockModes.CtrProgress` | CamShareServer/common/aes.c:899-912 | `m` bytes start `(m + 15) / 16` blocks, and the counter has moved on as far |
| `BlockModes.CtrMeaning` | CamShareServer/common/aes.c:899-912 | Byte `i` of the key stream is in the encryption of the counter `i / 16` blocks on |
| `AesModes.KeyedInverses` | CamShareServer/common/aes.c:451-770 | The two schedules of one key make a pair of inverse block functions, so all modes apply |
| `AesModes.CryptCbc` | CamShareServer/common/aes.c:775-834 | `aes_crypt_cbc` computes section 6.2 and leaves the last cipher block in the vector, also in place; a length that is no multiple of 16 is refused and nothing changes |
| `AesModes.CryptCfb128` | CamShareServer/common/aes.c:840-881 | `aes_crypt_cfb128` computes section 6.3 in both directions, also in place, and leaves offset and vector for the next call |
| `AesModes.IncrementCounter` | CamShareServer/common/aes.c:904-906 | The loop over the bytes with its early exit is one increment |
| `AesModes.CryptCtr` | CamShareServer/common/aes.c:888-917 | `aes_crypt_ctr` computes section 6.5, also in place, and leaves offset, counter and stream block for the next call |
| `AesText.EcbRunInverse` | CamShareServer/common/Arithmetic.cpp:411-426 | Decrypting block by block undoes encrypting block by block |
| `AesText.EcbRunBlocks` | CamShareServer/common/Arithmetic.cpp:411-426 | Every block is replaced by its image, in its place |
| `AesText.HexToAscii` | CamShareServer/common/Arithmetic.cpp:222-233 | Pairs of hexadecimal digits, read as `strtoul` reads them |
| `AesText.PairIsStrtoul` | CamShareServer/common/Arithmetic.cpp:228-230 | A pair gives the low byte of what `strtoul` makes of it by section 7.20.1.4 of ISO C99: blanks, a sign, digits, and no more |
| `AesText.UnhexAt` | CamShareServer/common/Arithmetic.cpp:227-231 | Byte i of the result comes from characters 2i and 2i + 1 |
| `AesText.UnhexInverse` | CamShareServer/common/Arithmetic.cpp:222-233 | HexToAscii undoes the printing of bytes in hexadecimal |
| `AesText.CStringOfPadded` | CamShareServer/common/Arithmetic.cpp:419-426 | Padding with zero bytes does not change a string as a C string |
| `AesText.AesEncrypt` | CamShareServer/common/Arithmetic.cpp:381-437 | The text is the hexadecimal form of the zero-padded string, encrypted block by block under the key cut or filled up to 16 bytes |
| `AesText.AesDecrypt` | CamShareServer/common/Arithmetic.cpp:438-490 | The bytes of the text decrypted block by block, up to the first NUL |
| `AesText.DecryptedInverse` | CamShareServer/common/Arithmetic.cpp:381-490 | A string comes back up to its first NUL, so it comes back whole if and only if it holds none |
| `AesText.PartialBlock` | CamShareServer/common/Arithmetic.cpp:448-449 | Characters behind the last whole block of a text change nothing |
| `Md5.Padded` | CamShareServer/common/md5.c:304-307 | Section 3.1 of RFC 1321: the message is extended to whole blocks by at least nine and at most 72 bytes |
| `Md5.PaddedExact` | CamShareServer/common/md5.c:290-307 | The padding byte by byte: 0x80, zeros, and the digits to the base 256 of the number of bits modulo 2^64, low byte first |
| `Md5Block.Process` | CamShareServer/common/md5.c:87-241 | The 64 unrolled statements are the 64 steps of section 3.4 of RFC 1321 |
| `Md5.AddWithCarry` | CamShareServer/common/md5.c:263-267 | The two counter words add as a number modulo 2^64 |
| `Md5.State.AddLength` | CamShareServer/common/md5.c:263-267 | The two words grow by 8 times the number of bytes, modulo 2^64, with the carry |
| `Md5.State.FillBlock` | CamShareServer/common/md5.c:269-279 | A partial block is filled up; if it becomes whole it is processed |
| `Md5.State.FullBlocks` | CamShareServer/common/md5.c:281-283 | All whole blocks are processed, and fewer than 64 bytes are left |
| `Md5.State.Append` | CamShareServer/common/md5.c:253-288 | However the message is cut into calls, the registers cover exactly its whole blocks and the buffer holds the rest |
| `Md5.SavedLength` | CamShareServer/common/md5.c:301-303 | The eight bytes are those of section 3.2: the length in bits, low byte first |
| `Md5.BytesOfParts` | CamShareServer/common/md5.c:301-303 | The low and the high word together give the bytes of the number |
| `Md5.State.Finish` | CamShareServer/common/md5.c:290-310 | The digest is that of the padded message as sections 3.1 to 3.5 define it, and no partial block is left |
| `Md5.GetMD5String` | CamShareServer/common/md5.c:313-324 | The digest in 32 lower-case hexadecimal digits |
| `Md5Vectors.InitialBytes` | CamShareServer/common/md5.c:244-251 | The registers start with the bytes of section 3.3 of RFC 1321 |
| `Md5Vectors.DigestOfAbc` | CamShareServer/common/md5.c:253-310 | The digest of "abc" is the one in appendix A.5 of RFC 1321, through all 64 steps |
| `Base64.EncodedLength` | CamShareServer/common/Arithmetic.cpp:126-174 | Four characters for every three bytes begun |
| `Base64.Sextets` | CamShareServer/common/Arithmetic.cpp:144-153 | Shifting the packed word to the left brings out the four groups of six bits |
| `Base64.AlphabetExact` | CamShareServer/common/Arithmetic.cpp:21-41 | The alphabet of table 1 of RFC 4648, in both directions |
| `Base64.OtherCharacters` | CamShareServer/common/Arithmetic.cpp:32-41 | Every other character counts as zero when it is decoded |
| `Base64.GroupExact` | CamShareServer/common/Arithmetic.cpp:144-153 | The four letters are the digits to the base 64 of the number the three bytes stand for, the highest first |
| `Base64.Vectors` | CamShareServer/common/Arithmetic.cpp:126-172 | Test vectors of section 10 of RFC 4648, with two, one and no padding characters |
| `Base64.Base64Encode` | CamShareServer/common/Arithmetic.cpp:126-174 | The result is section 4 of RFC 4648, with padding |
| `Base64.Base64Decode` | CamShareServer/common/Arithmetic.cpp:176-207 | Line breaks between groups are skipped, and every group gives its one to three bytes |
| `Base64.DecodeInverse` | CamShareServer/common/Arithmetic.cpp:126-207 | Decoding undoes encoding for every byte string |
| `Base64.BreaksAreIgnored` | CamShareServer/common/Arithmetic.cpp:187-190 | An encoded text may be broken between groups anywhere |
| `Amf3.IntRoundTrip` | CamShareServer/amf/AMF3.cpp:500-526 | `read_int` gives back every number up to 0x0FFFFFFF that `write_u29` wrote, in one to four bytes, whatever follows (section 1.3.1 of the AMF 3 Specification) |
| `Amf3Layout.SignExtendExact` | CamShareServer/amf/AMF3.cpp:519-524 | The sign extension keeps the number modulo 2^29 and brings it into the range of 29 bits with a sign |
| `Amf3Layout.FourBytesRead` | CamShareServer/amf/AMF3.cpp:500-526 | Any four bytes with three high bits: seven bits of each of them and eight of the last, modulo 2^29 |
| `Amf3.StringRoundTrip` | CamShareServer/amf/AMF3.cpp:550-585 | A string comes back up to its first NUL |
| `Amf3.ArrayRoundTrip` | CamShareServer/amf/AMF3.cpp:616-653 | An array comes back with all its elements; an undefined element is read as no object, in whose place the array gets a new one |
| `Amf3.ObjectRoundTrip` | CamShareServer/amf/AMF3.cpp:655-746 | An object comes back with all its fields, and its end mark is used up |
| `Amf3Layout.SealedObject` | CamShareServer/amf/AMF3.cpp:678-720 | An object with a class name and sealed members, as other encoders write it, is read with its members in order |
| `Amf3Layout.SealedAndDynamic` | CamShareServer/amf/AMF3.cpp:678-738 | The same with dynamic members after them |
| `Amf3Layout.SampleElems` | CamShareServer/amf/AMF3.cpp:940-951 | The bytes of an array of a string, true and null |
| `Amf3Layout.SampleArray` | CamShareServer/amf/AMF3.cpp:940-951 | The bytes of an array of undefined, false and a double |
| `Amf3Layout.SampleObject` | CamShareServer/amf/AMF3.cpp:953-966 | The bytes of an object with two members |
| `Amf3Layout.OtherMarkers` | CamShareServer/amf/AMF3.cpp:815-817 | A marker `read_elem` does not know is read as a null handle |
| `Amf3.RoundTrip` | CamShareServer/amf/AMF3.cpp:778-822 | Decoding the encoding of an `Encodable` tree, whatever follows, gives the tree back and uses up exactly its encoding |
| `Amf3Exact.TreeExact` | CamShareServer/amf/AMF3.cpp:778-822 | For every tree and whatever follows: decoding the encoding gives the tree back and uses up exactly its bytes if and only if the tree is `Encodable` |
| `Amf3Exact.WholeExact` | CamShareServer/amf/AMF3.cpp:1016-1035 | The same for a stream that holds nothing else |
| `Amf3Exact.IntegerExact` | CamShareServer/amf/AMF3.cpp:841-896 | An integer comes back if and only if `write_u29` accepts it |
| `Amf3Exact.StringExact` | CamShareServer/amf/AMF3.cpp:917-932 | A string comes back whole if and only if it holds no NUL and its length fits into its head |
| `Amf3Exact.ObjectExact` | CamShareServer/amf/AMF3.cpp:725-740 | An object of good fields comes back if and only if it has at most 511: after 512 the decoder stops before the end mark |
| `Amf3.Context.WriteU29` | CamShareServer/amf/AMF3.cpp:841-896 | Appends the bytes of the number; above 0x0FFFFFFF nothing, and it says so |
| `Amf3.Context.WriteString` | CamShareServer/amf/AMF3.cpp:917-932 | Appends head and bytes of the string |
| `Amf3.Context.WriteElem` | CamShareServer/amf/AMF3.cpp:975-1012 | Appends the encoding of the tree; nothing for a null handle |
| `Amf3.Context.ReadInt` | CamShareServer/amf/AMF3.cpp:500-526 | Reads the number from the stream, with the sign bit extended |
| `Amf3.Context.ReadString` | CamShareServer/amf/AMF3.cpp:550-585 | Reads an inline string |
| `Amf3.Context.ReadArray` | CamShareServer/amf/AMF3.cpp:616-653 | Reads an array with its elements |
| `Amf3.Context.ReadObject` | CamShareServer/amf/AMF3.cpp:655-746 | Reads an object with sealed and dynamic members |
| `Amf3.Context.ReadElem` | CamShareServer/amf/AMF3.cpp:778-822 | Reads what the grammar of the stream says, and moves on past it |
| `Amf3.EncodeThenDecode` | CamShareServer/amf/AMF3.cpp:1016-1035 | The two calls in sequence |
| `JsonValue.LessIsStrict` | CamShareServer/json/json_value.cpp:218-232 | The order of the keys of a map is strict and total |
| `JsonLexical.LessExact` | CamShareServer/json/json_value.cpp:218-232 | A name is less than another if and only if it is smaller where they first differ, or ends there |
| `JsonValue.InsertLast` | CamShareServer/json/json_value.cpp:1031-1075 | A key greater than all others goes to the end of the map |
| `JsonWriter.UintToString` | CamShareServer/json/json_writer.cpp:30-40 | The decimal digits |
| `JsonWriter.ValueToQuotedString` | CamShareServer/json/json_writer.cpp:111-172 | With and without the fast path: the quoted string with its escapes |
| `JsonLexical.EscapeExact` | CamShareServer/json/json_writer.cpp:111-172 | The escape of every character |
| `JsonWriter.FastWriter.WriteValue` | CamShareServer/json/json_writer.cpp:207-263 | Appends the text of the value |
| `JsonWriter.FastWriter.Write` | CamShareServer/json/json_writer.cpp:197-204 | The document is the text of the value and a line break |
| `JsonLexical.TextExact` | CamShareServer/json/json_writer.cpp:208-262 | The words, the brackets and what stands between two elements and in a member |
| `JsonReader.Reader.ReadToken` | CamShareServer/json/json_reader.cpp:273-345 | The token, and the cursor after it; every token but the end of the stream uses up characters |
| `JsonLexical.BlankExact` | CamShareServer/json/json_reader.cpp:349-359 | Exactly four characters are skipped before a token |
| `JsonLexical.CommentExact` | CamShareServer/json/json_reader.cpp:378-449 | A comment ends at the first star with a slash behind it, or with its line, and the reader goes on behind it |
| `JsonLexical.ErrorExact` | CamShareServer/json/json_reader.cpp:274-345 | A character no token begins with is an error; NUL is the end |
| `JsonLexical.NumberExact` | CamShareServer/json/json_reader.cpp:452-461 | A number is a digit or a minus and all that follows of the characters of a number |
| `JsonReader.Reader.SkipCommentTokens` | CamShareServer/json/json_reader.cpp:245-260 | The same with comments skipped |
| `JsonReader.Reader.RecoverFromError` | CamShareServer/json/json_reader.cpp:773-787 | Terminates, drops the errors met on the way and fails |
| `JsonReader.Reader.DecodeNumber` | CamShareServer/json/json_reader.cpp:581-616 | The test for a double and the loop over the digits with its threshold |
| `JsonLexical.RealExact` | CamShareServer/json/json_reader.cpp:582-645 | A number with a point, an exponent or an inner sign is read as a real |
| `JsonReader.Reader.DecodeUnicode` | CamShareServer/json/json_reader.cpp:703-730 | One or two escapes give a code point |
| `JsonReader.Reader.DecodeString` | CamShareServer/json/json_reader.cpp:657-701 | The characters between the quotes with their escapes |
| `JsonLexical.CodePointExact` | CamShareServer/json/json_reader.cpp:69-103 | Section 3 of RFC 3629 for every code point: the length its range asks for, the class of the first byte, 80 to BF behind it, and the bits that give the code point back |
| `JsonLexical.HexValueExact` | CamShareServer/json/json_reader.cpp:745-754 | The digits of both cases have their values, and no other character has one |
| `JsonLexical.Hex4Exact` | CamShareServer/json/json_reader.cpp:734-756 | Four digits, the high one first |
| `JsonLexical.UnicodeDecoded` | CamShareServer/json/json_reader.cpp:683-690 | An escape that is no high surrogate becomes the UTF-8 of its code point |
| `JsonLexical.SurrogatesExact` | CamShareServer/json/json_reader.cpp:704-731 | Two escapes of which the first is a high surrogate give the code point of section 2.2 of RFC 2781 if and only if the second one is a low surrogate, which the reader does not look at |
| `JsonLexical.SimpleEscapeExact` | CamShareServer/json/json_reader.cpp:671-693 | The eight escapes of one character |
| `JsonLexical.BadEscape` | CamShareServer/json/json_reader.cpp:691-693 | No other character may follow a backslash |
| `JsonLexical.PlainStringExact` | CamShareServer/json/json_reader.cpp:464-478 | A string without quotes and backslashes is read as it stands, up to its first NUL |
| `JsonReader.Reader.ReadObject` | CamShareServer/json/json_reader.cpp:479-535 | Terminates; reads the members into the map, or records an error |
| `JsonReader.Reader.ReadArray` | CamShareServer/json/json_reader.cpp:538-578 | Terminates; reads the elements, or records an error |
| `JsonReader.Reader.ReadValue` | CamShareServer/json/json_reader.cpp:194-242 | On every input the mutually recursive methods terminate, the cursor never goes back and never passes the end; the value is what the grammar says, and an error is recorded exactly if there is none |
| `JsonReader.Reader.Parse` | CamShareServer/json/json_reader.cpp:150-190 | Succeeds exactly if no error was recorded, with the value the grammar gives |
| `JsonRoundTrip.DecodeInteger` | CamShareServer/json/json_reader.cpp:581-616 | Exactly which written integers come back as Int and as UInt and which become a double: the threshold test of `decodeNumber` |
| `JsonRoundTrip.AccumulateAppend` | CamShareServer/json/json_reader.cpp:600-608 | The loop stops exactly when a number that is not its last digits is at the threshold |
| `JsonRoundTrip.EscapedIsDecoded` | CamShareServer/json/json_reader.cpp:657-701 | Decoding undoes escaping for every string without NUL |
| `JsonRoundTrip.QuotedToken` | CamShareServer/json/json_writer.cpp:111-172 | A quoted string is read as one token that decodes to the string |
| `JsonRoundTrip.RoundTrip` | CamShareServer/json/json_reader.cpp:194-242 | Reading a written value, whatever ends it, gives `Read(v)` and uses up exactly its text |
| `JsonRoundTrip.ParseInverse` | CamShareServer/json/json_writer.cpp:197-263 | Parsing what FastWriter wrote gives the value back, up to the integers at the limits |
| `JsonRoundTrip.ReadIsSame` | CamShareServer/json/json_reader.cpp:581-616 | Nothing but these integers changes |
| `JsonRoundTrip.ParseExact` | CamShareServer/json/json_writer.cpp:197-263 | The value comes back as it was if and only if every Int in it is at least -2147483639 and every UInt is in [2147483648, 4294967289] |
| `JsonRoundTrip.WriteThenParse` | CamShareServer/json/json_reader.cpp:121-190 | The two calls in sequence |
| `JsonRoundTrip.ColonSeparates` | CamShareServer/json/json_reader.cpp:566-575 | An instance of what follows: the reader accepts a colon between two elements of an array |
| `JsonSeparators.SeparatorExact` | CamShareServer/json/json_reader.cpp:538-578 | For all written values and any separating text that ends where a token ends: the two elements are read, and nothing else, if and only if the text is one token other than `]` with comments around it or, before an object, a token and the beginning of another object, up to a comment, whose members are all overwritten |
| `JsonSeparators.OneSeparatorExact` | CamShareServer/json/json_reader.cpp:538-578 | Before anything but an object: if and only if it is one token other than `]` with comments around it |
| `JsonSeparators.CrossValue` | CamShareServer/json/json_reader.cpp:194-242 | A value that begins before the last element ends before it, or takes it whole into an array, or into an object that reads its members, or leaves nothing |
| `JsonSeparators.OverlayExact` | CamShareServer/json/json_reader.cpp:479-535 | An object that goes on into the members of the next one is read as that one if and only if it has no names of its own |
| `JsonSeparators.CutOffObject` | CamShareServer/json/json_reader.cpp:479-578 | Before any object with a member of that name, the beginning of an object, cut off by a comment, is accepted |
| `JsonSeparators.ZeroIsJoined` | CamShareServer/json/json_reader.cpp:273-345 | A separator that does not end where a token ends: the digit of the next number is joined to it |
| `JsonMembers.MemberSeparatorExact` | CamShareServer/json/json_reader.cpp:479-535 | For all members and any separating text that ends where a token ends: the two members are read, and nothing else, if and only if the text brings the loop to the second one, with no name but the two and the value of the first as it was |
| `JsonMembers.PlainSeparatorExact` | CamShareServer/json/json_reader.cpp:513-530 | Without a colon in it: if and only if it is a comma, or a comment and one token other than `}`, with comments after it |
| `JsonMembers.HiddenExact` | CamShareServer/json/json_reader.cpp:479-535 | For any separating text, in tokens: it is a separator that holds members only of the names of the two, the last one named as the first with its value |
| `JsonMembers.HidesNothing` | CamShareServer/json/json_reader.cpp:513-530 | A separator without members is a comma, or a comment and one token other than `}`, with comments after it |
| `JsonMembers.OverwrittenMember` | CamShareServer/json/json_reader.cpp:479-535 | A further member of the name of the last one may stand in between |
| `JsonMembers.TrailingCommaExact` | CamShareServer/json/json_reader.cpp:492-493 | In any state of the loop a comma behind the last member is accepted if and only if the name of that member is empty |
| `JsonStrict.StrictExact` | CamShareServer/json/json_reader.cpp:194-578 | For every text: a reader that checks for a comma between elements and between members gives what the source gives if nothing was let pass, and else fails |
| `JsonStrict.CommaExact` | CamShareServer/json/json_reader.cpp:566-575 | With the comma checked, nothing but a comma separates two elements, with comments around it |
| `JsonStrict.WrittenIsStrict` | CamShareServer/json/json_writer.cpp:197-263 | What FastWriter writes is accepted with the commas checked |
| `TcpInvariant.CountsFollow` | CamShareServer/TcpServer.cpp:820-822 | When one message moves, the counter of its descriptor follows |
| `TcpInvariant.FlyingFacts` | CamShareServer/TcpServer.cpp:1101-1145 | A message queued or in hand keeps its connection alive, its client in the map and its descriptor open |
| `TcpInvariant.EofKeepsInv` | CamShareServer/TcpServer.cpp:835-875 | The invariant survives the end of a stream, when the watcher is stopped and the loop thread enters OnDisconnect |
| `TcpInvariant.SettleKeepsInv` | CamShareServer/TcpServer.cpp:1207-1248 | It survives the decision of OnDisconnect to close at once, if nothing is counted, or to leave that to the last message |
| `TcpInvariant.FinishKeepsInv` | CamShareServer/TcpServer.cpp:1101-1145 | It survives the decrement after a message was served, which makes the handler that takes the counter of a disconnected descriptor to zero the one to close it |
| `TcpInvariant.CountAnswerKeepsInv` | CamShareServer/TcpServer.cpp:933-941 | It survives the counting of an answer before that is queued |
| `TcpInvariant.SendKeepsInv` | CamShareServer/TcpServer.cpp:956-1024 | It survives the first section of SendMessageImmediately, up to the return of the message, whose descriptor has been saved: one more is counted for that descriptor than its messages |
| `TcpInvariant.SendReleaseKeepsInv` | CamShareServer/TcpServer.cpp:1052-1145 | It survives the decrement of the send thread if the message still has the descriptor it was sent to |
| `TcpInvariant.SendOnCloseKeepsInv` | CamShareServer/TcpServer.cpp:1138-1141 | It survives OnClose by the send thread |
| `TcpInvariant.SendCloseKeepsInv` | CamShareServer/TcpServer.cpp:1138-1144 | It survives the close that follows |
| `TcpInvariant.ReleaseExact` | CamShareServer/TcpServer.cpp:1052-1104 | After the decrement all counters are exact if and only if the message still has the descriptor it was sent to, whether or not the decrement makes the send thread close |
| `TcpInvariant.ReleaseMiscounts` | CamShareServer/TcpServer.cpp:1052-1104 | Else the counter of the descriptor it was sent to is one too high, that of the one it has now one too low, and all others are exact |
| `TcpInvariant.StepKeepsInv` | CamShareServer/TcpServer.cpp:582-1254 | Every step of the loop thread, of any handler thread and of the send thread keeps the invariant, as long as the last statement of SendMessageImmediately finds the descriptor that was saved |
| `TcpRuns.CounterIsExact` | CamShareServer/TcpServer.cpp:820-828 | In every run in which the send thread is undisturbed `mpHandlingMessageCount[fd]` is the number of messages for the descriptor that are queued or in hand, and one more while the send thread has yet to decrement it |
| `TcpRuns.EveryRunIsLawful` | CamShareServer/TcpServer.cpp:1187-1254 | In every run in which the send thread is undisturbed the events of each connection follow its life: accepted, received and served, disconnected, OnClose, closed |
| `TcpRuns.ClosedOnce` | CamShareServer/CamShareMiddleware.cpp:649-702 | In every such run OnClose comes at most once for a connection, finds its client, and only close follows; close comes at most once, and nothing follows |
| `TcpRuns.LookupsSucceed` | CamShareServer/CamShareMiddleware.cpp:597-758 | In every such run OnRecvMessage, OnSendMessage, OnDisconnect and OnClose find the client of the very connection the message belongs to |
| `TcpRuns.ClientOutlivesMessages` | CamShareServer/CamShareMiddleware.cpp:649-727 | In every such run no client is deleted, and no descriptor closed, while a message of its connection is queued or in hand |
| `TcpNumbers.PacketsAreNumbered` | CamShareServer/TcpServer.cpp:824-828 | In every run, disturbed or not, the packets of a connection are numbered 0, 1, 2 and so on in the order they were read |
| `TcpNumbers.MessagesCarryNumbers` | CamShareServer/TcpServer.cpp:824-830 | In every run a message that is queued, in hand or being served carries a number that was given to a packet of its connection, and no other message carries the same |
| `TcpNumbers.PacketsServedOnce` | CamShareServer/CamShareMiddleware.cpp:704-727 | In every run each packet is served at most once, after it was received |
| `TcpNumbers.PacketsAreServed` | CamShareServer/TcpServer.cpp:824-830 | In every run, when no message is queued or in hand, every packet received has been served |
| `TcpNumbers.StepIsNumbered` | CamShareServer/TcpServer.cpp:780-1054 | Every step of every thread keeps all this |
| `TcpRuns.AnswersGoBack` | CamShareServer/TcpServer.cpp:922-954 | In every run in which the send thread is undisturbed an answer that is being made has the descriptor and the connection of the packet it answers |
| `TcpRuns.NothingIsForgotten` | CamShareServer/TcpServer.cpp:1101-1254 | In every such run, when no thread has anything in hand, every connection is either still read, with its client in the map, or closed |
| `TcpRuns.ExactWhenUndisturbed` | CamShareServer/TcpServer.cpp:956-1054 | For every run of all threads: the counters are exact after every step if and only if the send thread finds, whenever it decrements a counter, the descriptor it sent the message to |
| `TcpReuse.TakenByLoop` | CamShareServer/TcpServer.cpp:1010-1052 | A run from the start after which the loop thread has read into the message the send thread has just given back, and the decrement makes the counters wrong |
| `TcpReuse.TakenByHandler` | CamShareServer/TcpServer.cpp:1010-1052 | The same with a handler of another connection, which takes the message for its answer |
| `TcpReuse.ClosedTooEarly` | CamShareServer/TcpServer.cpp:1101-1145 | The run goes on: the send thread calls OnClose for a connection while a message of it is being served |
| `TcpLeak.ClosesInUse` | CamShareServer/TcpServer.cpp:1101-1145 | A decrement that finds another descriptor makes the send thread call OnClose for that one if and only if that connection waits for the last of its messages; this message is then still queued or in hand |
| `TcpLeak.NeverClosed` | CamShareServer/TcpServer.cpp:1101-1145 | The connection the message was sent to is never closed: however the run goes on, its descriptor stays open and its counter positive, unless a later decrement goes wrong in its favour |
| `MessageLists.MessageList.PushBack` | CamShareServer/MessageList.cpp:21-25 | The message is at the end |
| `MessageLists.MessageList.PopFront` | CamShareServer/MessageList.cpp:27-36 | The first message, or none if the list is empty |
| `Reorder.Client.Cache` | CamShareServer/Client.cpp:78-120 | A packet out of order is copied to an idle buffer, or the call fails if there is none; no buffer is lost |
| `Reorder.Client.ParseCached` | CamShareServer/Client.cpp:156-205 | The loop parses all cached packets that have become next, gives their buffers back, and stops at the first gap or error |
| `Reorder.Client.ParseData` | CamShareServer/Client.cpp:42-237 | All packets below `miDataPacketRecvSeq` have come and were parsed in order, later ones are cached, and idle and cached buffers are conserved; an error means that parsing failed or no buffer was left, and is final |
| `Reorder.PresentAll` | CamShareServer/Client.cpp:42-237 | In whatever order the threads present the packets 0 to n - 1: either all are parsed in order and all buffers are back, or the parser failed or fewer than n buffers were idle |
| `SessionTable.DifferenceMeaning` | CamShareServer/common/TimeProc.hpp:16-28 | The difference of two tick counts is the time that passed if and only if the count did not wrap around; else it is a day too much |
| `SessionTable.WrapLooksLikeADay` | CamShareServer/common/TimeProc.hpp:16-28 | So right after the wrap-around a new request looks more than a day old |
| `Session.Session.AddRequest` | CamShareServer/Session.cpp:79-96 | Accepted exactly if the name is free, with an item of its own; else nothing changes. The address may be that of a request that has left |
| `Session.Session.EraseRequest` | CamShareServer/Session.cpp:98-108 | The request is returned and leaves, its item stays, and FinisRequest(false) was not called on it |
| `Session.Session.CheckItem` | CamShareServer/Session.cpp:134-154 | An expired item finishes the request of its name if that has the address the item was made for |
| `Session.Session.CheckTimeouts` | CamShareServer/Session.cpp:110-209 | One pass, removing items while iterating: the items that have not expired are left, and the requests are those `Pass` leaves |
| `SessionTable.TimesOutExactly` | CamShareServer/Session.cpp:119-206 | For every table: a waiting request times out in a pass if and only if an item with its name and its address, its own or not, was added more than the timeout ago |
| `SessionTable.ItemsLeft` | CamShareServer/Session.cpp:131-206 | The items that stay are exactly those that were added no longer ago than that, in their order |
| `SessionTable.OwnItemExact` | CamShareServer/Session.cpp:134-141 | So it times out exactly when its own item has expired if and only if that has expired or no other item of its name and address has |
| `SessionTable.ReusedAddress` | CamShareServer/Session.cpp:79-206 | A request is added and erased, the next one of that name has the same address: the item left behind makes the second one fail before its own item has expired |
| `SessionTable.ReuseExact` | CamShareServer/Session.cpp:79-141 | Before AddRequest, with a clock that does not wrap around: some later pass makes the new request fail too early if and only if an older item of its name and address is in the list |
| `SessionTable.TimesOutByOwnItem` | CamShareServer/Session.cpp:134-170 | With no item that could be mistaken for that of another request, a request times out if and only if its own item has expired |
| `SessionTable.UnmistakableExact` | CamShareServer/Session.cpp:79-209 | For every run of additions, erasures and passes: no item can ever be mistaken if and only if every request that is accepted finds no item of its name and address in the list |
| `SessionTable.StillWaiting` | CamShareServer/Session.cpp:110-209 | After a pass every request that waits still has its own item |
| `SessionTable.AddKeepsValid` | CamShareServer/Session.cpp:79-96 | An addition keeps the table sound: every acceptance waits under one name with its own item or has left in one way, and FinisRequest(false) was called once on each that did not succeed |
| `SessionTable.PassKeepsValid` | CamShareServer/Session.cpp:110-209 | So does a pass |
| `Session.Session.Destroy` | CamShareServer/Session.cpp:39-77 | The destructor leaves no request and no item |
| `SessionTable.AllHaveLeft` | CamShareServer/Session.cpp:39-77 | Every request that still waits is finished once; then every request ever accepted has left, in exactly one way |

## Left out

* Parts of the server: sockets, curl, SQLite, the FreeSWITCH connection, LiveChat, HTTP parsing, logging,
  configuration, starting and stopping of threads, and `SessionManager`, whose maps add only insertion and removal to
  `Session`.
* Parts of libev: epoll, kqueue, ports, inotify, signals, child and idle watchers, fork, what `poll_poll` does when
  poll fails, detection of time jumps, and the 2-ary heap.
* Parts of the libraries: the padlock variant of AES, `TeaEncode`, checksums, URL encoding, the styled JSON writers,
  and of AMF3 dates, byte arrays, XML and reference tables, which the encoder never produces.
- Times in libev are real numbers: rounding, and with it the branch of `periodic_recalc` for a time that does not grow,
  is not modelled.
- Priorities of watchers are fixed and within the bounds when a watcher is made; `ev_start` clamps them.
- The watchers of a loop are fixed when the loop is made, and a callback is a finite list of requests.
- The intervals of timers are not negative, as the assertions of libev demand.
- EvHeap.Downheap: the heap is a sequence that is handed over and returned, not an array that is changed in place; the
  fields of the watchers are changed in place. The same holds for the other methods of `EvHeap`, and for the arrays of
  the two backends, so aliasing between them is not modelled.
- EvPoll.ArrayNextsize: does not model overflow of `int`; the capacity of the arrays other than `pollidxs` and `anfds`
  is not modelled.
- EvIo.IoLoop.IoStop: `clear_pending` is modelled with the event loop, not here.
- EvIo.IoLoop.FdKill: the feeding of the error event is modelled with the event loop; the stopped watchers are
  returned.
- EvIo.IoLoop.IoStart: the flag `EV__IOFDSET` is taken out of the mask before the watcher is linked, not after.
- EvSelect.SelectModify: the words of the vectors are sets of bits; the set for `FD_SET` is not modelled.
- EvPeriodic.Periodics.PeriodicsReify: returns the watchers that are fed; `EvIteration.EventLoop.PeriodicsReify` feeds
  them.
- EvPeriodic.Periodics.ReifyFirst: a reschedule callback is a function of the time and returns no time in the past, as
  an assertion of libev demands; the pending event of a one-shot is cancelled in `EvIteration`, not here.
- EvIteration.EventLoop.Iterate: callbacks do not start and stop periodics, and the clock stands still while they run.
- The steps of TcpServer are functions on states, because its threads interleave; the message lists are bags, of which
  any message may be popped, which includes the front. `accept` succeeds with a free descriptor within the arrays, and
  `OnAccept` accepts.
- TcpInvariant.StepKeepsInv: requires that the send thread finds the descriptor it saved; `TcpInvariant.ReleaseExact`
  says that without this the invariant does not hold.
- Reorder.Client.ParseData: parsing one packet is a function of the packets parsed before it; packets have fresh
  buffers, and the sending counters of a client are not modelled.
- Session.Session.AddRequest: requests are not null, and one that waits is not added again.
- Session.Session.CheckTimeouts: one pass of the loop of the thread, which repeats it every second.
- Amf3.ObjectRoundTrip: a null handle among the members of an object, which the source would dereference, is not
  modelled.
- Amf3.RoundTrip: names of the root and of array elements and class names are not part of a value; doubles are their
  eight bytes. A stream that ends too early is answered by a failure, where the source reads what is in its buffers.
- Base64.Base64Decode: requires that the last group is complete and the text ASCII; the source reads past the end
  otherwise.
- JsonReader.Reader.ReadValue: the value is returned in place of being assigned through the stack of nodes; comments
  are skipped, and reals keep their text.
- JsonWriter.FastWriter.WriteValue: reals are not written, and the buffers of fixed size are sequences.
- JsonWriter.FastWriter.Write: reals are not written.
- Amf3.Context.WriteElem: dates are not values of the model.
- Amf3.Context.ReadElem: dates, byte arrays and references are answered by a failure.
- Amf3.Context.ReadString: a reference is answered by a failure.
- Amf3.Context.ReadArray: a reference is answered by a failure.
- Amf3.Context.ReadObject: a reference is answered by a failure.
- Md5.State.Append: requires fewer than 2^31 bytes in one call, as the type of the length does.
- AesText.AesEncrypt: the whole blocks and the padded rest are one loop.
