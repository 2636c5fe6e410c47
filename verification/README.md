# FileGuard: a verified model of the rule store, its lifetimes and the monitor

FileGuard is a Windows minifilter driver that refuses file operations according to rules, a
library that talks to it and an administration tool. This project models the parts of the
driver that keep state, together with the user-mode code that has to agree with them, and
proves what they promise each other.

| file | what it models |
|---|---|
| `Sequences.dfy` | sums, filters and reversals used everywhere |
| `FileGuard.dfy` | the shared types: integer widths, rule codes, offsets and sizes of shared structures |
| `ByteLayout.dfy` | little-endian integers, wide strings, memory copies |
| `RuleFrames.dfy` | the variable-length frame of one rule, laid out and read back |
| `RuleHistory.dfy` | the rule list as a sequence of rules, and what histories of requests leave in it |
| `RuleList.dfy` | the list itself: linked entries, reference-counted rules, edited in place |
| `RuleClient.dfy` | request messages, rule buffers, the two-call queries of the library and the tool |
| `RuleService.dfy` | whole sessions: requests, messages, list and lookups end to end |
| `Callbacks.dfy` | what the pre-operation callbacks decide |
| `RuleLifetime.dfy` | creates, file operations, list edits and teardowns as a step machine, with its invariant |
| `RuleOwnership.dfy` | the theorems about all runs of that machine |
| `RuleWindow.dfy` | the window between publishing a file context and storing its rule: what opens, operations and lost races meet in it |
| `RuleUndisturbed.dfy` | opens, operations, renames, removals and teardowns by one thread, from any reachable state to their end |
| `RuleSchedules.dfy` | four schedules from the initial state: the life of a rule, and one into each window |
| `MonitorRecords.dfy` | one monitor record as bytes |
| `MonitorBatches.dfy` | the record queue, the batches made of it and the rounds of the monitor thread |
| `MonitorClient.dfy` | the parser, its growing array and the callback loop |
| `MonitorQueue.dfy` | recorders, monitor thread and cleanup as a step machine |

Verify everything with `dafny verify dfyconfig.toml`.

## What does not hold everywhere, and exactly when it does

- A create under a readonly rule can change the file: superseding is not among the
  dispositions tested (`FileGuardCore/Operations.c:132-151`). `OnlySupersedeChanges`: a create
  that such a rule does not complete creates or replaces the file exactly when it supersedes;
  `SupersedePasses` gives the input.
- A file opened under a rule is not protected from the first moment: a second open can find
  the context of the first while its rule is not stored yet
  (`FileGuardCore/Operations.c:265`, `:284-313`), go through, and have a write passed down.
  `OpensAreCovered`, `PassedDownIff` and `ThroughThenBlocked` say that this window, in which
  the creator of the context is publishing it, is the only gap; `WriteCanPassInWindow` is a run
  into it.
- The comparison after a lost race (`FileGuardCore/Operations.c:295`) reads the rule of the
  other context without testing it. `LostRaceReadsRuleIff`: it reads null exactly while the
  winner is publishing; `LostRaceCanReadNoRule` is a run that does. Because the comparison
  macro is not parenthesised, its update branch is dead code (`UpdateNeverTaken`), so a
  context's rule is set once.
- A lookup takes its reference after it let go of the list lock
  (`FileGuardCore/Rule.c:390-393`). `LookupReferencesIff`: the reference meets memory it must
  not use exactly when a removal has meanwhile unlinked the rule and either freed its entry or
  dropped the last reference, so that the count had reached zero; `LookupRereadsIff` says the
  same of the second read of the entry. `LookupCanMeetFreedRule` is a run in which both the
  rule and its entry were freed before the reference is taken.
- A query whose buffer is large enough does not always deliver the whole list: the signed test
  on the remaining size (`FileGuardCore/Rule.c:538`) stops after the first rule, and the one at
  `FileGuardCore/Rule.c:458` overwrites it, when more than 2147483647 bytes remain.
  `ExportCompleteIff` and `FillCompleteIff` say exactly when the buffer is complete,
  `QueryRules` and `CheckMatchedRules` carry that to the caller; `LargeBufferLosesRule` and
  `LargeBufferOverwritesRule` give the input.
- A query with one of the sixteen largest buffer sizes fails, because the size of its result area
  wraps below the header (`FileGuardLib/FileGuardLib.c:602`, `:659`,
  `FileGuardCore/Communication.c:246`, `:272`). `FglQueryRules` and `FglCheckMatchedRules` say so
  exactly; `LargestBufferFails` gives the input.
- The sizes of a list are added up in thirty-two bits, so the test on the sum does not always keep
  the writing walk inside its buffer. `WalkInsideIff` says exactly when it stays inside;
  `SmallListsAreFetchable`: always, below four gigabytes.
- A bulk addition that fails may have added rules: the count is reported only on success
  (`FileGuardLib/FileGuardLib.c:435-437`). `AddBulkRules` says what was added and when that is
  reported; `HalfRequestIsSilent` gives the input, a rule followed by one with an empty expression.
- The sizing and the writing loop of a request do not always agree: the expression length is
  cut to sixteen bits twice (`FileGuardLib/FileGuardLib.c:379`). `LoopsAgreeIff` and
  `RequestRoundTripIff`: they agree, and every rule arrives whole, exactly when no expression
  is longer than 32767 characters; `LongTextIsCut` gives the input. The path name of
  a matching query is cut the same way (`FileGuardLib/FileGuardLib.c:599`): `SentNameWholeIff`.
- Checking the record limit before counting is not a bound by itself: k recorders reach
  limit + k - 1 records (`CounterBoundIsReached`) and never more (`CounterIsBounded`).
- A failed send loses the batch it carried (`FileGuardCore/Monitor.c:289-301`). `NothingLostIff`: the
  client is handed every record taken exactly when no send failed that carried any; `Session`
  carries that to the callback.
- A queue drains only if every record fits into one 32 KiB batch (`DrainsIff`).

## Assumptions

- The expression matcher is an unknown predicate; upcasing is an unknown, idempotent function
  applied to each character; case-insensitive equality is equality of upcased strings.
- Pool allocations, upcasing into a block, `malloc`, name queries, recording, the probe for an existing file and
  message sends succeed or fail arbitrarily; each is an input.
- Structure offsets and sizes are those of the 64-bit build; pool memory is handed out zeroed.
- Wire input that reaches the kernel walks is well framed, as the library produces it. Copies
  do not fault. Null-pointer arguments of the public entry points are not modelled.
- Steps of threads are sequentially consistent.
- Create dispositions do to a file what the operating system documents for them, and the probe
  for an existing file answers truthfully.

## Model

| member | source | states |
|---|---|---|
| RuleFrames.DecodeInvertsHolds | FileGuardAdmin/FileGuardAdmin.cpp:141-156 | frames laid out at the sizes they announce are read back as the same rules and end exactly where their sizes say, whatever the gap bytes hold |
| RuleFrames.FrameRoundTrip | FileGuardCore/Rule.c:521-543 | for every rule list, old buffer content and offset, laying out and reading back is the identity |
| RuleFrames.WriteFrame | FileGuardCore/Rule.c:525-529 | copying the expression, then the code, then the size leaves one frame in the buffer and every other byte as it was |
| RuleFrames.FrameBytes | Include/FileGuard.h:98-102 | the bytes of a frame: minor code at 0, major at 2, size at 4, characters from 6, low byte first, and the next frame 8 bytes plus the text further on |
| RuleFrames.WalkIsExport | FileGuardCore/Rule.c:521-543 | when the list fits, the walk stays inside and lays out all frames, or the first alone if more than 2147483647 bytes then remain |
| RuleFrames.WalkInsideIff | FileGuardCore/Rule.c:521-543 | the walk writes inside the buffer exactly when the list fits, or the buffer ends with one of its frames or in that frame's padding, or more than 2147483647 bytes remain after the first |
| RuleFrames.ExportCompleteIff | FileGuardCore/Rule.c:536-542 | into a zeroed buffer the export holds every rule exactly when there is at most one or at most 2147483647 bytes remain after the first |
| RuleFrames.ExportDropsSecond | FileGuardCore/Rule.c:538-542 | otherwise the export stops after the first frame and the bytes where the second would begin are still zero |
| RuleFrames.LargeBufferLosesRule | FileGuardCore/Rule.c:538-542 | an input: two one-character rules and 2147483658 bytes of buffer, of which the export holds one |
| RuleFrames.FillIsPut | FileGuardCore/Rule.c:443-461 | when everything fits, the skipping writer of the matching listing produces the encoding of all rules in order |
| RuleFrames.FillOverwrites | FileGuardCore/Rule.c:457-460 | the frame at the start of the buffer is a later rule's when the signed remaining size was negative |
| RuleFrames.FillCompleteIff | FileGuardCore/Rule.c:443-461 | for distinct rules that fit, the buffer holds all of them in order exactly when there is at most one or at most 2147483647 bytes remain after the first |
| RuleFrames.LargeBufferOverwritesRule | FileGuardCore/Rule.c:457-460 | the same input to the matching listing: only the second rule is in the buffer, at its start |
| RuleHistory.SameAsStored | FileGuardCore/Rule.c:257-262 | the case-insensitive comparison against a stored entry singles out one stored form |
| RuleHistory.SameRuleIff | FileGuardCore/Rule.c:257-262 | two rules are the same exactly when codes and lengths agree and the upcase table gives the same for every pair of letters |
| RuleHistory.StoredIff | FileGuardCore/Rule.c:68 | a rule is stored with its code and length and every letter looked up in the upcase table |
| RuleHistory.PlanAcceptsFirstOccurrences | FileGuardCore/Rule.c:240-285 | the duplicate test against the growing list accepts exactly the first occurrences of valid rules, and the list then holds exactly the old rules and those asked for up to the stop |
| RuleHistory.StopsAtFirstFailure | FileGuardCore/Rule.c:267-285 | every first occurrence before the stop was created, so the stop is the first failure, and a request that runs to its end succeeds |
| RuleHistory.AddSpecification | FileGuardCore/Rule.c:240-285 | the new list is the reversed first occurrences before the first of them whose creation fails, in front of the old list; that failure ends the request with its status, and without one the request succeeds |
| RuleHistory.AddExactly | FileGuardCore/Rule.c:240-285 | without the plan: up to the stop exactly the valid rules that are neither the same as a stored rule nor as an earlier valid one are put, upcased and last one first, in front of the old list; each had its entry created, and a request that stops early does so at such a rule for want of that |
| RuleHistory.CaseIsIgnored | FileGuardCore/Rule.c:257-262 | an input: of "a" and "A" one rule is stored, and removing "a" removes "A" |
| RuleHistory.PlanKeepsStore | FileGuardCore/Rule.c:240-285 | adding keeps all codes valid, all expressions non-empty and upcased, and all rules distinct |
| RuleHistory.RemoveIsFilter | FileGuardCore/Rule.c:316-342 | removal leaves exactly the rules no request rule names, in their old order |
| RuleHistory.RemoveExactly | FileGuardCore/Rule.c:316-342 | letter by letter: removal keeps, in order, exactly the rules whose code, length or letters, case apart, differ from every rule of the request |
| RuleHistory.RemoveBound | FileGuardCore/Rule.c:316-342 | removal keeps the store proper and removes at most one entry per request rule, so the sixteen-bit counter cannot wrap |
| RuleHistory.FirstMatchIsFirstListed | FileGuardCore/Rule.c:371-467 | the single lookup finds the first rule of the matching listing, and none exactly when the listing is empty |
| RuleHistory.MatchingIs | FileGuardCore/Rule.c:423-463 | the listing has every rule that matches, as often as the list, and no other |
| RuleHistory.StoreInvariant | FileGuardCore/Rule.c:214-345 | after every history of adds, removes and cleanups no two entries share code and upcased expression, and every entry is valid, non-empty and upcased |
| RuleHistory.StoreIsSurvivors | FileGuardCore/Rule.c:240-342 | after every history the list is the insertions that nothing logged later removed, newest first |
| RuleHistory.NewestMatchingRuleWins | FileGuardCore/Rule.c:371-395 | after every history a lookup returns the most recent surviving insertion that matches, and nothing exactly when none matches |
| RuleList.RuleObject.Reference | FileGuardCore/Rule.h:61 | one more reference |
| RuleList.RuleObject.Release | FileGuardCore/Rule.c:107-128 | one reference less; the memory is handed back exactly when none is left |
| RuleList.CreateRule | FileGuardCore/Rule.c:49-105 | a fresh rule with one reference and the upcased expression, or a status that names the failing step, a failed upcasing included, and no block left allocated |
| RuleList.CreateRuleEntry | FileGuardCore/Rule.c:149-208 | each failing step gives its status, whatever the others would do; three blocks on success, and on every failing path none is left allocated |
| RuleList.RuleStore.constructor | FileGuardCore/FileGuardCore.c:157 | an empty ring |
| RuleList.RuleStore.EntriesDiffer | FileGuardCore/Rule.c:273 | mutually inverse links through the head imply that no entry is linked twice |
| RuleList.RuleStore.InsertHead | FileGuardCore/Rule.c:273 | relinking keeps one ring with mutually inverse links and puts the entry in front |
| RuleList.RuleStore.RemoveEntry | FileGuardCore/Rule.c:333 | relinking keeps one ring and takes out exactly one entry |
| RuleList.RuleStore.Discard | FileGuardCore/Rule.h:87-97 | the entry leaves the ring and is freed, and the list's reference to its rule is dropped, which frees the rule exactly when it was the last |
| RuleList.RuleStore.RemoveMatching | FileGuardCore/Rule.c:319-338 | unlinking and freeing while walking terminates, never reads an entry already freed, and leaves the order-preserving filter of the list; exactly the entries that left are freed and gave up a reference |
| RuleList.RuleStore.FindAndRemoveRule | FileGuardCore/Rule.c:293-345 | the linked list ends up as the removal function says, RemovedAmount is the drop in length and at most RulesAmount; exactly the entries that left were freed and gave up one reference, and their rules are freed exactly if it was the last |
| RuleList.RuleStore.IsListed | FileGuardCore/Rule.c:254-265 | the scan answers yes exactly when an entry has the code, the length and, through the upcase table, the letters of the rule |
| RuleList.RuleStore.AddOne | FileGuardCore/Rule.c:242-274 | an invalid or listed rule is skipped, a new one is linked in front, a failed creation changes nothing |
| RuleList.RuleStore.AddNext | FileGuardCore/Rule.c:240-285 | one turn of the loop keeps the plan of the whole request on course and moves the cursor to the next frame |
| RuleList.RuleStore.AddRules | FileGuardCore/Rule.c:216-289 | the linked list ends up as the add function says, AddedAmount is the growth in length, old entries stay linked behind the new ones, the status is that of the first failed creation |
| RuleList.RuleStore.MatchRules | FileGuardCore/Rule.c:350-398 | returns the rule of an entry that matches with no matching one in front of it, with exactly one more reference on it and on no other rule, or null exactly when none matches, with the list at rest between lookup and reference |
| RuleList.RuleStore.MeasureRules | FileGuardCore/Rule.c:502-506 | for every list the size is the sum over all rules in thirty-two bits and the amount the length in sixteen |
| RuleList.RuleStore.WriteRules | FileGuardCore/Rule.c:521-543 | whenever the walk stays inside the buffer, for lists of any size, it leaves exactly what the specified walk leaves, the remaining size in thirty-two bits and tested as a signed number |
| RuleList.RuleStore.GetRules | FileGuardCore/Rule.c:480-554 | for lists of any size: too small exactly when the thirty-two bit size exceeds the buffer, which is then untouched; otherwise the buffer holds what the walk leaves, and is untouched if it is empty |
| RuleList.RuleStore.WriteMatching | FileGuardCore/Rule.c:423-463 | for every list size and amount are taken over all matching rules, fitting or not, in thirty-two and sixteen bits; the buffer is what the skipping writer leaves |
| RuleList.RuleStore.MatchRulesEx | FileGuardCore/Rule.c:402-477 | too small exactly when the size of all matching rules exceeds the buffer, which is then zeroed; otherwise not found exactly when the sixteen-bit amount is zero |
| RuleList.RuleStore.CleanupRuleEntriesList | FileGuardCore/Rule.c:557-587 | empties the ring, counts and frees every entry and drops exactly one reference to each rule |
| RuleList.PutIfRoom | FileGuardCore/Rule.c:443-461 | a frame that fits is written and the rest of the listing continues behind it |
| RuleClient.LoopsAgreeIff | FileGuardLib/FileGuardLib.c:358-384 | the writing loop never leaves what the sizing loop counted; both agree, and every rule goes out whole, exactly when no expression exceeds 32767 characters |
| RuleClient.SentExactly | FileGuardLib/FileGuardLib.c:379-383 | of a text of any length the first length-modulo-32768 characters are sent, under the rule's own code |
| RuleClient.LongTextIsCut | FileGuardLib/FileGuardLib.c:379-383 | an input: a text of 32768 characters is counted with 65544 bytes and sent as an empty expression in 8 |
| RuleClient.CreateRulesMessage | FileGuardLib/FileGuardLib.c:328-389 | a message exists exactly for a non-empty request of valid codes when memory is there; it carries header and frames of all rules and the cursor ends at their total |
| RuleClient.MeasureRequest | FileGuardLib/FileGuardLib.c:358-360 | the sizing loop computes the sum over all rules |
| RuleClient.WriteRequest | FileGuardLib/FileGuardLib.c:372-384 | the loop succeeds exactly when all codes are valid, and then has laid out all frames inside the message |
| RuleClient.RequestRoundTripIff | FileGuardLib/FileGuardLib.c:358-384 | the kernel walk finds as many rules as RulesAmount says, in order; the cursor ends at the end of the message, and the rules are the caller's whole ones, exactly when no expression exceeds 32767 characters; MessageSize is the true size exactly below four gigabytes |
| RuleClient.AddBulkRules | FileGuardLib/FileGuardLib.c:393-442 | through the message the list becomes what adding the sent rules makes of it, with the kernel's status; the caller's count is the number of rules added exactly when the call succeeds and otherwise left as it was; a request that never leaves user mode changes nothing and says why |
| RuleClient.HalfRequestPlan | FileGuardCore/Rule.c:240-285 | an input: of a rule and one with an empty expression the first is added and the second ends the request |
| RuleClient.HalfRequestIsSilent | FileGuardLib/FileGuardLib.c:428-437 | for that input the list grows by one, the call fails and the caller's count stays as it was |
| RuleClient.RemoveBulkRules | FileGuardLib/FileGuardLib.c:474-523 | through the message the list loses exactly the sent rules; the caller's count is the drop in length exactly when the call succeeds and otherwise left as it was |
| RuleClient.ResolveRulesBuffer | FileGuardAdmin/FileGuardAdmin.cpp:141-156 | consumes exactly the given size and returns the rules of all frames in order |
| RuleClient.FglQueryRules | FileGuardLib/FileGuardLib.c:627-681 | fails exactly without memory, for the sixteen largest buffers, and when the reported size exceeds the buffer; otherwise, exact fit included, the returned bytes decode to the whole list exactly when it fits and the remaining size stayed in the signed range |
| RuleClient.LargestBufferFails | FileGuardLib/FileGuardLib.c:656-664 | an input: a query of an empty list with 4294967280 bytes of buffer fails and leaves the caller's size as it was |
| RuleClient.SmallListsAreFetchable | FileGuardCore/Rule.c:500-543 | for a list of less than four gigabytes the writing walk stays inside every buffer it is let into |
| RuleClient.QueryRules | FileGuardAdmin/FileGuardAdmin.cpp:209-219 | whatever happened between the two calls, the query fails exactly when one gets no memory, the size first reported is one of the sixteen largest, or the list at the second call outgrew it; otherwise it returns that list, whole and in order, exactly when it fits and the remaining size stayed in the signed range |
| RuleClient.FglCheckMatchedRules | FileGuardLib/FileGuardLib.c:555-625 | the same for the rules that match the path name as sent, with not found exactly when their number is a multiple of 65536 |
| RuleClient.SentNameWholeIff | FileGuardLib/FileGuardLib.c:592-600 | of a path name of any length the driver gets the first length-modulo-32768 characters, all of it exactly when it has at most 32767 |
| RuleClient.CheckMatchedRules | FileGuardAdmin/FileGuardAdmin.cpp:221-231 | the two-call listing of matches under interference and for lists of any size, with each of its failures told apart |
| RuleService.Serve | FileGuardCore/Communication.c:196-313 | a cleanup leaves nothing; a delivered removal keeps, in order, the rules that no sent rule is the same as; a delivered addition puts the reversed first occurrences up to its stop in front of the old list; a request that is empty, gets no memory or has an invalid code changes nothing |
| RuleService.SessionHoldsIff | FileGuardCore/Communication.c:164-319 | a rule is in the list after a session exactly when some delivered addition asked for it before its stop and no later cleanup or delivered removal dropped it |
| RuleService.RemovedStaysAway | FileGuardCore/Rule.c:316-342 | a rule that a delivered removal names is not in the list at the end unless a later addition asks for it again |
| RuleService.ServeAll | FileGuardCore/Communication.c:164-319 | after any session of requests the linked list is the store that its history describes, holds exactly the rules that were asked for and not dropped since, and is empty if the session ends in a cleanup |
| RuleService.ServeAndMatch | FileGuardCore/Rule.c:350-398 | after any session a lookup in the linked list finds the newest surviving insertion that matches, a rule that was asked for and not dropped since, and nothing exactly when no such rule matches |
| RuleService.ServeAndQuery | FileGuardAdmin/FileGuardAdmin.cpp:209-219 | after any session an undisturbed query returns the surviving insertions, newest first, exactly when they fit the reported size and the remaining size stayed in the signed range, and these are exactly the rules asked for and not dropped since; it fails exactly when that size is one of the sixteen largest |
| Callbacks.PreCreate | FileGuardCore/Operations.c:91-194 | from the inputs alone: volume opens and unmatched names go on untouched; a failed name query or recording completes the create with its status; under code (1,1) it is denied; under (1,2) supersede, open and open-if of a file that is there go on with a callback, the other dispositions are write protected, and a failed probe or allocation gives its status |
| Callbacks.OnlyReadonlyPassesCreate | FileGuardCore/Operations.c:126-171 | an open that goes on with a completion context matched a readonly rule, was recorded, and has none of the dispositions the rule tests for |
| Callbacks.OnlySupersedeChanges | FileGuardCore/Operations.c:131-151 | a create that a readonly rule does not complete creates or replaces the file exactly when its disposition is supersede |
| Callbacks.SupersedePasses | FileGuardCore/Operations.c:131-151 | superseding goes through under a readonly rule and changes the file whether it is there or not |
| Callbacks.PostCreate | FileGuardCore/Operations.c:249-344 | from the inputs alone: a drained operation, a failed query, allocation or publication and a lost race cancel the open with the status of each; an open that finds a context or gets one goes through; a failed open is neither cancelled nor changed |
| Callbacks.Refuse | FileGuardCore/Operations.c:415-425 | the switch on the major code answers with the rule's refusal and otherwise leaves the decision |
| Callbacks.PreWrite | FileGuardCore/Operations.c:392-439 | without a context or without a rule in it the write goes on untouched; a failed lookup or recording completes it with its status; otherwise it is completed as denied or write protected by the rule's code |
| Callbacks.PreSetInformation | FileGuardCore/Operations.c:491-631 | the same for the six information classes listed, others go on; a rename is completed with the first failing step's status, else as the destination's rule says, else as the file's own |
| Callbacks.PreFileSystemControl | FileGuardCore/Operations.c:681-735 | the same for the four control codes listed, although this callback refuses before it records; others go on |
| Callbacks.RuleBlocks | FileGuardCore/Operations.c:392-735 | with a valid rule in the context an operation is completed by the filter exactly when it is guarded, whatever recording, destination query and second lookup answer |
| RuleLifetime.UpdateNeverTaken | FileGuardCore/Rule.h:68-69 | with valid codes the update guard of a lost race is never true |
| RuleLifetime.FinishPreCreateKeeps | FileGuardCore/Operations.c:171-188 | ending pre-create, with or without a completion context, keeps the books balanced |
| RuleLifetime.TakeReferenceKeeps | FileGuardCore/Rule.c:390-395 | the reference of a lookup, taken after the list was let go of, keeps the books balanced or stops the machine |
| RuleLifetime.ReadEntryKeeps | FileGuardCore/Rule.c:393-394 | the second read of the entry, after the reference, keeps the books balanced or stops the machine |
| RuleLifetime.PublishKeeps | FileGuardCore/Operations.c:284-293 | setting the file context keeps the books balanced whether it fails, wins or loses the race |
| RuleLifetime.StoreRuleKeeps | FileGuardCore/Operations.c:312-313 | the second reference taken before the rule is stored passes to the context |
| RuleLifetime.CompareKeeps | FileGuardCore/Operations.c:293-335 | losing the race releases both contexts and the rule |
| RuleLifetime.DropRuleKeeps | FileGuardCore/Rule.c:107-128 | dropping a reference makes exactly the thread that reached zero responsible for freeing |
| RuleLifetime.FreeEntryKeeps | FileGuardCore/Rule.h:87-97 | a removed entry is freed once, by the thread that unlinked it |
| RuleLifetime.DropContextKeeps | FileGuardCore/Context.c:46-65 | the last holder of a context drops the context's rule, exactly once |
| RuleLifetime.OperationKeeps | FileGuardCore/Operations.c:392-631 | the callbacks on open files balance their references, the rename's rule included |
| RuleLifetime.StepKeeps | FileGuardCore/Operations.c:44-735 | every step of every thread keeps the invariant: exact reference, entry and holder counts, one thread to free, name before rule, readonly rules in contexts |
| RuleLifetime.RunKeeps | FileGuardCore/Operations.c:44-735 | so does every run |
| RuleOwnership.ReferencesAreExact | FileGuardCore/Rule.c:107-128 | in every reachable state References is one for the list plus live contexts plus threads and completion contexts that hold the rule; the rule is freed, at most once, exactly when the sum is zero, and its entry, at most once, after it was unlinked |
| RuleOwnership.NoUseAfterFree | FileGuardCore/Rule.c:107-128 | a listed rule, a rule of a live context and every rule a thread holds or reaches through a held context has a positive count and was not freed |
| RuleOwnership.LookupReferencesIff | FileGuardCore/Rule.c:390-393 | the reference a lookup takes meets memory it must not use exactly when the rule was unlinked since and its entry was freed or its count had reached zero; otherwise the thread ends up with one reference |
| RuleOwnership.LookupRereadsIff | FileGuardCore/Rule.c:393-394 | the read of the rule pointer after the reference meets freed memory exactly when the entry was freed since; the reference is held all the same |
| RuleOwnership.LookupFindsNewest | FileGuardCore/Rule.c:371-395 | for every interleaving a lookup finds the newest of the listed rules that match, and none exactly when none does |
| RuleOwnership.DecidesUnderContextRule | FileGuardCore/Operations.c:397-415 | while a callback decides, through the whole lookup of a rename's destination, every read of the context's rule gives the same live rule, and the name is there |
| RuleOwnership.OpensEndAsReported | FileGuardCore/Operations.c:249-344 | in every reachable state each step that ends a create logs what the post-create routine reports for inputs that match the step |
| RuleOwnership.NothingLeaks | FileGuardCore/Rule.c:556-587 | once the list is empty, no callback or create is under way and all contexts are torn down, every rule ever created and its entry were freed exactly once |
| RuleOwnership.NameBeforeRule | FileGuardCore/Operations.c:309-313 | a live context with a rule has its name in every reachable state |
| RuleOwnership.RunFollows | FileGuardCore/Operations.c:284-313 | over any run stored rules and codes never change, frees and outcomes only accumulate, and everything decided under a stored rule is a refusal of the guarded operations |
| RuleOwnership.BlockingPersists | FileGuardCore/Operations.c:392-729 | from the moment a context carries a rule it keeps it, and every operation decided on it later is completed by the filter exactly when it is guarded, even after the rule left the list |
| RuleOwnership.ContextsAreReadonly | FileGuardCore/Operations.c:126-177 | a file context only ever carries a readonly rule |
| RuleWindow.StepTakes | FileGuardCore/Operations.c:265-314 | a step attaches, meets or goes through with a context only if a file had it already or the step itself published it |
| RuleWindow.RunWindow | FileGuardCore/Operations.c:265-314 | in every run a context that is attached, met or gone through with has a rule or is being published by its creator |
| RuleWindow.OpensAreCovered | FileGuardCore/Operations.c:249-344 | for every interleaving: the context of an open under a rule that was not cancelled, and every context attached to a file, has no rule exactly while its creator is publishing it |
| RuleWindow.PassedDownIff | FileGuardCore/Operations.c:392-400 | for every interleaving: a callback that fetched a context passes the operation down exactly while the context is being published, and otherwise decides under its rule |
| RuleWindow.ThroughThenBlocked | FileGuardCore/Operations.c:249-735 | for every interleaving before and after: once an open under a rule went through and its context is not being published, the context has a rule and keeps it, and every later operation on it is completed by the filter exactly when it is guarded |
| RuleWindow.RunFileStays | FileGuardCore/Context.c:46-65 | over any run without its teardown a file keeps the context it has |
| RuleWindow.FileIsProtected | FileGuardCore/Operations.c:249-735 | for every interleaving before and after: a file whose context is not being published keeps that context and its rule until it is torn down, every callback that starts on the file fetches it, and every operation decided on it is completed by the filter exactly when it is guarded |
| RuleWindow.LostRaceReadsRuleIff | FileGuardCore/Operations.c:293-344 | in every reachable state the comparison after a lost race reads a null rule exactly while the thread that won stands between setting its context and storing the rule; otherwise it changes no rule and no context and the open is cancelled |
| RuleUndisturbed.OpenUndisturbed | FileGuardCore/Operations.c:91-344 | from any reachable state a first open under a rule runs to its end: the file has a named context that carries the rule, the rule one more reference, and nothing else changed |
| RuleUndisturbed.JoinUndisturbed | FileGuardCore/Operations.c:91-344 | from any reachable state an open of a file that has a context goes through with it and leaves nothing else behind |
| RuleUndisturbed.OperationUndisturbed | FileGuardCore/Operations.c:392-439 | from any reachable state an operation on a file under a rule is decided under that rule and leaves nothing else behind |
| RuleUndisturbed.RenameUndisturbed | FileGuardCore/Operations.c:500-577 | from any reachable state a rename onto a name that matches a rule is decided under both rules and gives back both references |
| RuleUndisturbed.RemovalUndisturbed | FileGuardCore/Rule.c:316-342 | from any reachable state a removal unlinks the rule, frees its entry, gives up the list's reference and frees the rule exactly if that was the last |
| RuleUndisturbed.CloseUndisturbed | FileGuardCore/Context.c:46-65 | from any reachable state tearing down a file whose context nobody else holds ends the context, gives up its reference and frees the rule exactly if that was the last |
| RuleSchedules.LostRaceCanReadNoRule | FileGuardCore/Operations.c:284-313 | a run of two opens of one file in which the comparison after the lost race reads null |
| RuleSchedules.WriteCanPassInWindow | FileGuardCore/Operations.c:265-314 | a run of two opens of one file in which the second goes through with the context of the first and its write is passed down |
| RuleSchedules.LookupCanMeetFreedRule | FileGuardCore/Rule.c:390-393 | a run in which a rule and its entry are freed between a lookup and its reference |
| RuleSchedules.RuleLives | FileGuardCore/Operations.c:44-439 | a run to rest in which a rule protects a file, refuses a write, is removed while the file is open and is freed when it is closed |
| MonitorRecords.BuildRecord | FileGuardCore/Monitor.c:93-128 | the filled block is the record's image, byte for byte, zero where no field lies |
| MonitorRecords.RecordBytes | Include/FileGuard.h:158-170 | the head of a record, field by field at literal offsets: functions at 0 and 1, process at 8, thread at 16, time at 24, codes at 56 and 58, sizes at 60 and 62, 72 bytes and the texts in all |
| MonitorRecords.RecordTexts | FileGuardCore/Monitor.c:118-126 | the expression starts at byte 66, the path right behind it, low byte first, and all other bytes are zero |
| MonitorRecords.RecordRoundTrip | FileGuardLib/FileGuardLib.c:129-131 | wherever a record's image lies, code, expression and path are read back from their offsets and the distance to the next record is its size |
| MonitorBatches.LongestPrefixIsMaximal | FileGuardCore/Monitor.c:334-348 | a prefix of the queue fits exactly when it is no longer than the greedy one |
| MonitorBatches.GreedyIsLongest | FileGuardCore/Monitor.c:334-348 | every way to stop as the loop stops takes that same prefix |
| MonitorBatches.DrainsIff | FileGuardCore/Monitor.c:317-377 | repeated calls drain the queue exactly when every record fits into one batch, and then within as many calls as there are records |
| MonitorBatches.RecordQueue.RecordRuleMatched | FileGuardCore/Monitor.c:87-139 | at the limit nothing changes and the status says so; otherwise one record joins the tail and is counted; run alone it never exceeds the limit |
| MonitorBatches.RecordQueue.GetRecords | FileGuardCore/Monitor.c:317-377 | whatever arrives at each release of the lock: the taken records followed by the queue are the old queue followed by the arrivals, the buffer holds exactly the taken records, the next record would not fit, each taken record is counted off once, and the three statuses are told apart |
| MonitorBatches.ArrivedIs | FileGuardCore/Monitor.c:350-366 | what arrives during a call is what each release of the lock lets in, one after the other |
| MonitorBatches.AloneTakesLongest | FileGuardCore/Monitor.c:333-376 | with no recorder running a call takes the longest fitting prefix, and nothing exactly when the head alone does not fit |
| MonitorBatches.MonitorRound | FileGuardCore/Monitor.c:260-303 | whatever arrives at any time: without a client nothing is taken; with one the batch is the front of the queue and of what arrives, fits the message, and goes on until the queue is empty or its head does not fit; a message that carries exactly that batch is handed over unless the head alone did not fit; the status tells these apart |
| MonitorBatches.RoundIsDetermined | FileGuardCore/Monitor.c:260-377 | queue, arrivals and client leave a round no choice: what it takes and what it leaves are determined |
| MonitorBatches.MonitorRounds | FileGuardCore/Monitor.c:260-308 | any number of rounds, with and without a client, with sends that fail, with records arriving at any time: each round starts with the queue the last one left and does what a round does; the messages that reach the client carry the batches of exactly the rounds whose send succeeded; all batches taken and the queue are exactly what was queued and arrived, in order |
| MonitorBatches.HistoryIsDetermined | FileGuardCore/Monitor.c:260-308 | the whole history of batches and queues is a function of the first queue and the surroundings |
| MonitorBatches.RoundsConserve | FileGuardCore/Monitor.c:260-377 | over any number of rounds the batches taken followed by the queue are the first queue followed by all arrivals, in order |
| MonitorBatches.HeardIs | FileGuardCore/Monitor.c:260-368 | all arrivals are those of the waits and of the lock releases, round by round |
| MonitorBatches.DeliveredAt | FileGuardCore/Monitor.c:272-301 | the batches that reach the client are, in order, those of exactly the rounds with a client and a successful send, but for rounds whose head alone does not fit |
| MonitorBatches.NothingLostIff | FileGuardCore/Monitor.c:289-303 | the client is handed every record that was taken exactly when no send failed that carried any |
| MonitorBatches.QuietRounds | FileGuardCore/Monitor.c:333-376 | with clients there and no recorder running, rounds leave the queue that as many calls leave which take the longest fitting prefix |
| MonitorBatches.RecordQueue.CleanupMonitorRecords | FileGuardCore/Monitor.c:380-406 | empties the queue and counts every record off |
| MonitorClient.ImagesAreRecords | FileGuardCore/Monitor.c:353-361 | the records of a batch lie one after the other from its start |
| MonitorClient.OffsetsLead | FileGuardLib/FileGuardLib.c:129-131 | every offset the parser stores leads to its record, whole |
| MonitorClient.ParseMonitorRecords | FileGuardLib/FileGuardLib.c:92-136 | insufficient exactly when there are more records than slots; the count and the stored offsets are those of the first records that have a slot, other slots stay |
| MonitorClient.ParseAll | FileGuardLib/FileGuardLib.c:186-203 | doubling ends with every record parsed exactly when all lengths it asks for are granted; the sixteen-bit length stays at most 512 and grows to less than twice the count |
| MonitorClient.GrantedFromStart | FileGuardLib/FileGuardLib.c:186-203 | from 32 slots doubling asks for 64, 128, 256 and 512 in turn, each exactly when the count exceeds the length before it |
| MonitorClient.CallBack | FileGuardLib/FileGuardLib.c:207 | the callback sees every record of the message once and in order |
| MonitorClient.ReceiveMonitorRecords | FileGuardLib/FileGuardLib.c:138-216 | over a whole session the callback sees the records of all messages handled, in order; those are the messages before the first for which a length that doubling asks for is refused |
| MonitorClient.HandledUpToRefusal | FileGuardLib/FileGuardLib.c:182-213 | every message before the stop had its lengths granted, and the one at the stop had not |
| MonitorClient.HandledAllIff | FileGuardLib/FileGuardLib.c:186-203 | a growing array handles every message exactly when the lengths each would need if it came first are granted |
| MonitorClient.ReceivedAllIff | FileGuardLib/FileGuardLib.c:170-213 | every message is handled exactly when the first array and all lengths that doubling asks for from there are granted |
| MonitorClient.Relay | FileGuardCore/Monitor.c:278-296 | from the queue through the batch to the callback: what is seen is what was taken, in queue order, with arrivals behind it |
| MonitorClient.Session | FileGuardCore/Monitor.c:260-308 | whole sessions from queue to callback: the callback sees the records of exactly the rounds whose send succeeded, in queue order, up to the first refused length; when it sees them all, what it saw followed by the queue is what was queued and arrived exactly when no send failed that carried records |
| MonitorQueue.RecordsAreConserved | FileGuardCore/Monitor.c:260-368 | at every step of every run batches handed over, batch in hand, dropped records and queue are together exactly the inserted records in order |
| MonitorQueue.BatchesAreConsecutive | FileGuardCore/Monitor.c:287-301 | batch k is the run of inserted records right behind batch k - 1 and fits the message, so no record is sent twice and a failed send loses that batch alone |
| MonitorQueue.HistoryGrows | FileGuardCore/Monitor.c:136 | no step takes back or reorders an insertion or a batch |
| MonitorQueue.RoundTakesLongest | FileGuardCore/Monitor.c:333-376 | with no recorder running a round of the monitor thread hands over the longest prefix of the queue that fits a message, counts exactly those records off, and sends nothing exactly when the head alone does not fit |
| MonitorQueue.CounterIsExact | FileGuardCore/Monitor.c:89-106 | the counter is records counted but not inserted, plus the queue, plus the one unlinked but not counted off |
| MonitorQueue.CounterIsBounded | FileGuardCore/Monitor.c:89-106 | with k recorders it never exceeds the limit plus k - 1 |
| MonitorQueue.CounterBoundIsReached | FileGuardCore/Monitor.c:89-106 | and for every k and every positive limit some run reaches that |
| MonitorQueue.CleanupResetsCounter | FileGuardCore/Monitor.c:389-403 | with recorders and monitor thread at rest the cleanup empties the queue and brings the counter to zero |

## Left out

- RuleList.RuleStore.MatchRules: the list is at rest between lookup and reference; what a removal in between does is in `RuleOwnership.LookupReferencesIff`.
- RuleList.RuleStore.GetRules: the lists for which the writing walk leaves the buffer are excluded; `RuleFrames.WalkInsideIff` says which they are.
- RuleList.RuleStore.WriteRules: the same lists.
- RuleClient.FglQueryRules: the same lists, for the buffer the library passes.
- RuleClient.QueryRules: the same lists, for the size first reported; what the parser makes of bytes that are no frames is one outcome, `Garbled`.
- RuleService.ServeAndQuery: the same lists.
- RuleClient.FglCheckMatchedRules: a path name of two gigacharacters and more is excluded, its message does not fit the size field.
- RuleClient.CheckMatchedRules: the same path names.
- RuleClient.AddBulkRules: requests of four gigabytes and more are excluded, the driver gets only a part of their message.
- RuleClient.RemoveBulkRules: the same requests.
- RuleService.Serve: the dispatcher's rejections of undersized input and output are not modelled here, because the library's additions and removals never meet them; a query can, and there `RuleClient.FglQueryRules` models it.
- MonitorBatches.RecordQueue.GetRecords: a fault during the copy and the put-back it causes are not modelled.
- MonitorRecords.BuildRecord: file id and rename path stay empty, as every caller leaves them; with a rename path the block the driver asks for would be too short.
- MonitorQueue.Step: a waiting monitor thread may wake at any time; whether a wake-up can be missed between the test of the queue and the clearing of the event is not claimed.
- RuleLifetime.Step: reference counts of name-information objects, which the filter manager owns, are reduced to whether a context's name is there.
- Driver load and unload, registry, ports and threads, unload and detach flags, version reporting: plumbing around the modelled state.
- The bodies of the matcher, the upcase routine and the string comparison.
- Null-pointer checks of entry points, structured exceptions, logging.
- Single-rule wrappers of the library, command-line parsing and printing: they add no state.
