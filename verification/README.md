# Slot exchange of the RA6E2 OTA bootloader

A bootloader that runs one application slot and installs updates by exchanging it with a staging slot, sector by
sector, through one scratch sector. Power may go at any moment of the exchange. These proofs cover the code that makes
that safe: the flash layer with its chunked copy and its two checksums, the boot record, the swap log, the swap engine
with trial images and rollback, the mailbox handshake, and the boot sequence around them.

## How it is organised

| file | contents |
|---|---|
| `Layout.dfy`, `Mailbox.dfy`, `BootRecord.dfy` | flash map and vector test, RAM mailbox, 64-byte record and the decisions read from it |
| `Gf2.dfy`, `Crc32.dfy`, `Crc16.dfy` | polynomials over GF(2), and the two checksums as their instances |
| `FlashModel.dfy`, `SwapModel.dfy` | the board as a value, one driver call on it, and every operation above as a function |
| `BootFlash.dfy`, `RecordWriter.dfy`, `SwapEngine.dfy`, `BootEntry.dfy` | the C functions as methods over arrays and fields, each proved to do what its function in `SwapModel` says |
| `ScratchExchange.dfy` | the three-leg exchange of two slots of any number of sectors |
| `DriverFacts.dfy`, `Exchange.dfy`, `EngineRuns.dfy` | the exchange under arbitrary interruption, and whole runs of the engine |
| `Ideal.dfy`, `Refinement.dfy` | what a boot is meant to do, without flash or logs, and the proof that a boot does just that |
| `Runs.dfy`, `Trials.dfy`, `Convergence.dfy` | whole runs of boots, cuts, application runs and resets |
| `Faults.dfy`, `MixedImages.dfy` | boots under any script: what errors and lies cannot break, and which image is jumped into |
| `Reports.dfy` | what engine and boot report, and what each report says of record, log and slots |
| `TornWords.dfy`, `TornTrap.dfy` | cuts that tear log words: when the board comes up and into what, and the one way in which it never does again |

There are three levels. On *bytes*, `BootFlash.Board` has arrays of cells, the record block, log words, the copy buffer
and the mailbox RAM; `BootEntry.Bootloader.HalEntry` is the boot sequence on them. On *sectors*, `SwapModel.Boot` is the
same sequence as a function; `HalEntry` ensures it computes exactly that. On *plans*, `Ideal.IdealBoot` has no flash at
all: a swap is one step, a trial is a flag; `Refinement.BootRefines` shows that every boot is an ideal boot, or an ideal
boot stopped at a point where the next one can go on. Properties of whole runs are proved on plans and carried down.

## The fault model

Every flash driver call takes one event from a script, and a property of all scripts is a property of all placements of
faults. An event is one of:

- *Good*: the call does what was asked;
- *Cut*: the range it was working on is left in any state, and the power is gone - nothing has an effect until the next
  reset;
- *Fail*: the same with an error code instead of a cut; *Refused*: an error code and no effect;
- *Lie*: success is reported, but the result is not the one asked for: code flash is programmed with other bytes, the log
  is erased in part, the record block is left unreadable, as it was, or as asked.

A cut between two calls is a cut in the second one that leaves its range as it was. In detail:

- An erased data flash word reads as anything; only the blank check tells it apart. The blank check never lies.
- Erased code flash reads as 0xFF. It is programmed in whole write units, and only where it is erased.
- A log erase that is cut blanks some words and leaves the others. A log word that is cut is programmed, blank or torn.
  A word that is not blank cannot be programmed again; a cut may tear it again.
- A record commit that is cut leaves the old record, the new one, or an unreadable block. That an unreadable block
  happens to pass for a record nobody wrote is excluded. What the block reads as does not change before the next commit.
- A reset keeps the mailbox or replaces it by random bytes that are not a request.
- The application writes the secondary slot and the mailbox, while it runs.

Which faults a result admits is in its hypotheses.

- `HonestScript` (engine results: `CrashSafeExchange`) allows everything but lies. `VerificationSurvives`,
  `BootloaderUntouched` and the methods allow everything. `Sure` marks the results that a lying record commit would
  break: the driver is honest, or there is no old record for the commit to leave in place.
- `FairCycle` (`TornWords.NoBrickUnlessTrapped`) allows calls that work and cuts of every kind, torn log words included.
- `CleanCycle` (the other whole-boot results) allows the same without torn log words.

The last two differ because hal_entry looks at the vector table of the primary slot and not at the exchange, and because
a torn log word can never be programmed again. A board with a torn word resumes its exchange, repeats the leg before that
word and stops there, boot after boot, until a request or recovery erases the log (`TornWords.TornWordIsForGood`). What
becomes of it is decided before the boot begins (`TornWords.TornWordDecides`):

- *Trapped.* If the word is the one of the second leg, and the image in the primary slot cannot run, the board does not
  come up, and never will unless a further cut happens to turn the torn word into the right one. The second leg puts the old vector table into the secondary slot as well, so neither slot can run, recovery
  has nothing to turn to, and with no application there is nothing to erase the log. One power cut is enough, on a
  healthy board where recovery is installing the only image that can run (`TornTrap.OneCutTraps`,
  `TornTrap.TrapIsForGood`, `TornTrap.OneCutIsEnough`).
- *Up.* Otherwise it comes up: in the new image if the first word is torn and recovery has to be entered, and else in the
  sectors of the new image that the legs have brought - none at the first two words - followed by the old one.

Calls that return errors can also end in a jump into sectors of both images: through recovery over a half-done exchange
(`MixedImages.FailedCallMixesImages`) or without it (`MixedImages.FailedLegIsNoObstacle`). For all ways the engine call can
end, `MixedImages.JumpIsWholeExactly` says when the boot jumps into one of the two images in full, and
`MixedImages.WholeByLogCount` says it by the number of logged legs. The exchange itself survives this: with a driver that
works again it stays under way, or gets completed, if and only if recovery is not entered or is entered with nothing moved
(`Faults.OnlyRecoveryEndsCourse`) - as long as the application that was reached does not stage over the part of the
secondary slot it needs (`MixedImages.RewriteKeepsCourse`). A swap request sent from a mixed image is a further matter: it
is accepted, and exchanges the mix.

## Where the code and its documentation differ

- README.md:91-93 says a trial that is not confirmed is always rolled back. A cut inside the commit that arms the
  rollback can leave the record unreadable, and a trial image that can run then stays for good
  (`Trials.RollbackCanBeForgotten`). With no request pending, and calls that work or are cut, the rollback happens if and
  only if the previous image can run and the last reset does not find the record unreadable with a trial image in place
  that can run too (`Trials.RollbackUnlessForgotten`).
- src/boot_flash.c:144-149 allows for a short last chunk. For a code flash destination a size that passes the check at
  src/boot_flash.c:78-81 is a whole number of chunks, so there is none; `CopyChunks` covers it all the same.
- src/boot_record_write.c:49-51 reads the record back but compares nothing: a commit that succeeded has left a readable
  record. With an honest driver it is the one asked for, since half-written blocks do not pass for other records. A driver
  that reports success for an erase and a program without effect leaves the old record, and the commit succeeds: the
  read-back is enough for every driver if and only if there is no other record to stay in place
  (`DriverFacts.ReadBackSufficesExactly`). A swap request can so be lost without an error (`Faults.RequestCanBeLost`), and
  CRC_FAIL be reported for the very image that was staged (`EngineRuns.LostArmingBlamesImage`).
- src/hal_entry.c:75-93 counts on recovery wherever the secondary slot holds an image that can run. A cut in the log entry
  of its second leg takes that image out of reach (`TornTrap.OneCutTraps`).
- src/boot_swap.h:44 says that after an error the log still describes where the exchange stopped. The recovery branch of
  src/hal_entry.c:49-52 may erase that log in the same boot (`MixedImages.FailedCallMixesImages`).
- src/boot_mailbox.h:194-196 calls ERR_SWAP an exchange that will resume on the next boot. It does not mean that the image
  running is whole (`MixedImages.FailedLegIsNoObstacle`), nor, after a torn log word, that resuming gets any further
  (`TornWords.TornWordIsForGood`).
- src/boot_layout.h:122-123 calls the log empty or a description of the swap in flight; after a completed swap it keeps
  the entries of that swap until the next one is armed, and the acknowledgement counts them (`Refinement.AckCountsLegs`).

## Model

| member | source | states |
|---|---|---|
| Runs.NoBrick | src/hal_entry.c:42-73 | After any run of boots, cuts that tear no log word, resets, application writes and mailbox contents from a healthy board, a boot that runs to its end jumps, into an image that can run and that is one of the two images in full. |
| TornWords.NoBrickUnlessTrapped | src/hal_entry.c:42-73 | The same with cuts that tear log words, exactly: a boot that runs to its end jumps, and into an image that can run, if and only if the reset before it does not find the word of the second leg torn with no runnable image in the primary slot. It comes up in one of the images in full or, at a torn word, in the mix the legs up to it have made. Applications must leave an exchange alone that was acknowledged ERR_SWAP. |
| TornWords.RunIsKept | src/hal_entry.c:42-113 | The invariant of every reset in such runs, and one of the two images that can run. |
| TornWords.KeptIsHealthy | src/boot_layout.h:118-134 | Without a torn word it is the invariant of clean runs. |
| TornTrap.OneCutTraps | src/hal_entry.c:94-113 | On a healthy board where only the secondary slot can run, one power cut, in the log entry of recovery's second leg, leads into the trap. |
| TornTrap.TrapIsForGood | src/hal_entry.c:61-65 | From there no boot that runs to its end jumps, whatever clean cycles follow. |
| TornTrap.OneCutIsEnough | src/hal_entry.c:61-65 | Both together: a healthy board, one cut, and no jump ever after. |
| Runs.FreshBoardIsHealthy | src/boot_layout.h:162-207 | Any board with no swap under way and one slot that can run meets the hypothesis of NoBrick, whatever log, scratch and mailbox hold. |
| Runs.RunKeepsHealth | src/hal_entry.c:42-113 | The invariant of every reset: a swap under way has an orderly log, carries the checksum of an image that can run, and any request still pending is the one that armed it. |
| Runs.ImagesStayWhole | src/boot_swap.c:157-187 | In every reachable state the two images - in the slots or split over slots and scratch - are images the run started with or the application wrote, each in full. |
| Runs.AckIsTruthful | src/hal_entry.c:180-212 | A boot that runs to its end acknowledges SWAPPED or REVERTED exactly when the two images changed places since the last reset state, and otherwise both are where they were. |
| Runs.RequestRunsOnce | src/hal_entry.c:124-175 | A pending permanent request, through any number of cut boots, ends in exactly one exchange of the two images, with nothing left planned; the mailbox is kept by every reset. |
| Convergence.RequestRunsAtMostOnce | src/hal_entry.c:124-175 | Warm or cold resets, cut or finished boots: until another swap is asked for, the images change places at most once after a permanent request, and at most twice, there and back, after a trial request. |
| Convergence.ExchangesAreBounded | src/hal_entry.c:87-93 | From any reachable state, the number of boots that move the images is bounded by what plan and request still allow: two for a trial, one for any other swap, rollback or recovery, none at rest. |
| Convergence.PendingRequestIsUntouched | src/hal_entry.c:143-174 | In every reachable state a request that is pending while a swap is armed is the request for that swap, its log is empty and no slot data has moved. |
| Convergence.ComesToRest | src/hal_entry.c:87-93 | Without new swap requests, two boots that run to their end bring the board to rest from any reachable state, whatever cuts lie between them. |
| Convergence.CutDescends | src/boot_swap.c:157-187 | A boot that is cut never leaves the board further from rest, by phase and then by legs still to go. |
| Convergence.FinishedBootDescends | src/hal_entry.c:94-113 | A boot that runs to its end strictly lowers the phase until the board is at rest; at rest it exchanges nothing. |
| Convergence.RestIsFinal | src/hal_entry.c:87-93 | No oscillation: at rest, no run without a new swap request ever changes the primary slot or reports an exchange. |
| Convergence.ConfirmIsFinal | src/hal_entry.c:154-166 | After CONFIRMED is acknowledged no sequence of resets and cuts brings the previous image back or leaves a rollback pending. |
| Trials.ExactRollback | src/boot_swap.c:123-152 | An unconfirmed trial is rolled back to exactly the pre-trial slots by the next boot that runs to its end, however often it is cut, unless a cut made the record unreadable. |
| Trials.RollbackUnlessForgotten | src/boot_record.c:152-173 | The next boot that runs to its end rolls an unconfirmed trial back if and only if the previous image can run and the last reset does not find the record unreadable with a runnable trial image in place; otherwise both slots are as they were. For any two images. |
| Trials.RollbackCanBeForgotten | src/boot_record_write.c:33-52 | One cut, in the record erase that arms the rollback, is enough to forget it. |
| Trials.RollbackKeepsPair | src/boot_record_write.c:33-52 | Wherever cuts fall, commits included, the board holds one of the two whole pairs of images. |
| Trials.FinishedBootKeepsPair | src/boot_record_write.c:33-52 | The boot that runs to its end after any such cuts leaves the two images in the slots, in full, in one order or the other. |
| Trials.TrialRoundTrip | src/boot_swap.c:198-208 | A trial request between two images that can run, never confirmed, with cuts before and after that leave the record readable, has both images back in place after the second boot that runs to its end. |
| Refinement.BootRefines | src/hal_entry.c:42-73 | A boot that runs to its end computes the ideal boot - plan, slots, request, status and command - and acknowledges it; one that is cut, torn log words included, leaves a stopping point of the ideal boot. |
| Refinement.RequestRefines | src/hal_entry.c:124-175 | Handling the mailbox takes the request as the ideal board does, or is cut with the old plan, the new plan or none. |
| Refinement.SwapRefines | src/hal_entry.c:180-212 | Running the engine carries out, resumes, rolls back or settles what the plan says, or is cut on the way. |
| Refinement.RecoveryRefines | src/hal_entry.c:94-113 | Recovery exchanges the slots exactly when the primary cannot run and the secondary can. |
| Refinement.HandOverRefines | src/hal_entry.c:54-72 | The jump happens exactly when the primary slot can run, and the acknowledgement left behind is valid and says what happened. |
| Refinement.AckCountsLegs | src/hal_entry.c:54-67 | The detail acknowledged is, as a number, the number of legs the log holds, or 0 when the boot ends in the trap: the cast to a byte loses nothing. |
| Ideal.BootIsTruthful | src/hal_entry.c:180-212 | The report of an ideal boot says SWAPPED or REVERTED exactly when the pair was mirrored. |
| Ideal.BootKeepsSound | src/hal_entry.c:94-113 | An ideal boot ends with no swap under way, no request, and an image that can run in the primary slot if there is one. |
| Ideal.StopKeepsSound | src/boot_swap.c:100-152 | Wherever a boot stops, a planned swap still has an image that can run to install, and one of the two images can run. |
| Ideal.BootDescends | src/hal_entry.c:87-93 | An ideal boot strictly lowers the phase, ends at rest or on trial, and leaves a board at rest as it is. |
| ScratchExchange.HitKeepsOrigin | src/boot_swap.h:4-14 | For slots of any number of sectors, whatever is left at the destination of the next leg, the images the exchange started from are still determined, and the same. |
| ScratchExchange.LegKeepsOrigin | src/boot_swap.h:4-14 | For any number of sectors, a completed leg keeps them one count further on. |
| ScratchExchange.OriginAtEnd | src/boot_swap.h:4-14 | For any number of sectors, after the last leg the slots hold each other's images. |
| Exchange.RepeatedLegIsHarmless | src/boot_swap.c:66-94 | At every log count the destination of the next leg may hold anything without changing the pair the exchange started from. |
| Exchange.CompletedLegAdvances | src/boot_swap.c:66-94 | A completed leg leaves that pair the same one log entry further on. |
| Exchange.BeforeAtEnd | src/boot_swap.c:173-187 | With all legs logged the slots hold the mirrored pair, sector by sector. |
| Exchange.ScanIsExact | src/boot_swap.c:24-52 | The scan returns exactly the number of logged legs, whatever erased words read as, and changes no flash. |
| Exchange.LoggingKeepsOrder | src/boot_flash.c:98-103 | A log write, cut or torn, keeps the log a description of one swap, and advances it by one leg or not at all. |
| Exchange.LegKeepsCourse | src/boot_swap.c:173-187 | One leg and its log entry, ending in any way, keep the exchange of the same pair under way. |
| Exchange.LegsKeepCourse | src/boot_swap.c:173-187 | So does the whole loop; if it succeeds every leg is logged. |
| Exchange.ProcessAdvances | src/boot_swap.c:114-221 | One call on an exchange under way, under any honest script, leaves it under way with no leg lost, or complete with a completion record or none; success means complete. |
| EngineRuns.CrashSafeExchange | src/boot_swap.c:157-221 | Over any number of calls cut or failing anywhere: as long as an exchange is asked for it is the same one, and as soon as none is, both slots hold the mirrored pair in full. |
| EngineRuns.VerificationSurvives | src/boot_swap.c:189-217 | Even when copies silently write wrong bytes, over any number of resumed boots, DONE or REVERTED means that all the bytes of the primary slot have the CRC32 taken at arm time (or none was taken), CRC_FAIL that they have another, and NONE is never the answer. |
| EngineRuns.StagedImageIsVerified | src/boot_swap.c:100-221 | After a boot_swap_start that succeeded with an honest driver or without an old record, whatever the calls of any number of boots then do, lies included, DONE or REVERTED means that the bytes of the whole primary slot have the CRC32 of the bytes of the whole image that was staged (or that CRC32 is the unset value), and CRC_FAIL that they have another. |
| EngineRuns.BurstIsCaught | src/boot_swap.c:189-217 | However many boots it takes: if what arrives differs from the image the reference was taken of inside four consecutive bytes anywhere in the slot, the exchange is never reported as complete. |
| EngineRuns.LostArmingBlamesImage | src/boot_swap.c:104-217 | With a lying commit over a record that is still armed, boot_swap_start succeeds, the staged image arrives in full, and CRC_FAIL is reported for it. |
| EngineRuns.ArmingCanBeLost | src/boot_record_write.c:58-113 | Arming can succeed with the log erased and the old record in place. |
| EngineRuns.ProcessVerifies | src/boot_swap.c:154-217 | The same for one call, and the reference is kept as long as the exchange is asked for. |
| EngineRuns.StartSetsCourse | src/boot_swap.c:100-112 | Arming moves nothing, is refused with INVALID_DATA exactly when the staged image cannot run, and on success the scan finds no leg and the exchange is armed, unless a lying commit has kept the old record. |
| EngineRuns.RequestSwapFacts | src/boot_record_write.c:58-113 | Under any script arming leaves slots, scratch and mailbox alone; the record changes only once the log is provably empty; success means an empty log and a readable record, the armed one if the driver is honest or there was none. |
| EngineRuns.ClearLogFacts | src/boot_record_write.c:65-99 | The log erase with its retry succeeds only with every word blank, and touches nothing else. |
| EngineRuns.UpdatesAreNumbered | src/boot_record_write.c:18-136 | Each successful update leaves a readable record; unless a lying commit has kept the old one, it has the previous number plus one modulo 2^32, or 1, every field asked for, and the others - reference checksum, flags, reserved bytes - kept, or at their defaults if there was no record. |
| EngineRuns.OtherTypesAreRefused | src/boot_record_write.c:60-63 | Any swap type but the three is refused with nothing touched, not even the log. |
| EngineRuns.OneFailedBlankingIsForgiven | src/boot_record_write.c:65-99 | A log erase that reports success and blanks nothing is found out and repeated, and the clear succeeds with every word blank. |
| EngineRuns.TwoFailedBlankingsAreRefused | src/boot_record_write.c:65-99 | If the second one fails in the same way the request ends in ERASE_FAILED, before the record is touched. |
| Reports.JumpEntersSlot | src/hal_entry.c:61-69 | Any boot that jumps enters an odd address inside the primary slot, with a stack pointer in RAM that is a multiple of 8, both the first words of the slot. |
| Reports.EngineDecides | src/boot_swap.c:114-131 | By the fields of the record: an unreadable record, an unknown type, or a completed swap that is no unconfirmed trial leave everything alone; an incomplete one of a known type never does. |
| Reports.RollbackReport | src/boot_swap.c:133-155 | An unconfirmed trial, any script: with a runnable previous image the answer is never NONE, and REVERTED or CRC_FAIL by the checksum of what is in place against that of the image moved back; without one nothing moves, and NONE of an honest driver means the trial is over. |
| Reports.ConclusionIsRecorded | src/boot_swap.c:196-217 | An engine call that concludes, CRC_FAIL included, has recorded type, flags, number and the checksum of the whole primary slot, unless a lying commit has kept the armed record. |
| Reports.ReportOfConclusion | src/hal_entry.c:180-212 | Under any script, lies included, where the primary slot can run: ERR_SWAP exactly when the engine met an error; otherwise ERR_CRC exactly when the CRC32 of the primary slot is not the armed one, else REVERTED for a rollback, else an earlier rejection, else SWAPPED. The acknowledgement is valid and says the same. |
| Reports.UninterruptedReport | src/hal_entry.c:180-212 | From what flash and mailbox hold, with calls that work: a boot that finds any number of legs logged completes the exchange, records it and jumps, and reports ERR_CRC exactly when the armed reference is not the CRC32 of the new image, else REVERTED for a rollback, else the rejection of the request beside it, else SWAPPED. |
| Reports.RequestAtOnceReport | src/hal_entry.c:124-212 | With calls that work, a swap request for a runnable image exchanges the slots as they are in the same boot, whatever swap was under way, and is reported SWAPPED; a trial leaves a rollback planned. |
| Reports.ConfirmReport | src/hal_entry.c:154-166 | A confirm, under any script: without a trial it only clears the mailbox; with one CONFIRMED means the update succeeded, and for an honest driver that no rollback is pending, and a failed update is ERR_WRITE. Nothing moves and the log stays. |
| Reports.UnknownRequestReport | src/hal_entry.c:167-174 | Any other command is answered ERR_REQUEST, without the command, and only cleared. |
| DriverFacts.CommitFacts | src/boot_record_write.c:33-52 | A commit leaves the old record, none or the new one; success means a readable one, and the new one if the driver is honest or there was no old one; nothing else changes. |
| DriverFacts.ReadBackSufficesExactly | src/boot_record_write.c:49-51 | For every driver a successful commit leaves the record asked for, if and only if there was none before or the same one. |
| DriverFacts.LyingCommitKeepsRecord | src/boot_record_write.c:33-52 | Over any record, an erase and a program that report success without effect make a commit that succeeds and changes nothing. |
| DriverFacts.CopyFacts | src/boot_flash.c:133-167 | A copy changes only its destination sector; with honest success it holds what the source held. |
| DriverFacts.TransferMoves | src/boot_flash.c:133-167 | The chunk loop delivers the whole source range or reports an error, and uses up only power and script. |
| Faults.BootloaderUntouched | src/boot_layout.h:38-63 | No run, under any script, changes the code flash below the scratch area. |
| Faults.BootIsLater | src/hal_entry.c:42-73 | Under any script a boot changes no flash below scratch, and power only goes where the script cuts it. |
| Faults.UncutBootFinishes | src/hal_entry.c:42-73 | A boot whose driver calls all work runs to its end, from any state: what the other results say about such boots is never empty. |
| Faults.RequestReport | src/hal_entry.c:124-175 | Under any script a swap request moves nothing; it is rejected as ERR_IMAGE exactly when the staged image cannot run, with nothing changed but the cleared mailbox; no error means an empty log and its exchange armed, unless a lying commit has kept the old record. |
| Faults.RequestIsSureExactly | src/hal_entry.c:143-174 | For every driver, a request that meets no error has its exchange armed, if and only if there was no record or one that asks for the same already. |
| Faults.RequestCanBeLost | src/hal_entry.c:143-174 | With a lying commit over any record, a request is cleared and reported without an error, and nothing is armed. |
| Faults.ExchangeReport | src/hal_entry.c:42-212 | A boot that resumes an exchange, engine errors allowed. Primary can run: no error reported means complete and recorded, under way means ERR_SWAP, REVERTED and SWAPPED say which exchange it was. Primary cannot: SWAPPED with the slots exchanged if recovery had an image to turn to, and otherwise ERR_IMAGE, no jump and unmoved slots. |
| Faults.ReportIsVerified | src/hal_entry.c:94-205 | With a lying driver, SWAPPED and REVERTED stand for a primary slot with the CRC32 taken when its exchange was armed, resumed or armed by recovery after a failed one, or for one with the CRC32 of the old record where a lying commit kept that; ERR_CRC stands for one with another CRC32 unless recovery has moved the slots since. |
| Faults.EngineErrorsKeepCourse | src/hal_entry.c:42-73 | Under any honest script a boot that does not enter recovery leaves the exchange under way or complete. |
| Faults.OnlyRecoveryEndsCourse | src/hal_entry.c:49-52 | After any engine errors, once the driver works again, the exchange stays under way or gets completed if and only if recovery is not entered, or is entered with nothing moved. |
| MixedImages.JumpIsWholeExactly | src/hal_entry.c:49-69 | For all images, and however the engine call ended, a boot that keeps its power jumps if and only if one of the slots can run, and into one of the two images in full if and only if moreover the sectors where they meet join up, in the primary slot or, where recovery is entered, in the secondary slot. |
| MixedImages.WholeByLogCount | src/hal_entry.c:49-69 | For two images that can run and differ in every sector: the boot jumps, and into a whole image if and only if at most one leg or every leg is logged, or the third leg's destination is still as it was, or the last leg's already as it will be. |
| MixedImages.FailedCallMixesImages | src/hal_entry.c:94-113 | One failing erase in the third leg sends the boot through recovery, which reports SWAPPED and jumps into a mix of the two images. |
| MixedImages.FailedLegIsNoObstacle | src/hal_entry.c:61-69 | One failing erase in the fourth leg, no recovery: the boot reports ERR_SWAP and jumps into the new first sector followed by the old image. |
| MixedImages.RewriteKeepsCourse | src/boot_swap.h:12-14 | An application reached mid-exchange that stages another image keeps the exchange under way if and only if it leaves alone every sector of the secondary slot but the next destination. |
| TornWords.TornWordDecides | src/hal_entry.c:42-73 | A boot at a torn word, decided before it begins: it jumps if and only if the word is not the one of the second leg or the old image can run, into the new image through recovery if the first word is torn and the old image cannot run, and otherwise into the new sectors of the legs up to the word followed by the old ones. |
| TornWords.TornWordMixesImages | src/hal_entry.c:61-69 | Torn at any word from the third to the last but one, with images that differ in every sector: the boot reports ERR_SWAP and jumps into neither of the two. |
| TornWords.CutTearsWord | src/boot_swap.c:183-186 | A power cut inside the log write of a completed leg leaves a torn word and the exchange under way. |
| TornWords.EngineStopsAtTornWord | src/boot_swap.c:165-187 | With a torn word after the logged legs, every engine call whose driver calls work or are cut ends in an error and keeps the record; with its power kept, it keeps the log too and has done the leg once more. |
| TornWords.TornWordIsForGood | src/boot_swap.c:157-187 | So does any number of boots: the exchange never gets past the torn word by resuming. |
| Crc32.ChecksumIsRemainder | src/boot_flash.c:172-189 | The checksum, unmasked, is the remainder of a long division over GF(2) of the message with the initial value added, for every message. |
| Crc32.RegisterIsSerial | src/boot_flash.c:176-186 | Byte by byte the register does what a bit-serial divider for the generator of CRC32 does. |
| Crc32.PolynomialBits | src/boot_flash.c:184 | The constant is the reflected generator x^32 + x^26 + x^23 + ... + 1. |
| Crc32.TableFormAgrees | src/boot_flash.c:169-189 | The bitwise loop equals the table-driven form of section 8 of RFC 1952 on every message. |
| Crc32.BurstDetected | src/boot_flash.c:172-189 | Two images of one length that differ only inside four consecutive bytes have different checksums. |
| Crc32.MaskSelects | src/boot_flash.c:183-184 | The branch-free mask adds the polynomial exactly when the low bit is set. |
| Crc32.AbsorbByte | src/boot_flash.c:179-185 | The inner loop computes eight register steps after adding the byte. |
| Crc16.RegisterIsSerial | src/boot_record.c:14-36 | The CRC16 loop is a bit-serial divider for x^16 + x^12 + x^5 + 1. |
| Crc16.ChecksumIsRemainder | src/boot_record.c:14-36 | The checksum is the remainder of a long division over GF(2) of the message with sixteen ones added in front, for every message. |
| Crc16.BurstDetected | src/boot_record.c:14-36 | Two buffers that differ only inside two consecutive bytes have different CRC16. |
| Crc16.AbsorbByte | src/boot_record.c:20-32 | The inner loop computes eight register steps after adding the byte in front. |
| Crc16.Compute | src/boot_record.c:14-36 | The loop over a buffer computes the CRC16 of its first bytes. |
| BootRecord.PlacesInBody | src/boot_layout.h:97-115 | Every field is stored at the offset the structure gives it, words lowest byte first. |
| BootRecord.EncodeThenParse | src/boot_layout.h:97-115 | Every record that is committed reads back with every field. |
| BootRecord.ParseThenEncode | src/boot_record.c:41-64 | A block that reads as a record is, byte for byte, what committing that record writes. |
| BootRecord.ReadableExactly | src/boot_record.c:41-64 | A block reads as a record if and only if it begins with magic and version, byte for byte, and ends in the CCITT remainder of all the 62 bytes before. |
| BootRecord.DefaultBytes | src/boot_record.c:69-82 | The defaults, byte for byte. |
| BootRecord.DamageIsDetected | src/boot_record.c:41-64 | Changing a valid block inside two consecutive protected bytes, or only its stored CRC, always makes it unreadable. |
| BootRecord.ZeroBlockIsNoRecord | src/boot_record.c:51-54 | A zeroed block is not a record. |
| BootRecord.Read | src/boot_record.c:41-64 | Copying the block out and testing magic, version and CRC finds the record the bytes encode, or none. |
| Mailbox.ClearIsImmediate | src/boot_mailbox.h:113-117 | The request is gone after the first store of the clear, the one to the magic, and the acknowledgement is not affected. |
| Mailbox.AckIsAllOrNothing | src/boot_mailbox.h:136-152 | The acknowledgement is accepted after the last of its stores and after none before, and leaves a request pending or not as it was. |
| Mailbox.AlteredRequestIsRejected | src/boot_mailbox.h:98-110 | A request whose command or argument is altered no longer passes its check. |
| Mailbox.AlteredAckIsRejected | src/boot_mailbox.h:119-131 | An acknowledgement whose status, command or detail is altered no longer passes its check. |
| Mailbox.CheckBytes | src/boot_mailbox.h:98-102 | The check word of a request, byte by byte. |
| Mailbox.AckCheckBytes | src/boot_mailbox.h:119-124 | The check word of an acknowledgement, byte by byte. |
| Mailbox.Ram.Clear | src/boot_mailbox.h:113-117 | The stores of the clear leave the cleared mailbox. |
| Mailbox.Ram.SetAck | src/boot_mailbox.h:136-152 | The stores of the acknowledgement leave the acknowledged mailbox. |
| BootFlash.Board.Erase | src/boot_flash.c:67-84 | A size that is no whole number of the device's erase blocks - 8 KB below 0x10000, 32 KB above, 64 bytes in data flash - is refused with nothing touched; otherwise the driver, which counts in these blocks, is asked for exactly the range, and it is erased or in the state the driver leaves it in. |
| BootFlash.BlockSizeFitsDevice | src/boot_flash.c:20-33 | The block size the bootloader assumes is the device's, at every address. |
| BootFlash.Board.DataBlank | src/boot_flash.c:105-126 | Blank is reported only when the check ran and every word of the range is erased. |
| BootFlash.Board.DriverWriteLog | src/boot_flash.c:98-103 | A log entry is programmed into a blank word, and into no other. |
| BootFlash.Board.CopyRange | src/boot_flash.c:133-167 | Every erase stays inside one region and on block boundaries, every program is whole write units over erased cells, nothing outside the destination changes, and the destination ends as the range transfer says. |
| BootFlash.Board.CopyChunks | src/boot_flash.c:142-164 | The chunk loop over an erased destination refines the transfer of one range. |
| BootFlash.Board.CopyChunk | src/boot_flash.c:144-163 | One chunk goes through the RAM buffer and is programmed where it belongs. |
| BootFlash.CopyIsOneAssignment | src/boot_flash.c:133-167 | A successful copy by an honest driver is one assignment of the old source range to the destination range, over the whole memory. |
| BootFlash.CopyOfRegions | src/boot_flash.c:133-167 | A copy between two sectors on bytes is the copy of that sector on the machine. |
| BootFlash.WriteIsPut | src/boot_layout.h:140-150 | Changing the bytes of one sector changes exactly that sector of the machine: no two regions overlap. |
| BootFlash.FlattenSlot | src/boot_layout.h:38-63 | A slot, sector after sector, is one range of the memory. |
| BootFlash.Board.Checksum | src/boot_flash.c:172-189 | The two nested loops compute the CRC32 of the range as it reads. |
| BootFlash.Board.SlotChecksum | src/boot_swap.c:189-194 | The checksum of a slot's address range is the checksum of its sectors. |
| BootFlash.Board.ImageOkAt | src/boot_layout.h:162-195 | The image test, early returns and all, is the vector test of the two words at the base. |
| Layout.ImageOkExactly | src/boot_layout.h:162-207 | In numbers: a slot is accepted if and only if its first word is a multiple of 8 in [0x20000000, 0x2000A000] and its second one more than an even address in the primary slot. |
| Layout.LogEntryExactly | src/boot_layout.h:132-134 | The entry of each step is the number 0xA5A50000 plus the step. |
| BootFlash.Board.PrimaryImageOk | src/boot_layout.h:198-201 | The primary slot is tested against its own base. |
| BootFlash.Board.SecondaryImageOk | src/boot_layout.h:204-207 | The secondary slot is tested against the primary's base. |
| RecordWriter.Writer.LoadRecord | src/boot_record_write.c:18-28 | The staged record is the stored one with its number advanced, or the defaults. |
| RecordWriter.Writer.Commit | src/boot_record_write.c:33-52 | Erase, program and read-back on the record block are the commit of the staged record. |
| RecordWriter.Writer.ClearLog | src/boot_record_write.c:65-99 | Erase, blank check and one retry, with every error exit. |
| RecordWriter.Writer.RequestSwap | src/boot_record_write.c:58-113 | Arming on the memories is arming on the machine, log before record. |
| RecordWriter.Writer.SwapComplete | src/boot_record_write.c:115-126 | The completion update on the memories. |
| RecordWriter.Writer.SetImageOk | src/boot_record_write.c:128-136 | The confirmation update on the memories. |
| SwapEngine.LogScan | src/boot_swap.c:24-52 | The counting loop is the scan of the machine, error exit included. |
| SwapEngine.SwapLeg | src/boot_swap.c:66-94 | Each leg copies the sector its number says, and any other leg number is refused with nothing touched. |
| SwapEngine.RunLegs | src/boot_swap.c:173-187 | The step loop is the sequence of legs, each logged once it is complete. |
| SwapEngine.Start | src/boot_swap.c:100-112 | Validation, fingerprint and arming on the memories. |
| SwapEngine.Finish | src/boot_swap.c:189-220 | Verification, completion record and result. |
| SwapEngine.Process | src/boot_swap.c:114-221 | The whole engine call on the memories, every branch, is the engine of the machine. |
| BootEntry.Bootloader.ProcessRequest | src/hal_entry.c:124-175 | Mailbox handling: machine, status and request code. |
| BootEntry.Bootloader.RunSwap | src/hal_entry.c:180-212 | How the engine's result becomes a status. |
| BootEntry.Bootloader.Recover | src/hal_entry.c:94-113 | The recovery branch, its silent failures included. |
| BootEntry.Bootloader.HalEntry | src/hal_entry.c:42-73 | A boot on bytes is a boot of the machine, and jumps exactly when that does. |

## Left out

- The jump itself and the start-up code (src/boot_jump.c, src/hal_warmstart.c): the jump is where a boot ends.
- Opening and closing the flash driver (src/boot_flash.c:39-65) and the driver's insides: each call is one event.
- Timing, watchdogs, linker scripts, configuration and the scripts around the build.
- `boot_status_name` and the padding and spare fields of the mailbox: display and layout.
- Authenticity of images: the code checks two words of the vector table, and so does the model.
- Whole-run results after a flash call has returned an error inside `hal_entry`: whole images are not kept by the code then; `MixedImages.JumpIsWholeExactly` gives the exact condition for one boot.
- Whole images, a single exchange per request, rollback and convergence after a cut has torn a log word: the results of `Trials.dfy` and `Convergence.dfy`, and those of `Runs.dfy`, are for cuts that tear none, since a torn word stops the exchange. What holds with torn words is `TornWords.NoBrickUnlessTrapped`.
- Applications that stage an image or ask for a swap while an exchange is held up by a torn word: `TornWords.NoBrickUnlessTrapped` excludes them, and `MixedImages.RewriteKeepsCourse` says what staging breaks.
- Runs.NoBrick: cuts that tear a log word are excluded, because with them the board can be trapped; `TornWords.NoBrickUnlessTrapped` is the statement with them.
- Silent failures of erasing code flash and of programming a log word: only copies, record commits and the log erase can report a false success.
- Reads of an unreadable record block that change from one read to the next within a boot.
- Sector counts and sizes other than the ones of src/boot_layout.h:32-63: the leg algebra of `ScratchExchange` holds for every number of sectors, the rest for three. The spare range between bootloader and scratch counts as bootloader flash.
- Faults.ReportIsVerified: does not cover a resumed exchange that completes with the right checksum but a primary slot that cannot run; if recovery follows and fails, the earlier SWAPPED or REVERTED stays in the report.
- BootFlash.Board.CopyRange: code flash destinations only; boot_flash_copy would also accept a data flash destination, which no caller uses.
- The 32-bit truncation of addresses: they are numbers below 2^32 throughout.
- `boot_record_load` and `boot_record_commit` handle the staged record as fields; its bytes appear at the commit, through the layout of `BootRecord`.
- Stores to the mailbox that a reset separates: `Mailbox.ClearIsImmediate` and `Mailbox.AckIsAllOrNothing` say what each prefix is worth; in whole runs a clear or an acknowledgement is one step, and a cut after the last driver call of a boot, which could only lose the acknowledgement, is not a separate point.
