# Verification of the firmware update system

The system updates an STM32 over a serial line: an ESP32 gateway downloads a package into a flash
cache, transfers it over Modbus RTU to the STM32 bootloader, and waits until the new application
has confirmed itself. Power may fail at any point on either side. This project models both sides
in Dafny and proves what the update protocol is for: no image that an update has touched is
started before it was verified, retries and resets lose nothing, and a success means what it says.

`dafny verify dfyconfig.toml` checks the whole project.

## How the model is built

Code that changes state step by step is a class whose methods are proved equal to a specification
function; the theorems about whole runs are lemmas about those functions.

- **Journal.** `BootMetadata` programs the 19-word records of the metadata sector in an array of NOR
  flash words (an erase sets all bits, programming is AND with readback). `MetadataLog` is the same
  journal as slots that are erased, torn or committed; `JournalRuns` proves atomicity and the
  refinement of a single register.
- **Device.** `FlashIf`, `BootUpgrade` and `AppUpgrade` are the flash driver, the bootloader and the
  application over their static variables. `Device` is the whole STM32 as a state machine: power
  on, recovery window, service, application, requests, confirmation, power cuts. `BootSafety`,
  `TrialBoots`, `DataPrefix`, `JournalRoom`, `Padding` and `Soundness` are its run theorems;
  `BootDecision`, `Admission` and `Answers` say exactly when an image starts and is confirmed and what
  each request is answered.
- **Gateway.** `Link` is one exchange over a lossy line, `UpgradeClient` the retry loop,
  `UpgradeManager` the upgrade task; `ExactlyOnce`, `Transfer`, `TransferProgress`, `Journey` and
  `Completion` are the theorems about gateway and device together: what a success means, and when there
  is one.
- **Cache.** `FirmwareStore` and `FirmwareDownloader` stage, verify and commit a package; `CrcAgreement`
  connects the cache's CRC-32 with the bootloader's.
- **Line.** `ShiftRegister` is the serial register of both CRCs; `Crc16`, `ModbusRtu`, `UpgradeProtocol` are the codecs, `Framing` and `RtuStream` the timed
  framer, `UartTransport` the interrupt ring and the receive routine, `ReceiveLoop` its repeated calls.
  The standard is the MODBUS over Serial Line Specification and Implementation Guide V1.02, sections
  2.5.1.1, 2.5.1.2 and 6.2.2.

Every flash primitive takes the behaviour of the hardware during it: whether the controller unlocks,
how many words or sectors it takes before it fails, whether it locks again. A power cut after k
operations leaves the same flash as a failure of operation k + 1 followed by a reset, and every
primitive of an event has its own faults, so that whatever a routine does after a failure may fail
as well, down to the first operation: runs over these faults and over a reset event cover power cuts
at every point. The erase of the metadata sector is one step; the erases of the APP partition
and of the cache go sector by sector. SHA-256 is an arbitrary function; CRC-16 and CRC-32 are
concrete. Clocks, deadlines, losses, operator aborts and server answers are parameters that the
theorems quantify over.

## Model

| member | source | states |
|---|---|---|
| BootSafety.BootSafety | firmware/stm32_bootloader/App/Src/boot_upgrade.c:510-741 | over every run of requests, resets, power cuts and failing flash operations, from any journal and any flash content: whenever the application runs, the APP flash still has the bytes it had at the start of the run or has the CRC-32 of the last VERIFY that matched, with no erase and no programming in between; cut compactions, EMPTY and CORRUPT journals included |
| BootSafety.OnlyTouchesChangeFlash | firmware/stm32_bootloader/App/Src/boot_upgrade.c:346-478 | the history used above is honest: APP flash changes only in a step that it records as an erase or a programming |
| BootSafety.RunSafe | firmware/stm32_bootloader/App/Src/boot_upgrade.c:589-741 | the invariant behind it: while the flash is touched, the journal's latest record forbids booting and cannot be compacted, in every mode of the device |
| TrialBoots.TrialBootsAreBounded | firmware/stm32_bootloader/App/Src/boot_upgrade.c:697-741 | between two records of another state (CONFIRMED, FAILED, a new update) an image is started at most three times, over all requests, resets and torn appends, as long as no compaction is cut between its erase and the end of its rewrite |
| TrialBoots.CompactKeeps | firmware/stm32_bootloader/App/Src/boot_metadata.c:325-349 | compaction leaves the record the latest exactly if its state is never compacted or its faults let it finish; otherwise it leaves none |
| TrialBoots.WholeKeepsRecord | firmware/stm32_bootloader/App/Src/boot_upgrade.c:589-741 | if no compaction of a run is cut, no step of the run loses the record |
| TrialBoots.NoRecordNoBound | firmware/stm32_bootloader/Core/Src/main.c:233-269 | without a record there is no counter: any number of reboots starts the image each time, so the hypothesis of the bound is needed |
| TrialBoots.CutCompactionLosesRecord | firmware/stm32_app/Core/Src/app_upgrade.c:181-194 | ENTER_BOOT during a trial boot with fewer than 232 free slots loses the record when its compaction is cut after the erase |
| BootDecision.StartsExactly | firmware/stm32_bootloader/Core/Src/main.c:226-275 | a power-on and the silent end of its recovery window start the application if and only if the vectors are valid and the journal has no record, or its latest one is EMPTY, APP_VALID or CONFIRMED, or is PENDING_BOOT with fewer than three attempts and one more of them can be made durable; the attempt is counted, and nothing else is written |
| BootDecision.VectorsOfImage | firmware/stm32_bootloader/Core/Src/main.c:367-402 | which images can start, byte by byte: stack pointer in SRAM or CCM, ends included, in steps of eight; an odd entry point inside the partition |
| BootDecision.ConfirmsExactly | firmware/stm32_app/Core/Src/app_upgrade.c:47-78 | at the end of the delay the latest record becomes CONFIRMED, for the same session and manifest, if and only if it is a complete trial start of a session with the version of the running build; otherwise journal and flash stay and the application answers nothing more |
| BootDecision.TrialWaitsExactly | firmware/stm32_app/Core/Src/app_upgrade.c:220-246 | after the jump exactly such a trial waits for its delay, and any other PENDING_BOOT image is blocked |
| BootDecision.AppendSucceedsExactly | firmware/stm32_bootloader/App/Src/boot_metadata.c:410-475 | a valid record is appended if and only if a sequence number is left, its write works, and there is a free slot or a compaction that works |
| Answers.ExhaustedTrialFails | firmware/stm32_bootloader/App/Src/boot_upgrade.c:716-723 | after three attempts the image is given up: FAILED with code 13, and the bootloader serves |
| Answers.ServiceUntilReset | firmware/stm32_bootloader/Core/Src/main.c:248-262 | an addressed frame or a request ends the recovery window for good: only a reset leaves the service loop |
| Answers.VerdictIsRecorded | firmware/stm32_bootloader/App/Src/boot_upgrade.c:534-551 | VERIFY makes its attempt durable and then its verdict: PENDING_BOOT if the CRC-32 agrees, FAILED with code 11 otherwise |
| Answers.FailedEraseIsRecorded | firmware/stm32_bootloader/App/Src/boot_upgrade.c:632-659 | an erase that the flash refuses makes the update FAILED with code 10 |
| Answers.EnterBootIsRecorded | firmware/stm32_app/Core/Src/app_upgrade.c:162-198 | ENTER_BOOT leaves a request of its session and no manifest |
| Admission.StartAcceptedExactly | firmware/stm32_bootloader/App/Src/boot_upgrade.c:217-305 | outside a session START is answered OK if and only if it is for product 1 and hardware 1, fits, has a version, a session and no offset, and the journal has room or can be compacted and takes the record |
| Admission.AcceptedIsAdmissible | firmware/stm32_bootloader/App/Src/boot_upgrade.c:229-254 | a START answered OK by any device in any state was such a START |
| Admission.RefusalsAreRight | firmware/stm32_bootloader/App/Src/boot_upgrade.c:229-254 | a refusal that names the frame, size, product, hardware or version is right about it |
| Admission.StartInSession | firmware/stm32_bootloader/App/Src/boot_upgrade.c:256-272 | inside a session START changes nothing; it is OK, with the received offset, exactly for the session's own number and manifest in RECEIVING and PENDING_BOOT, and BUSY otherwise |
| Admission.AbortStopsTheImage | firmware/stm32_bootloader/App/Src/boot_upgrade.c:574-587 | after an ABORT answered OK the update is FAILED and no power-on starts its image |
| Answers.SessionRefusals | firmware/stm32_bootloader/App/Src/boot_upgrade.c:307-344 | malformed, foreign and untimely ERASE, VERIFY, ACTIVATE and ABORT: exactly which answer each gets, and that it changes nothing |
| Answers.DataRefusals | firmware/stm32_bootloader/App/Src/boot_upgrade.c:346-413 | exactly which chunks are foreign, untimely, badly sized, badly cut, ahead or overlapping, by offset and length, and that refusing them changes nothing |
| Answers.AnswersEcho | firmware/stm32_bootloader/App/Src/boot_upgrade.c:589-630 | every answer of the bootloader names the request's command, sequence number and session (QUERY the device's) and the received offset |
| Answers.ReadsAreAnswered | firmware/stm32_bootloader/App/Src/boot_upgrade.c:162-215 | HELLO, GET_INFO, ENTER_BOOT and QUERY are answered by every bootloader in every state, QUERY with BUSY during an erase, and change nothing |
| Answers.ApplicationAnswers | firmware/stm32_app/Core/Src/app_upgrade.c:200-218 | the application answers everything but HELLO, GET_INFO and ENTER_BOOT with BUSY and keeps its journal |
| DataPrefix.DataPrefix | firmware/stm32_bootloader/App/Src/boot_upgrade.c:346-478 | for an arbitrary client, every reachable RECEIVING state has received <= size, received word-aligned or complete, flash up to it equal to the accepted payloads, and a durable offset less than one checkpoint behind, through duplicates, gaps, failed appends and resets |
| DataPrefix.AcceptSynced | firmware/stm32_bootloader/App/Src/boot_upgrade.c:398-460 | one accepted chunk: flash, RAM offset and journal move together, or the RAM offset falls back to the durable one |
| DataPrefix.StoreKeepsPrefix | firmware/stm32_bootloader/App/Src/boot_upgrade.c:398-418 | however the programming of a chunk is cut short, no byte before it changes, and success means that the chunk reads back |
| DataPrefix.RelockFailureBreaksPrefix | firmware/stm32_bootloader/App/Src/boot_metadata.c:189-203 | if the relock after a completed checkpoint record fails, a chunk answered with an error counts as received after the next reset |
| DataPrefix.RelockFailureHasAState | firmware/stm32_bootloader/App/Src/boot_metadata.c:189-203 | a concrete transfer of one word in which that happens |
| JournalRoom.JournalRoom | firmware/stm32_bootloader/App/Src/boot_upgrade.c:274-283 | from an accepted START to the verdict, over resets, retransmissions and any chunk sizes, valid appends made plus appends still to come never exceed ceil(size/4096)+4; no slot is lost but to an append that the faults of an event cut; and if at most three appends were cut, every one to come finds a free slot |
| JournalRoom.AppendStock | firmware/stm32_bootloader/App/Src/boot_metadata.c:410-475 | from a state that is never compacted an append trades a free slot for a sequence number, and loses a slot only if its own write is cut |
| JournalRoom.VerdictIsWithinTheCount | firmware/stm32_bootloader/App/Src/boot_upgrade.c:534-551 | the record that ends the update is within the same count |
| JournalRoom.StartFindsRoom | firmware/stm32_bootloader/App/Src/boot_upgrade.c:274-304 | an accepted START leaves at least ceil(size/4096)+7 free slots behind its own record |
| JournalRoom.EraseNeverRunsOut | firmware/stm32_bootloader/App/Src/boot_upgrade.c:307-344 | with the budget's slots free and working writes, ERASE never answers a flash error |
| JournalRoom.DataNeverRunsOut | firmware/stm32_bootloader/App/Src/boot_upgrade.c:419-460 | with the budget's slots free and working writes, every stored chunk is acknowledged with the next offset |
| JournalRoom.VerifyNeverRunsOut | firmware/stm32_bootloader/App/Src/boot_upgrade.c:510-552 | with the budget's slots free and working writes, VERIFY of a complete image ends in PENDING_BOOT exactly if the CRC-32 matches and in FAILED otherwise |
| JournalRoom.AppendWithRoom | firmware/stm32_bootloader/App/Src/boot_metadata.c:443-474 | an append to a journal with a free slot succeeds exactly if the flash unlocks, takes all 19 words and locks |
| JournalRoom.EnterBootReserves | firmware/stm32_app/Core/Src/app_upgrade.c:162-198 | a successful ENTER_BOOT leaves at least 231 free slots and UPDATE_REQUESTED as the latest record |
| JournalRoom.StartAfterRequestNeedsRoom | firmware/stm32_bootloader/App/Src/boot_metadata.c:499-525 | after UPDATE_REQUESTED, START succeeds if and only if the free slots suffice, since that state is never compacted |
| JournalRoom.Reservation | firmware/stm32_app/Core/Src/app_upgrade.c:181-194 | from any journal, START after ENTER_BOOT has room for every image up to 223 checkpoints, and for no larger one when exactly the reserved slots were free |
| JournalRuns.CutAppendIsAtomic | firmware/stm32_bootloader/App/Src/boot_metadata.c:410-475 | an append cut after any k of 19 words leaves exactly the old record for k < 19 and exactly the new one for k = 19 |
| JournalRuns.CutAppendsAreAtomic | firmware/stm32_bootloader/App/Src/boot_metadata.c:389-475 | the same for any number of appends one after the other, each cut anywhere, over any earlier torn slots |
| JournalRuns.JournalRefinesRegister | firmware/stm32_bootloader/App/Src/boot_metadata.c:325-525 | over fault-free runs of append and compaction the used slots are a prefix with strictly increasing sequence numbers, the latest record is the last successful put, and the sequence number counts the successes exactly |
| JournalRuns.PutRefinesRegister | firmware/stm32_bootloader/App/Src/boot_metadata.c:410-475 | a fault-free append succeeds exactly if the payload is valid, a sequence number is left, and there is a free slot or a compactable state; otherwise nothing changes |
| MetadataLog.LatestIsGreatest | firmware/stm32_bootloader/App/Src/boot_metadata.c:153-187 | the scan returns a committed record, if there is one, and none has a higher sequence number |
| MetadataLog.LatestIsFirst | firmware/stm32_bootloader/App/Src/boot_metadata.c:153-187 | on a tie of sequence numbers the scan returns the first of the records |
| MetadataLog.LatestAfterTorn | firmware/stm32_bootloader/App/Src/boot_metadata.c:153-187 | a torn slot is invisible to the scan |
| MetadataLog.LatestAfterCommit | firmware/stm32_bootloader/App/Src/boot_metadata.c:153-187 | a committed record with a higher sequence number is what the scan returns |
| MetadataLog.WriteOutcome | firmware/stm32_bootloader/App/Src/boot_metadata.c:205-286 | writing a slot under any fault keeps the latest record or makes the new one the latest, and spends at most one slot |
| MetadataLog.CompactOutcome | firmware/stm32_bootloader/App/Src/boot_metadata.c:325-349 | compaction succeeds only for a compactable state and then keeps the record with 861 free slots; cut after its erase it leaves no record |
| MetadataLog.AppendOutcome | firmware/stm32_bootloader/App/Src/boot_metadata.c:410-475 | an append under any faults leaves the old record, the new one, or, only where compaction was allowed, none; success costs exactly one sequence number |
| RecordWords.ParseRoundTrip | firmware/stm32_bootloader/App/Src/boot_metadata.c:127-151 | every valid 19-word image is the image of the record read from it |
| RecordWords.RecordLayout | firmware/stm32_bootloader/App/Inc/boot_metadata.h:30-53 | where the fields lie in the nineteen words that bootloader and application share, checksum and commit marker last |
| RecordWords.PartialSlot | firmware/stm32_bootloader/App/Src/boot_metadata.c:243-283 | the commit marker is programmed last: no proper prefix of a record image is a valid record, and the whole image is one exactly if the record is valid |
| BootMetadata.OneSlotChanged | firmware/stm32_bootloader/App/Src/boot_metadata.c:205-286 | programming the words of one slot changes exactly that slot of the journal |
| BootMetadata.Journal.ScanSlots | firmware/stm32_bootloader/App/Src/boot_metadata.c:153-187 | one loop over the words of the sector finds the latest record, the first erased slot, the free count and whether any slot is used |
| BootMetadata.Journal.ProgramImage | firmware/stm32_bootloader/App/Src/boot_metadata.c:243-283 | word-by-word NOR programming with readback leaves a prefix of the image, as long as the hardware allows, and no other word changed |
| BootMetadata.Journal.WriteSlot | firmware/stm32_bootloader/App/Src/boot_metadata.c:205-286 | the slot routine over the word array does to the journal what the slot model says, for every record and every fault |
| BootMetadata.Journal.EraseSector | firmware/stm32_bootloader/App/Src/boot_metadata.c:288-323 | the sector erase, as one step, with its fault statuses |
| BootMetadata.Journal.CompactLatest | firmware/stm32_bootloader/App/Src/boot_metadata.c:325-349 | compaction over the word array is the compaction of the model, the refusal of an invalid record included |
| BootMetadata.Journal.Append | firmware/stm32_bootloader/App/Src/boot_metadata.c:410-475 | the append routine over the word array is the append of the model, for every fault plan |
| BootMetadata.Journal.LoadLatest | firmware/stm32_bootloader/App/Src/boot_metadata.c:389-408 | what load_latest returns for any content of the sector: OK with the latest record, CORRUPT or EMPTY |
| BootMetadata.Journal.CompactIfNeeded | firmware/stm32_bootloader/App/Src/boot_metadata.c:499-525 | the room check over the word array is that of the model |
| FlashImage.ProgramErased | firmware/stm32_bootloader/App/Src/flash_if.c:173-226 | programming over erased flash stores exactly the words the hardware allows, padding included, and reports success exactly if all were allowed |
| FlashImage.ProgramIsLocal | firmware/stm32_bootloader/App/Src/flash_if.c:173-226 | programming changes no byte outside its data range, and success means that the range reads as given |
| FlashImage.ProgramWordIsLocal | firmware/stm32_bootloader/App/Src/flash_if.c:173-213 | the padded last word changes no byte past the data |
| FlashImage.WriteNeedsWords | firmware/stm32_bootloader/App/Src/flash_if.c:137-172 | a write inside the partition is refused for its alignment, and touches nothing, exactly if it does not fall on words |
| FlashImage.EraseIsLocal | firmware/stm32_bootloader/App/Src/flash_if.c:64-135 | an erase leaves every byte past the last 128-KiB sector that the image reaches into |
| FlashIf.AppFlash.Erase | firmware/stm32_bootloader/App/Src/flash_if.c:64-135 | the sector loop erases a prefix of sectors, as far as the hardware comes |
| FlashIf.AppFlash.Write | firmware/stm32_bootloader/App/Src/flash_if.c:137-228 | the word-packing loop over the byte array is the programming of the model |
| FlashIf.AppFlash.Verify | firmware/stm32_bootloader/App/Src/flash_if.c:230-264 | byte comparison: success exactly if the range equals the data |
| BootUpgrade.Bootloader.AppendState | firmware/stm32_bootloader/App/Src/boot_upgrade.c:60-90 | the statics after a durable transition, and their unchanged values after a failed one |
| BootUpgrade.Bootloader.HandleStart | firmware/stm32_bootloader/App/Src/boot_upgrade.c:217-305 | START over the statics and the word array is START of the state machine; what that accepts, in terms of the request alone, are `Admission.StartAcceptedExactly`, `AcceptedIsAdmissible` and `StartInSession` |
| BootUpgrade.Bootloader.HandleErase | firmware/stm32_bootloader/App/Src/boot_upgrade.c:307-344 | the same for ERASE and its deferred action |
| BootUpgrade.Bootloader.HandleData | firmware/stm32_bootloader/App/Src/boot_upgrade.c:346-478 | the same for DATA: classification, duplicate comparison, programming, checkpoint and rollback |
| BootUpgrade.Bootloader.HandleVerify | firmware/stm32_bootloader/App/Src/boot_upgrade.c:510-552 | the same for VERIFY |
| BootUpgrade.Bootloader.HandleQuery | firmware/stm32_bootloader/App/Src/boot_upgrade.c:480-508 | the same for QUERY |
| BootUpgrade.Bootloader.Crc32App | firmware/stm32_bootloader/App/Src/boot_upgrade.c:116-142 | the bit loop over flash computes the image CRC-32 |
| BootUpgrade.Bootloader.Dispatch | firmware/stm32_bootloader/App/Src/boot_upgrade.c:589-630 | one request and its complete response, over the statics, is one dispatch of the state machine |
| BootUpgrade.Bootloader.RunDeferred | firmware/stm32_bootloader/App/Src/boot_upgrade.c:632-659 | the deferred erase and reset |
| BootUpgrade.Bootloader.Init | firmware/stm32_bootloader/App/Src/boot_upgrade.c:661-689 | RAM after a reset is determined by the journal |
| BootUpgrade.Bootloader.PrepareApplicationBoot | firmware/stm32_bootloader/App/Src/boot_upgrade.c:697-741 | the one-time boot decision with its durable attempt counter is that of the state machine; exactly when it ends in the application is `BootDecision.StartsExactly` |
| BootUpgrade.Bootloader.Poll | firmware/stm32_bootloader/App/Src/boot_upgrade.c:743-823 | one poll for every kind of incoming frame: a request is handled and answered, a foreign function or a malformed message gets its Modbus exception and ends the recovery window |
| BootUpgrade.Bootloader.BootBlock | firmware/stm32_bootloader/Core/Src/main.c:226-284 | the boot block, with its recovery window of polls, takes the device where the state machine's power-on and window events take it |
| BootUpgrade.PollSetsActivity | firmware/stm32_bootloader/App/Src/boot_upgrade.c:764-823 | a handled request ends the recovery window for good |
| AppUpgrade.Application.HandleEnterBoot | firmware/stm32_app/Core/Src/app_upgrade.c:162-198 | ENTER_BOOT over the word array is that of the state machine, and only success schedules the reset |
| AppUpgrade.Application.ConfirmPendingImage | firmware/stm32_app/Core/Src/app_upgrade.c:47-78 | confirmation of a trial boot is that of the state machine; exactly which image it confirms is `BootDecision.ConfirmsExactly` |
| AppUpgrade.Application.Poll | firmware/stm32_app/Core/Src/app_upgrade.c:248-344 | one pass of the application's loop, confirmation delay included, is the state machine's steps; a foreign function gets its exception, and a blocked application does not even reload the watchdog |
| Padding.DispatchKeepsPadding | firmware/stm32_bootloader/App/Src/boot_upgrade.c:589-630 | no request disturbs the erased padding of the image's last word during a transfer |
| Padding.StoreKeepsPad | firmware/stm32_bootloader/App/Src/flash_if.c:173-213 | programming a chunk leaves the padding bytes erased |
| Soundness.RunSound | firmware/stm32_bootloader/App/Src/boot_upgrade.c:510-552 | over every run, a record that calls an image verified is vouched for by the CRC-32 of the flash as it is now, RAM and journal agree, and padding stays erased |
| Soundness.FreshIsSound | firmware/stm32_bootloader/App/Src/boot_upgrade.c:661-689 | a journal that claims neither a transfer nor a verified image starts such a run |
| UpgradeClient.Client.Transact | firmware/esp32_gateway/components/upgrade_client/upgrade_client.c:37-166 | the retry loop sends one request under one sequence number until a matching answer comes, and advances the number exactly then; a request that cannot be encoded, or no attempt at all, is refused before anything is sent |
| UpgradeClient.ValidAddressCanSend | firmware/esp32_gateway/components/upgrade_client/upgrade_client.c:53-81 | every service request to a slave address can be encoded |
| UpgradeManager.AnswersMatch | firmware/esp32_gateway/components/upgrade_client/upgrade_client.c:118-158 | a transaction returns only an answer to its own command and sequence number |
| ExactlyOnce.ExactlyOnce | firmware/esp32_gateway/components/upgrade_client/upgrade_client.c:37-166 | for any pattern of lost requests and responses, a DATA transaction that ends in OK leaves flash, journal and RAM as one handling would and acknowledges the same offset |
| ExactlyOnce.ExactlyOnceWhenReached | firmware/esp32_gateway/components/upgrade_client/upgrade_client.c:321-354 | the same in every state a device reaches from a sound start |
| ExactlyOnce.ReplayOfSuccess | firmware/stm32_bootloader/App/Src/boot_upgrade.c:398-413 | handling an acknowledged DATA again changes nothing and is acknowledged again |
| ExactlyOnce.ReplayOfFailure | firmware/stm32_bootloader/App/Src/boot_upgrade.c:411-460 | a DATA refused on working hardware stays refused |
| Link.AnswerIsGenuine | firmware/esp32_gateway/components/upgrade_client/upgrade_client.c:90-158 | whatever was lost before, an answer is what the device said to the last delivered request, in a state with every invariant of the run |
| Transfer.TransferDelivers | firmware/esp32_gateway/components/upgrade_manager/upgrade_manager.c:338-477 | under any losses, resets, interrupted appends and interrupted programming, a transfer that ends well leaves the whole image received and in flash |
| Transfer.AckTellsReceived | firmware/stm32_bootloader/App/Src/boot_upgrade.c:465-477 | an acknowledgement carries exactly what the device counts as received afterwards |
| Answers.JudgeMoves | firmware/esp32_gateway/components/upgrade_manager/upgrade_manager.c:409-461 | an answer that sends the loop on acknowledges that very chunk and names another offset inside the image |
| TransferProgress.TransferCompletes | firmware/esp32_gateway/components/upgrade_manager/upgrade_manager.c:338-477 | with finitely many resets and journal interruptions, one attempt in five getting through and no abort, the loop ends with success within an explicit number of rounds and the image is in flash |
| TransferProgress.NextEndOnGrid | firmware/esp32_gateway/components/upgrade_manager/upgrade_manager.c:321-336 | chunks restart at every checkpoint, so resent chunks always fall on the same boundaries and are valid for the device |
| TransferProgress.FreshChunk | firmware/stm32_bootloader/App/Src/boot_upgrade.c:398-418 | a chunk above the high-water mark is wholly erased and is stored |
| TransferProgress.OldChunk | firmware/stm32_bootloader/App/Src/boot_upgrade.c:398-413 | a chunk below the mark is wholly written, so a resend is accepted without another change |
| TransferProgress.CutChunkResent | firmware/stm32_bootloader/App/Src/boot_upgrade.c:398-418 | a chunk whose programming was cut after k words and that is sent again is stored if and only if its first k words or all its other bytes read as erased |
| TransferProgress.CutChunkHandled | firmware/stm32_bootloader/App/Src/boot_upgrade.c:398-418 | what DATA answers to it: a flash error at the cut, and from then on a flash error for ever for a torn chunk, the stored chunk otherwise |
| TransferProgress.ChunkHandled | firmware/stm32_bootloader/App/Src/boot_upgrade.c:346-478 | one handling of a grid chunk at any offset: accept, duplicate or resynchronise, with the offset that goes with it |
| TransferProgress.ResetIsLively | firmware/stm32_bootloader/App/Src/boot_upgrade.c:661-689 | a reset takes progress back to the journal's offset, on the same grid, and leaves flash and journal alone |
| TransferProgress.EraseStartsTheTransfer | firmware/stm32_bootloader/App/Src/boot_upgrade.c:632-659 | a successful deferred erase starts exactly such a transfer |
| UpgradeManager.Manager.TransferImage | firmware/esp32_gateway/components/upgrade_manager/upgrade_manager.c:338-477 | the loop over cache and client is the transfer of the two theorems above, for the cached image |
| UpgradeManager.Manager.Run | firmware/esp32_gateway/components/upgrade_manager/upgrade_manager.c:499-723 | safety: a success means that the package was validated and that the last thing heard was GET_INFO naming its version as CONFIRMED; if the START was answered OK, moreover, the cache was validated, the journal's latest record is CONFIRMED with that session and the cached manifest, and device flash and cache have its CRC-32, over any losses, resets and interruptions. Liveness: with a good package in the cache, a device whose application is at work or whose bootloader is idle with room in the journal, or that an interrupted update of this package left anywhere between START and ACTIVATE, with resets and interrupted journal appends during the transfer of the image and otherwise no failures but silently lost frames, the task succeeds if and only if its one ACTIVATE arrives; the device then runs the package's image with CONFIRMED as its latest record |
| UpgradeManager.Manager.Deliver | firmware/esp32_gateway/components/upgrade_manager/upgrade_manager.c:624-682 | from any stage between START and ACTIVATE, under ordinary conditions but for resets and interrupted journal appends during the transfer, erase, transfer from the offset that the device names, and VERIFY end well: the latest record is PENDING_BOOT for this session and manifest and the flash holds the cached image |
| UpgradeManager.Manager.EraseAndTransfer | firmware/esp32_gateway/components/upgrade_manager/upgrade_manager.c:625-655 | a requested update is erased and an interrupted one resumed, and the whole image ends up received and in flash, over resets and interrupted journal appends during the transfer |
| UpgradeManager.Manager.PollErase | firmware/esp32_gateway/components/upgrade_manager/upgrade_manager.c:293-319 | success means that the device answered RECEIVING; under ordinary conditions a bootloader whose erase is over is heard within five polls: its progress is returned, and FAILED fails |
| UpgradeManager.Manager.VerifyRemote | firmware/esp32_gateway/components/upgrade_manager/upgrade_manager.c:657-682 | success means that a QUERY after VERIFY was answered PENDING_BOOT; under ordinary conditions a complete image that matches its CRC-32 gets there |
| UpgradeManager.Manager.ActivateAndWait | firmware/esp32_gateway/components/upgrade_manager/upgrade_manager.c:684-710 | ACTIVATE is sent once; under ordinary conditions the task then succeeds if and only if that request arrives and its response leaves the device, even if the response is lost on the way |
| Completion.Settles | firmware/esp32_gateway/components/upgrade_client/upgrade_client.c:37-166 | a transaction of which one attempt gets through ends with a good answer, if every exchange either answers well or leaves the invariant for the next |
| Completion.OrdinaryFates | firmware/esp32_gateway/components/upgrade_manager/upgrade_manager.c:499-723 | the conditions of the theorems on success can be met together |
| Completion.StartSettles | firmware/stm32_bootloader/App/Src/boot_upgrade.c:217-305 | START opens the update however many of its frames get lost: a repeated START appends again, and the journal has room for five |
| Completion.EraseSettles | firmware/stm32_bootloader/App/Src/boot_upgrade.c:307-344 | ERASE starts the transfer however many of its frames get lost, also when the first erase was armed and dropped with its response |
| Completion.TransferSettles | firmware/esp32_gateway/components/upgrade_manager/upgrade_manager.c:338-477 | from any high-water mark the transfer completes over resets and interrupted appends within an explicit number of rounds, and keeps the slots and sequence numbers that VERIFY and the trial start need |
| Completion.VerifySettles | firmware/stm32_bootloader/App/Src/boot_upgrade.c:510-552 | VERIFY reaches PENDING_BOOT however many of its frames get lost: a repeated VERIFY is answered BUSY and accepted |
| Completion.ActivateSettles | firmware/stm32_bootloader/App/Src/boot_upgrade.c:554-572 | ACTIVATE resets the device exactly if it arrives and its response is sent; otherwise it changes nothing |
| Completion.PhaseAdvances | firmware/stm32_bootloader/Core/Src/main.c:226-275 | power-ons, ends of windows and of delays only ever lead on: from the reset to the trial start, from there to CONFIRMED |
| Completion.InfoSettles | firmware/stm32_app/Core/Src/app_upgrade.c:127-160 | GET_INFO to the running application tells whether its delay is over, through any losses |
| Completion.HelloRound | firmware/esp32_gateway/components/upgrade_manager/upgrade_manager.c:176-190 | every unanswered HELLO of the wait costs one poll of what is due: power, the end of the delay, an answer |
| Completion.EnterSettles | firmware/stm32_app/Core/Src/app_upgrade.c:162-198 | ENTER_BOOT leads to an idle bootloader however many of its frames get lost, if the device is back from its reset before the next attempt |
| UpgradeManager.StartCarriesTheHeader | firmware/esp32_gateway/components/upgrade_manager/upgrade_manager.c:529-537 | the payload of START is made of the package header's own bytes: version, size and CRC-32, SHA-256, product and hardware |
| UpgradeManager.CheckedPackageIsAccepted | firmware/stm32_bootloader/App/Src/boot_upgrade.c:217-305 | the START for any package that passes the header checks is answered OK by every device outside a session whose journal takes it |
| UpgradeManager.Manager.WaitForApplication | firmware/esp32_gateway/components/upgrade_manager/upgrade_manager.c:160-260 | success means that the last answer named this version as CONFIRMED, and that this update is confirmed; from the reset of ACTIVATE it does succeed, under ordinary conditions, within two spells of patience and five polls; a bootloader with this version's record makes it fail, at once if that record is FAILED and with a timeout otherwise |
| UpgradeManager.Manager.Negotiate | firmware/esp32_gateway/components/upgrade_manager/upgrade_manager.c:555-634 | a START answered OK puts the device on this session and manifest; success means that the package is of this product and hardware and fits, that the device checks CRC-32, that an active session of the same image size was resumed and otherwise the fresh one started, and that a BUSY counted only for a resumed session that was erasing or verifying; under ordinary conditions it succeeds for every device that is ready for the package, with the session that the device then has |
| UpgradeManager.Manager.FindBootloader | firmware/esp32_gateway/components/upgrade_manager/upgrade_manager.c:98-158 | success means that a bootloader answered and stays in service; an application is asked once to enter it. Under ordinary conditions a bootloader is found within five polls and left as it is, and an application is brought to an idle bootloader within ten |
| Journey.HelloTransaction | firmware/esp32_gateway/components/upgrade_manager/upgrade_manager.c:110-129 | only a bootloader answers HELLO as one, through any losses and resets before the answer, and it then stays in service |
| Journey.InfoTransaction | firmware/stm32_bootloader/App/Src/boot_upgrade.c:191-215 | through any losses and resets an answer to GET_INFO names this product, this hardware and this partition size |
| Journey.StartCarries | firmware/stm32_bootloader/App/Src/boot_upgrade.c:256-304 | a START answered OK makes RAM and journal carry its session and manifest |
| Journey.StepCarries | firmware/stm32_bootloader/App/Src/boot_upgrade.c:589-741 | no other request, reset or power cut changes whose update the records describe |
| Journey.InfoTellsTheTruth | firmware/stm32_app/Core/Src/app_upgrade.c:127-160 | a device that reports CONFIRMED, bootloader or application, has confirmed this update and holds an image with its CRC-32 |
| Journey.JourneyTransaction | firmware/esp32_gateway/components/upgrade_client/upgrade_client.c:37-166 | the same through a whole transaction with losses and resets |
| Messages.ManifestRoundTrip | protocol/src/upgrade_protocol.c:422-478 | the START manifest is read back exactly as it was written |
| Crc32.ChunkingIsIrrelevant | firmware/esp32_gateway/components/firmware_store/firmware_store.c:25-40 | the CRC-32 over any pieces is the CRC-32 of the whole |
| Crc32.UpdateLoop | firmware/esp32_gateway/components/firmware_store/firmware_store.c:25-40 | the byte and bit loops compute the register of the definition |
| Crc32.ValueCompletesMultiple | firmware/esp32_gateway/components/firmware_store/firmware_store.c:25-40 | what the value is: a word is the CRC-32 of the data if and only if the serial bits of the data and of the complemented word, the first 32 of them flipped, are a multiple of x^32 + x^26 + x^23 + x^22 + x^16 + x^12 + x^11 + x^10 + x^8 + x^7 + x^5 + x^4 + x^2 + x + 1 |
| CrcAgreement.PiecesAgree | firmware/esp32_gateway/components/firmware_store/firmware_store.c:97-131 | gateway pieces of any sizes and the bootloader's single pass give the same CRC-32 |
| CrcAgreement.ValidatedImageBecomesPending | firmware/stm32_bootloader/App/Src/boot_upgrade.c:534-551 | an image the cache validated and a transfer delivered passes VERIFY and ends in PENDING_BOOT |
| FirmwareStore.Store.ValidateImage | firmware/esp32_gateway/components/firmware_store/firmware_store.c:97-131 | the loop over 1024-byte buffers accepts exactly the images whose CRC-32 is the header's |
| FirmwareStore.Store.Validate | firmware/esp32_gateway/components/firmware_store/firmware_store.c:349-376 | what makes the stored package valid, with the error of the first failing check |
| FirmwareStore.Store.Open | firmware/esp32_gateway/components/firmware_store/firmware_store.c:133-180 | after a restart nothing is staged and the header counts only if it checks; a missing or too small partition is reported |
| FirmwareStore.Store.DownloadBegin | firmware/esp32_gateway/components/firmware_store/firmware_store.c:182-208 | a cut erase leaves an erased prefix, so the marker goes first |
| FirmwareStore.Store.DownloadResume | firmware/esp32_gateway/components/firmware_store/firmware_store.c:210-234 | resuming succeeds exactly over an erased marker |
| FirmwareStore.Store.DownloadWrite | firmware/esp32_gateway/components/firmware_store/firmware_store.c:236-285 | whatever is written and wherever it is cut, the marker bytes never change and every other byte is old or programmed; a closed store and a bad range are refused with their error and nothing written |
| FirmwareStore.Store.DownloadCommit | firmware/esp32_gateway/components/firmware_store/firmware_store.c:306-347 | commit writes nothing but the marker, only for a package whose header, size and image check, and succeeds exactly then if the write does |
| FirmwareStore.Store.Read | firmware/esp32_gateway/components/firmware_store/firmware_store.c:378-399 | a chunk of the cached image, exactly for a validated package and a range inside the image |
| FirmwareStore.MarkerProgrammed | firmware/esp32_gateway/components/firmware_store/firmware_store.c:333-339 | a marker cut short is not valid; a complete one changes nothing else |
| FirmwareStore.HeaderLayout | firmware/esp32_gateway/components/firmware_store/firmware_store.c:42-77 | a header passes the checks exactly if it has this layout, byte by byte: "GWF1", format 1, 128 bytes, product 1, hardware 1, the marker, a version, a size that fits and its own CRC-32 |
| FirmwareDownloader.Downloader.Run | firmware/esp32_gateway/components/firmware_downloader/firmware_downloader.c:922-977 | whatever cuts the download task short, a visible package is one whose SHA-256, header and image CRC were checked as they lie in flash; with a good server that resumes, a collision-free digest and nothing in the way, it completes if and only if the checkpoint it found describes the cache, and otherwise ends in a complete checkpoint over a cache that does not hold the package, a dead end that no run for this release leaves; the checkpoint any run leaves describes the cache if the one it found did, unless an erase had begun and no checkpoint was saved after it |
| FirmwareDownloader.Downloader.DownloadBinary | firmware/esp32_gateway/components/firmware_downloader/firmware_downloader.c:627-754 | staging is never visible; an answer counts only with the right etag, code, range and length; a cache staged for an honest server's package is completely staged in the end, and whatever stops the download the stored checkpoint goes on describing the cache, with the same exception |
| FirmwareDownloader.Downloader.ReadBody | firmware/esp32_gateway/components/firmware_downloader/firmware_downloader.c:715-754 | saved checkpoints never run ahead of what was written, and rewriting bytes that are already there does no harm |
| FirmwareDownloader.StaleIsStaged | firmware/esp32_gateway/components/firmware_downloader/firmware_downloader.c:740-752 | a checkpoint that lags behind the flash describes it as well |
| FirmwareDownloader.WrongStaysWrong | firmware/esp32_gateway/components/firmware_downloader/firmware_downloader.c:715-754 | resuming from a checkpoint that does not describe the cache never yields the package: programming repairs no byte before the offset and none that cannot be programmed |
| FirmwareDownloader.EraseOutdatesCheckpoint | firmware/esp32_gateway/components/firmware_downloader/firmware_downloader.c:932-943 | an erase that no checkpoint follows makes every earlier checkpoint with received bytes wrong |
| FirmwareDownloader.PackageIsNotErased | firmware/esp32_gateway/components/firmware_store/firmware_store.c:42-77 | every package that checks starts with a byte that erased flash does not have, so the lemma above applies to all of them |
| FirmwareDownloader.ErasedCacheMisleads | firmware/esp32_gateway/components/firmware_downloader/firmware_downloader.c:932-943 | a concrete case: an erased cache and a checkpoint at 64 KiB |
| FirmwareDownloader.Downloader.VerifyPackage | firmware/esp32_gateway/components/firmware_downloader/firmware_downloader.c:779-851 | success means that the flash content with the marker put in hashes to the release's digest and that the header agrees |
| FirmwareDownloader.RestoreMarker | firmware/esp32_gateway/components/firmware_downloader/firmware_downloader.c:756-777 | exactly the buffer bytes that lie on the marker are replaced, for every overlap |
| FirmwareDownloader.CommitVouches | firmware/esp32_gateway/components/firmware_store/firmware_store.c:306-347 | the completed marker belongs to exactly the package that was verified |
| FirmwareDownloader.WriteKeepsStaged | firmware/esp32_gateway/components/firmware_store/firmware_store.c:236-285 | a write of package bytes, repeated or cut anywhere, keeps the cache staged under AND semantics |
| FirmwareDownloader.GenuineIsCommittable | firmware/esp32_gateway/components/firmware_downloader/firmware_downloader.c:779-851 | a completely staged good package passes verification and may be committed |
| Crc16.Calculate | protocol/src/crc16_modbus.c:6-35 | the byte and bit loops compute the CRC-16 that `ValueCompletesMultiple` characterises |
| Crc16.ValueCompletesMultiple | protocol/src/crc16_modbus.c:4-35 | what the value is: a word is the CRC-16 of the data if and only if the serial bits of data and word, the first sixteen of them flipped, are a multiple of x^16 + x^15 + x^2 + 1, as section 6.2.2 of the MODBUS over Serial Line guide has it |
| ShiftRegister.ZeroExactlyAfterMultiples | protocol/src/crc16_modbus.c:18-32 | the serial register returns to zero exactly after the multiples of its generator polynomial, by long division |
| ShiftRegister.UpdateIsFeed | protocol/src/crc16_modbus.c:18-32 | the byte loop is the serial register, bit by bit |
| ShiftRegister.FeedIsLinear | protocol/src/crc16_modbus.c:18-32 | the register is linear in errors |
| Crc16.ResidueOfFrame | protocol/src/modbus_rtu.c:60-62 | a frame ends in its CRC exactly if its residue is zero |
| Crc16.BurstChangesResidue | protocol/src/crc16_modbus.c:18-32 | a nonzero burst of at most 16 serial bits always leaves a nonzero residue |
| ModbusRtu.BurstNeverDecodes | protocol/src/modbus_rtu.c:100-106 | a frame that differs from an encoded one by such a burst never decodes |
| ModbusRtu.Encode | protocol/src/modbus_rtu.c:16-66 | the buffer routine writes exactly the frame's bytes, or nothing, with the first failing check |
| ModbusRtu.Decode | protocol/src/modbus_rtu.c:68-119 | the buffer routine accepts exactly the well-formed frames and returns their fields |
| ModbusRtu.DecodesExactly | protocol/src/modbus_rtu.c:68-119 | exactly which bytes are a frame: 4 to 256 of them, from an address 1 to 247, with a function, closed by their CRC-16 low byte first |
| ModbusRtu.DecodeOfEncode | protocol/src/modbus_rtu.c:16-119 | decoding an encoded frame gives it back |
| ModbusRtu.EncodeOfDecode | protocol/src/modbus_rtu.c:16-119 | bytes that decode are the bytes their frame encodes to |
| ModbusRtu.ExceptionRoundTrip | protocol/src/modbus_rtu.c:121-174 | an exception is recognised, with its code, for its own function and for no other |
| UpgradeProtocol.EncodeMessage | protocol/src/upgrade_protocol.c:47-93 | the buffer routine writes exactly the message's bytes or reports the first failing check |
| UpgradeProtocol.WireLayout | protocol/src/upgrade_protocol.c:47-93 | where every field of a message lies in its frame, byte by byte, with the CRC-16 low byte first at the end |
| UpgradeProtocol.RequestHeader | protocol/include/upgrade_commands.h:6-19 | function code 0x41, the command's number, version 1 and no flags |
| UpgradeProtocol.DecodeMessage | protocol/src/upgrade_protocol.c:95-162 | the buffer routine accepts exactly the well-formed messages |
| UpgradeProtocol.CarriesMessageExactly | protocol/src/upgrade_protocol.c:95-162 | exactly which frames carry a message: function 0x41, version 1, a known command, a payload of at most 224 bytes that the length field counts, no flags in a request and a known status in a response |
| UpgradeProtocol.DecodeOfEncodedMessage | protocol/src/upgrade_protocol.c:47-162 | address and message survive both layers |
| UpgradeProtocol.EncodeOfDecodedMessage | protocol/src/upgrade_protocol.c:47-162 | bytes that decode through both layers re-encode to the same bytes |
| UpgradeProtocol.RequestSurvivesTheLine | protocol/src/upgrade_protocol.c:215-241 | every service request, to every slave address, encodes and is read back as the same request |
| ByteOrder.WriteLe32 | protocol/src/protocol_byte_order.c:23-29 | four bytes, least significant first, and nothing else changed |
| ByteOrder.Write32Read32 | protocol/src/protocol_byte_order.c:9-29 | reading and writing a word are inverse |
| Framing.FramingIsExact | protocol/src/modbus_rtu_stream.c:68-147 | frames of 1 to 256 bytes that keep both silences come out as sent, in order, for any start of the wrapping timestamp and polls anywhere, also polls later than bytes still to be fed, as long as no poll closes a frame with bytes of it still to be fed |
| Framing.LatePollSplitsFrame | protocol/src/modbus_rtu_stream.c:118-147 | a poll that does close such a frame splits it, whatever comes later |
| Framing.SilenceDeliversAll | protocol/src/modbus_rtu_stream.c:118-180 | with a poll after the closing silence exactly the sent frames have been taken |
| RtuStream.Stream.Feed | protocol/src/modbus_rtu_stream.c:68-116 | one byte into the two buffers is one step of the framer, for every status |
| RtuStream.Stream.Poll | protocol/src/modbus_rtu_stream.c:118-147 | one poll over the buffers is one step of the framer |
| RtuStream.Stream.TakeFrame | protocol/src/modbus_rtu_stream.c:149-180 | a ready frame is handed over once, if it fits, and otherwise kept |
| UartTransport.Ring.Interrupt | firmware/common/Src/uart_rtu_transport.c:236-265 | the interrupt accepts a byte unless 511 are waiting, and never overwrites a waiting one |
| UartTransport.Ring.Pop | firmware/common/Src/uart_rtu_transport.c:69-88 | with interrupts between any two steps, items come out in the order of acceptance, and an empty answer means none was waiting |
| UartTransport.Transport.Init | firmware/common/Src/uart_rtu_transport.c:102-137 | a start leaves an empty ring and an idle framer with the 115200-baud silences; a second start changes nothing |
| UartTransport.Transport.Receive | firmware/common/Src/uart_rtu_transport.c:154-201 | with a 256-byte buffer no popped byte is lost to BUSY, and the frame handed over is the one the popped items make |
| UartTransport.Transport.TakeOne | firmware/common/Src/uart_rtu_transport.c:171-193 | one popped item is fed, and only a framer that already holds a frame refuses it |
| ReceiveLoop.ReceiveAll | firmware/common/Src/uart_rtu_transport.c:154-201 | over any number of calls no accepted byte is lost, and frames and framer state are those the popped items and the polls make |
| ReceiveLoop.ReceivedFramesAreSent | firmware/common/Src/uart_rtu_transport.c:154-201 | well-spaced bytes that the ring accepted come out of repeated calls as exactly the frames that were sent, in order, at 115200 baud, bytes that arrive between the last pop of a call and its poll included, unless that poll closes their frame |
| ReceiveLoop.CallsAreRun | firmware/common/Src/uart_rtu_transport.c:154-201 | repeated calls of the receive routine are a run of the framer over the bytes they popped and the polls they made |

## Left out

Hypotheses of the theorems above, and why they are there:

- DataPrefix.DataPrefix: assumes that the flash locks again after a completed journal record. The HAL of this firmware always reports a successful lock (firmware/stm32_bootloader/Drivers/STM32F4xx_HAL_Driver/Src/stm32f4xx_hal_flash.c:456-462), so the assumption holds there; the journal code has a branch for the opposite, and `RelockFailureBreaksPrefix` shows what that branch would mean. Failing unlocks, erases, words and relocks of APP writes are covered. `JournalRoom`, `Soundness`, `Transfer`, `TransferProgress`, `Journey` and `UpgradeManager` make the same assumption.
- TrialBoots.TrialBootsAreBounded: assumes, of the faults of each event, that no compaction is cut between its erase and the end of its rewrite; `CompactKeeps` shows that such a cut is exactly what loses the record, `CutCompactionLosesRecord` gives a request that does, and `NoRecordNoBound` shows that the bound is lost with the record.
- JournalRoom.JournalRoom: counts from the latest accepted START, because a retransmitted START in UPDATE_REQUESTED appends again and checks the room again; an event that changes the journal counts as interrupted if the faults of either of its two journal operations cut an append.
- JournalRoom.Reservation: assumes that the 32-bit sequence numbers are not used up.
- TransferProgress.TransferCompletes: assumes that the programming loop of a single chunk is not cut. `CutChunkResent` gives the exact consequence of such a cut: the resent chunk is stored if its first words or all the others read as erased, and is refused for ever otherwise. Journal appends may be cut as long as the journal has a slot for each cut.
- ExactlyOnce.ExactlyOnce: assumes that the device is not reset and its flash works between the attempts; lost requests and responses are arbitrary.
- UpgradeManager.Manager.Run: its safety clause claims the outcome for a START answered OK; the upgrade task also accepts a BUSY answer for a resumed session that is erasing or verifying, which does not tell whether the manifest matched. Its liveness clause assumes that at least one of any five attempts gets through, that the device is powered on and the confirmation delay over within any `patience` exchanges, and that polls and abort checks are enough. From exchange `from` to exchange `to`, while the image is transferred, the device may be reset and journal appends may be cut, as often as the journal has free slots for; before and after that nothing fails but frames, lost in silence. There a garbled answer ends the erase polls, and a power cut between VERIFY and ACTIVATE starts the image early, so the task reports an error. A fresh START promises at most three such slots, as the journal's own reservation does.
- UpgradeManager.Manager.FindBootloader: from an application it assumes that the device is back from its reset before the next request; an ENTER_BOOT whose response got lost is otherwise repeated into silence and ends the task.
- Completion.StartSettles: assumes free slots for five STARTs in a row, or a journal that the first one compacts, because each repeated START appends again.
- FirmwareDownloader.Downloader.Run: that every resumed download completes is false of the code, and its contract states exactly when it does: the checkpoint must describe the cache. Every run keeps that, except one whose erase had begun and whose own checkpoint was not saved afterwards (`EraseOutdatesCheckpoint`, `ErasedCacheMisleads`). A server that answers a range request with the whole package makes the task start over instead. Safety holds throughout.
- Framing.FramingIsExact: assumes that no poll closes a frame with bytes of it still to be fed, and that while a frame is open no input is a whole counter period after its last byte; `ReceiveLoop.ReceivedFramesAreSent` makes the same assumptions. `LatePollSplitsFrame` shows what a poll delayed by more than the frame gap does while a byte waits in the ring.
- UpgradeManager.Manager.TransferImage: reading the cache fails only for a package that is not valid or a range outside the image; read failures of the gateway's flash partition are not modelled, here and in the cache.
- FirmwareStore.Store.Open: takes what the partition table says as a parameter and requires that an entry that is large enough is the partition.

What the repository does beyond this model:

- Late answers: an answer that arrives after the gateway has flushed its input for the next attempt.
- Payload layouts of the HELLO, GET_INFO, DATA and QUERY responses; responses are values above the message codec.
- Null-pointer arguments, diagnostics of the flash drivers, log texts, state names, progress reports and probe.
- The else branch of the boot block for a metadata status other than OK, EMPTY and CORRUPT, which load_latest never returns.
- The layout of the download record in non-volatile storage (saving it is one step).
- HTTP, TLS, URLs, JSON, Wi-Fi, time synchronisation, tasks and locks; the HTTP body is any sequence of pieces.
- Clock, GPIO, watchdog and instruction cache hardware, the jump itself, UART transmission; sending a response works or does not.
- Bits within a word: a cut falls between two programmed words of the STM32 and between two programmed bytes of the cache.
- Fault injection, self tests, Python tools and the package server.
