# Verified model of the vehicle update and diagnostics chain

The project models, in Dafny, the parts of the repository that decide whether a vehicle controller still boots, what
reaches its flash and what its diagnostic traffic looks like, and proves properties of every run of them. Code that
updates state in place is written as classes and methods; each method is tied to a function on values, and the
properties are lemmas about those functions over all inputs and all runs.

| file | what it models |
|---|---|
| `Words.dfy`, `Runs.dfy` | fixed-width integers and the wrapping tick; runs of a state machine, invariants and measures over them |
| `BootConfig.dfy`, `EndNodeBoot.dfy`, `GatewayBoot.dfy`, `BootCrc.dfy` | the two-stage A/B boot chains that share one CRC-protected configuration |
| `Uds.dfy`, `UdsHandler.dfy`, `UdsAnswers.dfy`, `UdsRuns.dfy`, `UdsDownload.dfy`, `UdsUpdate.dfy` | the bootloader's UDS server: specification, handler object, answers on the wire, safety of all request sequences, firmware download, a whole update from power-up |
| `OtaManager.dfy` | download, verify, install, rollback and reboot over two banks |
| `Doip.dfy`, `DoipMessages.dfy`, `DoipStream.dfy` | DoIP frames in C and C++, and the server's receive loop |
| `ReconnectClient.dfy`, `RemoteDiagnostics.dfy`, `DiagnosticRouter.dfy` | backoff, retry and routing machines |
| `Crc32.dfy`, `MqttPacket.dfy` | the bitwise CRC-32 and the MQTT packet encoding |

`dafny verify dfyconfig.toml` checks all of it.

## Reading the model

- A run is a function from step numbers to inputs, so a lemma about step `n` of an arbitrary run is a statement about
  every reachable state. Lemmas about runs take the step or the server as a function value.
- Results about a stale CRC suppose a CRC that tells buffers differing in one byte apart, as CRC-32 does
  (`BootCrc.CrcTellsOneByte`); no other result about the boot chain supposes anything of the CRC.
- The CRC routine and the signature check of the boot chain, the UDS seed-to-key function, the answers of flash, clock
  and connections are arbitrary: parameters or part of a step's input. A failed UDS flash write may leave any bytes of
  the block behind. Boot images may change between boots, except for the banks that a lemma says keep verifying.
- Clocks are given as true time; the code sees the 32-bit tick, which wraps.
- Whether the UDS server accepted a request is read off the answer it gives, or would give in a buffer of six bytes
  (`UdsRuns.Ample`): a shorter buffer changes answers but not states.

- Laws are stated with the numbers the sources use (identifiers, codes, times, limits), not with the model's constants,
  and in both directions: what must be refused is, and what must be served is.

## Where code and documentation differ

The model follows the code.

- The comment on a forced reconnection promises an immediate retry
  (`zonal_gateway/tc375/src/doip_client_reconnect.c:292`); it is immediate exactly when the tick counter shows at
  least 1000 ms (`ReconnectClient.ResetRetriesAtOnceExactlyWhen`).
- The UDS block counter goes from 255 to 1. ISO 14229-1:2013 lets it go to 0, so a sender that numbers its blocks as the
  standard does succeeds exactly with 255 blocks or fewer (`UdsDownload.IsoSenderSucceedsExactlyWhen`).
- The stage-1 fallback of the end node and the application switch of the gateway store the CRC before they clear a
  counter, so a boot may leave a stale CRC. It does exactly when the counter it clears is not zero
  (`EndNodeBoot.StaleCrcExactlyWhen`, `GatewayBoot.StaleCrcExactlyWhen`), and then the next boot selects stage-2 bank A
  whatever is configured (`EndNodeBoot.StaleCrcInput`, `GatewayBoot.StaleCrcInput`). The bound of 6 resets on the end
  node includes this, and is reached.
- `DoIPMessage::toBytes` swaps and then shifts, so on a little-endian host it produces little-endian fields. It round
  trips exactly when the swaps change nothing (`DoipMessages.ToBytesRoundTripsExactlyWhen`). The C client's routing
  activation therefore works exactly against servers on hosts that are not little-endian
  (`DoipMessages.RoutingHandshakeExactlyWhen`).
- A DoIP header that announces 2^32 - 8 bytes or more is accepted without its payload, because the length sum wraps
  (`Doip.AcceptanceMeansCompleteExactlyWhen`).
- With a response buffer of 3 to 5 bytes a UDS request can be refused after it has taken effect
  (`UdsRuns.NegativesAreInertExactlyWhen`).
- A route failure is counted twice in `failed_requests_` (`RemoteDiagnostics.Conservation`), and reusing the id of a
  pending request loses that request without an answer.
- Starting an OTA download erases the fallback bank but not its valid flag, so a rollback may then start an empty bank
  (`OtaManager.RollbackAfterStartIsEmpty`). A rollback restores what was there before exactly when no download was
  accepted (`OtaManager.RollbackRestoresExactlyWhen`). The public bank switch does not look at the flag at all
  (`OtaManager.ActiveStaysValidExactlyWhen`).
- The MQTT packet id wraps to 0, which section 2.3.1 of MQTT 3.1.1 forbids (`MqttPacket.IdIsZeroExactlyWhen`), and a
  QoS of 3 is sent although section 3.3.1.2 forbids it (`MqttPacket.ReadInvertsPublishExactlyWhen`).
- Cleaning up a connected client clears its connected flag but not its state, so it is neither connected nor ever
  reconnects until it is forced to (`ReconnectClient.CutOffStaysIdle`).

## Model

| member | source | states |
|---|---|---|
| `Words.TickDifference` | tc375_bootloader/common/uds_handler.c:220-221 | a wrapped 32-bit tick difference is the elapsed time modulo 2^32 and never more than the elapsed time |
| `BootConfig.ConfigMemory.StoreCrc` | end_node_ecu/tc375/bootloader/ssw/ssw_main.c:50 | only the stored CRC changes, and it then matches the other fields |
| `BootConfig.ConfigMemory.ReadActiveStage2` | end_node_ecu/tc375/bootloader/ssw/ssw_main.c:27-38 | a configuration with a bad CRC selects bank A whatever its index says |
| `BootConfig.ConfigMemory.IncrementStage2Count` | end_node_ecu/tc375/bootloader/ssw/ssw_main.c:41-51 | one bank's attempt counter advances as a byte, everything else is kept, the CRC is current |
| `BootConfig.ConfigMemory.ResetStage2Count` | end_node_ecu/tc375/bootloader/ssw/ssw_main.c:54-64 | one bank's attempt counter is cleared, everything else is kept, the CRC is current |
| `BootConfig.ConfigMemory.IncrementAppCount` | end_node_ecu/tc375/bootloader/stage2/stage2_main.c:47-57 | the same for application counters |
| `BootConfig.ConfigMemory.ResetAppCount` | end_node_ecu/tc375/bootloader/stage2/stage2_main.c:59-69 | the same for application counters |
| `BootConfig.CrcCoversEveryField` | end_node_ecu/tc375/bootloader/ssw/ssw_main.c:27-38 | changing one byte of any field of a configuration with a current CRC makes it stale |
| `EndNodeBoot.Stage1SwitchToFallback` | end_node_ecu/tc375/bootloader/ssw/ssw_main.c:72-88 | the other stage-2 bank becomes active with a zero counter, under a CRC computed before the counter was cleared |
| `EndNodeBoot.Stage2SwitchToFallbackApp` | end_node_ecu/tc375/bootloader/stage2/stage2_main.c:76-93 | the other application becomes active with a zero counter and a current CRC |
| `EndNodeBoot.Stage1Main` | end_node_ecu/tc375/bootloader/ssw/ssw_main.c:114-167 | refines the stage-1 step that the recovery results are about |
| `EndNodeBoot.Stage2Main` | end_node_ecu/tc375/bootloader/stage2/stage2_main.c:171-214 | refines the stage-2 step that the recovery results are about |
| `EndNodeBoot.Stage1Progress` | end_node_ecu/tc375/bootloader/ssw/ssw_main.c:72-88 | while one stage-2 bank verifies, each stage-1 reset lowers a measure of at most 4 even when the CRC left behind is stale, and a jump never raises it |
| `EndNodeBoot.Stage2Progress` | end_node_ecu/tc375/bootloader/stage2/stage2_main.c:171-214 | while one application verifies, each stage-2 reset lowers a measure of at most 2 and leaves stage 1's alone |
| `EndNodeBoot.ResetMakesProgress` | end_node_ecu/tc375/bootloader/stage2/stage2_main.c:171-214 | every power-up that ends in a reset brings the device closer to booting |
| `EndNodeBoot.JumpsAreVerified` | end_node_ecu/tc375/bootloader/stage2/stage2_main.c:99-139 | only verified stage-2 and application images are ever entered |
| `EndNodeBoot.StartsExactlyWhen` | end_node_ecu/tc375/bootloader/stage2/stage2_main.c:99-139 | a power-up starts an application if and only if the selected banks' counters are below the limit, the stage-2 image has magic 0xA5A5A5A5 and a matching CRC, and the application also valid flag 1 and a signature that checks |
| `EndNodeBoot.StartedIsSound` | end_node_ecu/tc375/bootloader/stage2/stage2_main.c:99-139 | in every run whatever is started, and the stage-2 bank it is started from, passed those checks |
| `EndNodeBoot.CorruptedNeverStarts` | end_node_ecu/tc375/bootloader/ssw/ssw_main.c:144-157 | one changed byte of code keeps a stage-2 or application image from being entered |
| `EndNodeBoot.HealthyKeepsRunning` | end_node_ecu/tc375/bootloader/stage2/stage2_main.c:171-214 | in every run of a device whose configured banks pass all checks, every boot starts them and leaves their counters at zero |
| `EndNodeBoot.ResetLeaves` | end_node_ecu/tc375/bootloader/stage2/stage2_main.c:76-93 | what each reset leaves in every field: bank switched, its counter cleared, the failed attempt counted |
| `EndNodeBoot.Recovery` | end_node_ecu/tc375/bootloader/ssw/ssw_main.c:114-167 | from every configuration and for every CRC function, while one bank of each kind verifies and the others do as they like, at most 6 resets (4 if stage-2 bank A is the good one) precede a jump to a verified application |
| `EndNodeBoot.RecoversExactlyWhen` | end_node_ecu/tc375/bootloader/ssw/ssw_main.c:114-167 | with fixed images an application is eventually started if and only if some stage-2 bank and some application bank verify |
| `EndNodeBoot.SixResetsHappen` | end_node_ecu/tc375/bootloader/ssw/ssw_main.c:76-84 | a configuration that the device can hold, and a CRC function, for which exactly 6 resets happen, so the bound is tight |
| `EndNodeBoot.BootLimitNeverReached` | end_node_ecu/tc375/bootloader/ssw/ssw_main.c:134-142 | from zero counters, under any pattern of image validity, the inactive counter stays at most 1, the active one 0, and the boot limit is never what resets |
| `EndNodeBoot.AppLimitNeverReached` | end_node_ecu/tc375/bootloader/stage2/stage2_main.c:76-93 | the same for the application counters: stage 2 only ever resets because an image does not verify |
| `EndNodeBoot.CrcHandOver` | end_node_ecu/tc375/bootloader/ssw/ssw_main.c:159-163 | in every run the CRC is current whenever stage 2 or an application is entered |
| `BootCrc.CrcTellsOneByte` | tc375_simulator/src/device_info.cpp:269-284 | the repository's CRC-32 tells buffers that differ in one byte apart, which is all that the following results ask of the devices' CRC |
| `EndNodeBoot.StaleCrcExactlyWhen` | end_node_ecu/tc375/bootloader/ssw/ssw_main.c:72-88 | whatever the CRC was before, a power-up leaves a stale CRC if and only if the selected stage-2 bank is at its limit or does not verify and the counter cleared for the other one is not zero |
| `EndNodeBoot.StaleCrcInput` | end_node_ecu/tc375/bootloader/ssw/ssw_main.c:76-84 | one failed attempt on bank B: the boot that switches to B leaves a stale CRC, so the next one selects A |
| `EndNodeBoot.CrcStaysCurrentExactlyWhen` | end_node_ecu/tc375/bootloader/ssw/ssw_main.c:72-88 | over every run the CRC stays current if and only if no boot meets that condition |
| `GatewayBoot.Start` | zonal_gateway/tc375/bootloader/ssw/ssw_main.c:140-187 | refines the stage-1 step: bank choice, limit, increment, backup bank, safe mode |
| `GatewayBoot.ReadActiveApp` | zonal_gateway/tc375/bootloader/stage2/stage2_main.c:35-44 | a bad CRC means application A |
| `GatewayBoot.SwitchActiveApp` | zonal_gateway/tc375/bootloader/stage2/stage2_main.c:92-106 | the other application becomes active with a zero counter, under a CRC computed before the counter was cleared |
| `GatewayBoot.ProcessOta` | zonal_gateway/tc375/bootloader/stage2/stage2_main.c:162-198 | installs to the bank that is not active, switches, clears the pending flag, and leaves a current CRC |
| `GatewayBoot.Stage2Main` | zonal_gateway/tc375/bootloader/stage2/stage2_main.c:201-252 | refines the stage-2 step |
| `GatewayBoot.CrcHandOver` | zonal_gateway/tc375/bootloader/ssw/ssw_main.c:153-168 | whatever stage 1 finds, stage 2 starts with a current CRC, never takes its CRC default, and an installation goes to the very bank that the switch activates |
| `GatewayBoot.StaleCrcExactlyWhen` | zonal_gateway/tc375/bootloader/stage2/stage2_main.c:92-106 | whatever the CRC was before, a power-up leaves a stale CRC if and only if it resets without installing and the other application's counter was not zero, a condition on the configuration before |
| `GatewayBoot.CrcStaysCurrentExactlyWhen` | zonal_gateway/tc375/bootloader/stage2/stage2_main.c:92-106 | over every run the CRC stays current if and only if no boot meets that condition |
| `GatewayBoot.ResetMakesProgress` | zonal_gateway/tc375/bootloader/stage2/stage2_main.c:201-252 | every reset lowers a measure of at most 2 while one application verifies |
| `GatewayBoot.JumpsAreVerified` | zonal_gateway/tc375/bootloader/ssw/ssw_main.c:166-183 | safe mode is entered exactly when no stage-2 bank verifies, and only verified images are started |
| `GatewayBoot.StartsExactlyWhen` | zonal_gateway/tc375/bootloader/stage2/stage2_main.c:201-252 | a power-up starts an application if and only if nothing is pending, its counter is below the limit, both images have magic 0xA5A5A5A5, valid flag 1 and a matching CRC, and the stage-2 bank is the one tried first or that one fails; safe mode if and only if both stage-2 images fail |
| `GatewayBoot.StartedIsSound` | zonal_gateway/tc375/bootloader/ssw/ssw_main.c:163-183 | in every run whatever is started, and the stage-2 bank it is started from, passed those checks |
| `GatewayBoot.CorruptedNeverStarts` | zonal_gateway/tc375/bootloader/ssw/ssw_main.c:163-183 | one changed byte of code keeps a stage-2 or application image from being entered |
| `GatewayBoot.HealthyKeepsRunning` | zonal_gateway/tc375/bootloader/stage2/stage2_main.c:235-247 | in every run without a pending installation, while the configured application and some stage-2 bank pass all checks, every boot starts that application and leaves its counter at zero |
| `GatewayBoot.AppLimitNeverReached` | zonal_gateway/tc375/bootloader/stage2/stage2_main.c:92-106 | from zero counters, whatever is installed and verifies, the boot limit is never what switches applications |
| `GatewayBoot.BootLeaves` | zonal_gateway/tc375/bootloader/stage2/stage2_main.c:201-252 | what each outcome leaves of the application part, and when an installation is processed |
| `GatewayBoot.BootCounts` | zonal_gateway/tc375/bootloader/ssw/ssw_main.c:153-161 | exactly the stage-2 bank tried first is counted, from zero if it was switched to |
| `GatewayBoot.Recovery` | zonal_gateway/tc375/bootloader/stage2/stage2_main.c:201-252 | from every configuration at most 2 resets, installation included, precede a jump to a verified application |
| `GatewayBoot.RecoversExactlyWhen` | zonal_gateway/tc375/bootloader/ssw/ssw_main.c:166-183 | with fixed images an application is eventually started if and only if a bank of each kind verifies |
| `GatewayBoot.ConfiguredBankEnteredExactlyWhen` | zonal_gateway/tc375/bootloader/ssw/ssw_main.c:153-168 | while both stage-2 banks verify, the configured bank is entered at a power-up if and only if its initial counter and the power-ups so far stay below three, and the other bank from then on, whose counter starts over every time: for bank A in every run, for bank B in every run whose CRC was current at every power-up |
| `GatewayBoot.StaleBootEntersExactly` | zonal_gateway/tc375/bootloader/ssw/ssw_main.c:153-168 | a boot that finds a stale CRC enters bank A if and only if A's counter is below three, and otherwise bank B, whose counter starts over |
| `GatewayBoot.FirstStaleBootExactly` | zonal_gateway/tc375/bootloader/ssw/ssw_main.c:153-168 | so in every run with bank B configured, whichever boot is the first to find a stale CRC passes over bank B if and only if A's counter is below three |
| `GatewayBoot.StaleCrcInput` | zonal_gateway/tc375/bootloader/stage2/stage2_main.c:92-106 | bank B configured, a bad application A and one failed attempt on application B: the first boot enters bank B and leaves a stale CRC, the second enters bank A |
| `GatewayBoot.CounterRestartInput` | zonal_gateway/tc375/bootloader/ssw/ssw_main.c:154-158 | a stale boot with bank A at the limit, after which bank B's counter has gone from 2 to 1 |
| `GatewayBoot.OtaClearsPending` | zonal_gateway/tc375/bootloader/stage2/stage2_main.c:85-89 | only an installation changes the pending flag, by clearing it |
| `GatewayBoot.OtaProcessedOnce` | zonal_gateway/tc375/bootloader/stage2/stage2_main.c:211-215 | in no run is a pending installation processed twice |
| `GatewayBoot.OtaInstallsOrRollsBack` | zonal_gateway/tc375/bootloader/stage2/stage2_main.c:211-242 | a pending installation takes exactly one reset if the new image verifies and exactly two if not, after which the previous application runs again |
| `UdsHandler.Handler.constructor` | tc375_bootloader/common/uds_handler.c:29-37 | default session, locked, no transfer |
| `UdsHandler.Handler.BuildPositive` | tc375_bootloader/common/uds_handler.c:78-97 | the buffer holds `[sid + 0x40]` and the data, or the answer does not fit and becomes a general reject |
| `UdsHandler.Handler.BuildNegative` | tc375_bootloader/common/uds_handler.c:99-116 | the buffer holds `[0x7F, sid, nrc]`, or nothing is answered for lack of room |
| `UdsHandler.Handler.ServiceSessionControl` | tc375_bootloader/common/uds_handler.c:120-164 | refines the session step: default and programming lock, extended does not |
| `UdsHandler.Handler.ServiceEcuReset` | tc375_bootloader/common/uds_handler.c:166-202 | which reset types are accepted, the answer sent before the reset, and that the platform is asked for that reset exactly when the answer fits |
| `UdsHandler.Handler.ServiceSecurityAccess` | tc375_bootloader/common/uds_handler.c:204-299 | refines the security step: lockout, seed, key, attempt counter |
| `UdsHandler.Handler.ServiceTesterPresent` | tc375_bootloader/common/uds_handler.c:301-324 | the sub-function is echoed |
| `UdsHandler.Handler.ServiceReadData` | tc375_bootloader/common/uds_handler.c:326-360 | only the VIN is readable |
| `UdsHandler.Handler.ServiceWriteData` | tc375_bootloader/common/uds_handler.c:362-397 | writing is refused while locked |
| `UdsHandler.Handler.BigEndianLoop` | tc375_bootloader/common/uds_handler.c:431-440 | the shift loop computes the big-endian value of its bytes in 32 bits |
| `UdsHandler.Handler.ServiceRequestDownload` | tc375_bootloader/common/uds_handler.c:399-463 | refines the download step: refused unless programming and unlocked, otherwise address, size and counter are set |
| `UdsHandler.Handler.ServiceTransferData` | tc375_bootloader/common/uds_handler.c:465-513 | refines the block step: flash, received length and counter move together or not at all |
| `UdsHandler.Handler.ServiceTransferExit` | tc375_bootloader/common/uds_handler.c:515-547 | accepted only when the received length is the announced one |
| `UdsHandler.Handler.CallService` | tc375_bootloader/common/uds_handler.c:51-68 | every entry of the service table refines its step |
| `UdsHandler.Handler.ProcessRequest` | tc375_bootloader/common/uds_handler.c:39-76 | refines the server step for every request, state and buffer size, in the new state and in the bytes answered |
| `UdsAnswers.KeyJudged` | tc375_bootloader/common/uds_handler.c:262-295 | with no lockout running, a key is answered `67 02` and unlocks, with no attempts left counted, if and only if it is the one computed for the stored seed; a wrong one is counted, and the third locks out |
| `UdsAnswers.SeedJudged` | tc375_bootloader/common/uds_handler.c:228-260 | a seed request to a locked server stores the fresh seed and sends that very seed; an unlocked one sends zeros |
| `UdsAnswers.LockoutJudged` | tc375_bootloader/common/uds_handler.c:218-226 | a request is refused for a lockout if and only if three attempts failed and less than 10000 ms of ticks have passed, and then nothing changes |
| `UdsAnswers.LockoutEndsExactlyWhen` | tc375_bootloader/common/uds_handler.c:218-226 | in true time: refused for ten seconds after the stamp and served from then on, until the tick comes round |
| `UdsAnswers.OddAccessJudged` | tc375_bootloader/common/uds_handler.c:262-298 | short keys and unknown levels |
| `UdsAnswers.SessionJudged` | tc375_bootloader/common/uds_handler.c:120-164 | sessions 1 to 3 and what each does to the lock, and refusal of all others |
| `UdsAnswers.ResetJudged` | tc375_bootloader/common/uds_handler.c:166-202 | reset types 1 to 3 and no others |
| `UdsAnswers.TesterPresentJudged` | tc375_bootloader/common/uds_handler.c:301-324 | always answered |
| `UdsAnswers.ReadJudged` | tc375_bootloader/common/uds_handler.c:326-360 | identifier F190 answers WBADT43452G296403, all others are refused |
| `UdsAnswers.WriteJudged` | tc375_bootloader/common/uds_handler.c:362-397 | accepted if and only if the server is unlocked |
| `UdsAnswers.DownloadJudged` | tc375_bootloader/common/uds_handler.c:399-463 | accepted if and only if programming, unlocked and long enough; the refusal code otherwise, and all transfer fields |
| `UdsAnswers.BlockJudged` | tc375_bootloader/common/uds_handler.c:465-513 | accepted if and only if a transfer is open, the number is the next one and flash takes the block; the refusal code otherwise |
| `UdsAnswers.BlockWrites` | tc375_bootloader/common/uds_handler.c:491-496 | every byte of flash after a block, taken or torn |
| `UdsAnswers.ExitJudged` | tc375_bootloader/common/uds_handler.c:515-547 | accepted if and only if a transfer is open and as much arrived as was announced |
| `UdsAnswers.ShortJudged` | tc375_bootloader/common/uds_handler.c:166-177 | requests below the least length of their service are refused for it and do nothing |
| `UdsAnswers.UnknownJudged` | tc375_bootloader/common/uds_handler.c:60-63 | services not in the table are refused |
| `UdsAnswers.AnswerInBuffer` | tc375_bootloader/common/uds_handler.c:78-116 | the answer in a buffer of any size: the full one if it fits, else a general reject, else nothing |
| `UdsRuns.ResponseShape` | tc375_bootloader/common/uds_handler.c:78-116 | every response is `[sid + 0x40, ...]` of a served request or exactly `[0x7F, sid, nrc]`, within the buffer |
| `UdsRuns.NegativeIsInert` | tc375_bootloader/common/uds_handler.c:39-76 | a negative answer leaves session, security, seed and all transfer fields unchanged, across all services |
| `UdsRuns.SmallBufferCounterexample` | tc375_bootloader/common/uds_handler.c:243-260 | with 3 to 5 bytes of room a seed request is refused after the stored seed was replaced |
| `UdsRuns.NegativesAreInertExactlyWhen` | tc375_bootloader/common/uds_handler.c:39-116 | negative answers are inert if and only if the buffer does not have 3 to 5 bytes |
| `UdsRuns.CapacityAffectsAnswersOnly` | tc375_bootloader/common/uds_handler.c:78-116 | in every run the room for answers never changes a state, nor an answer for which there were six bytes |
| `UdsRuns.SessionLaw` | tc375_bootloader/common/uds_handler.c:134-152 | the session changes only by an accepted session control, entering programming locks, and only an accepted key unlocks |
| `UdsRuns.DownloadLaw` | tc375_bootloader/common/uds_handler.c:411-447 | downloads are accepted only while programming and unlocked, transfers start only so, and nothing but a block of an open transfer touches flash |
| `UdsRuns.AttemptLaw` | tc375_bootloader/common/uds_handler.c:218-295 | what each request does to the attempt counter and the lockout time |
| `UdsRuns.WriteOrdering` | tc375_bootloader/common/uds_handler.c:477-494 | in every run each attempt to write flash is preceded, in this order, by entry to the programming session, a key matching the stored seed, and the acceptance of its download, with no session change from entry to acceptance |
| `UdsRuns.AttemptsNeverExceedThree` | tc375_bootloader/common/uds_handler.c:289-293 | the attempt counter never exceeds 3 |
| `UdsRuns.PaceStep` | tc375_bootloader/common/uds_handler.c:218-226 | each expired lockout stands for ten real seconds, whatever the tick does |
| `UdsRuns.LockoutRate` | tc375_bootloader/common/uds_handler.c:218-295 | in every run without an accepted key, r rejected keys span at least 10 s times floor((r - 1) / 3) |
| `UdsDownload.WriteExtends` | tc375_bootloader/common/uds_handler.c:492-494 | a block written right after an image in 32-bit flash extends it and destroys nothing |
| `UdsDownload.AcceptedBlock` | tc375_bootloader/common/uds_handler.c:498-502 | an accepted block keeps address, length, counter and flash in agreement with the blocks seen on the wire |
| `UdsDownload.FailedBlock` | tc375_bootloader/common/uds_handler.c:494-496 | a failed write, however torn, keeps the agreement too |
| `UdsDownload.TracksStep` | tc375_bootloader/common/uds_handler.c:399-547 | so does every other request |
| `UdsDownload.Reassembly` | tc375_bootloader/common/uds_handler.c:526-536 | after a positive transfer exit the accepted blocks have the announced size modulo 2^32 (exactly it if and only if they stay below 2^32), the counter is one plus their number modulo 255, and flash holds them concatenated in order from the announced address if no block reached past 2^32 |
| `UdsDownload.BlockArrives` | tc375_bootloader/common/uds_handler.c:477-512 | a correctly numbered block whose write succeeds is accepted |
| `UdsDownload.SenderSucceeds` | tc375_bootloader/common/uds_handler.c:399-547 | any cutting of any image, sent in order with any requests in between but accepted ones of these three services, is accepted block by block and ended by a positive exit |
| `UdsDownload.ImageArrives` | tc375_bootloader/common/uds_handler.c:399-547 | end to end: in every run from power-up, after a correct sender's exit flash holds its image at the announced address if no block reached past 2^32 |
| `UdsDownload.IsoSenderSucceedsExactlyWhen` | tc375_bootloader/common/uds_handler.c:498-502 | a sender that numbers its blocks as ISO 14229-1:2013 does, 0 after 255, is accepted throughout if and only if it has at most 255 blocks; otherwise exactly its block 255 is the first refused, as wrongly numbered |
| `UdsDownload.IsoSenderCounterexample` | tc375_bootloader/common/uds_handler.c:481-484 | 256 blocks of one byte, sent straight |
| `UdsDownload.DownloadCanAnnounce` | tc375_bootloader/common/uds_handler.c:421-440 | every 32-bit address and size can be announced and is parsed back |
| `UdsDownload.BigEndianLastFour` | tc375_bootloader/common/uds_handler.c:431-440 | of a longer field only the last four bytes count |
| `UdsUpdate.Unlocks` | tc375_bootloader/common/uds_handler.c:120-295 | session, seed and key always unlock the programming session from power-up |
| `UdsUpdate.UpdateSucceeds` | tc375_bootloader/common/uds_handler.c:39-547 | from power-up every image below 2^32 bytes, in every cutting and at every address, is brought into flash by session, seed, key, download, blocks and exit, for every seed and key function |
| `Crc32.BranchFree` | tc375_simulator/src/device_info.cpp:279 | the masked expression of the source is the branching bit step |
| `Crc32.EightBits` | tc375_simulator/src/device_info.cpp:278-280 | the inner loop is eight bit steps |
| `Crc32.CalculateCrc` | tc375_simulator/src/device_info.cpp:269-284 | the nested loops compute the CRC that the laws below are about |
| `Crc32.VerifyCrc` | tc375_simulator/src/device_info.cpp:286-289 | accepts exactly the CRC of the data |
| `Crc32.ByteStepLinearInjective` | tc375_simulator/src/device_info.cpp:278-280 | the inner loop is linear over the two-element field and injective |
| `Crc32.AffineLaw` | tc375_simulator/src/device_info.cpp:269-284 | for equal lengths the CRC of a bytewise sum of three buffers is the sum of their CRCs |
| `Crc32.FeedFourBytes` | tc375_simulator/src/device_info.cpp:276-281 | feeding four bytes is adding one 32-bit word and applying an injective map |
| `Crc32.DetectsShortWindows` | tc375_simulator/src/device_info.cpp:269-289 | buffers that differ only inside a window of at most four bytes have the same CRC if and only if they are equal |
| `Crc32.FeedsBits` | tc375_simulator/src/device_info.cpp:276-281 | the nested loops are one shift register fed bit by bit, least significant bit of each byte first |
| `Crc32.DetectsBursts` | tc375_simulator/src/device_info.cpp:269-289 | buffers that differ only inside a window of at most 32 bits, wherever it starts, have the same CRC if and only if they are equal |
| `Crc32.BurstOf33Escapes` | tc375_simulator/src/device_info.cpp:269-289 | two buffers that differ in a window of 33 bits and have the same CRC |
| `Crc32.DetectsBurstsExactlyWhen` | tc375_simulator/src/device_info.cpp:269-289 | all bursts of at most n bits are detected if and only if n is at most 32 |
| `Crc32.ResidueIsConstant` | tc375_simulator/src/device_info.cpp:269-284 | a buffer followed by its own CRC leaves the same register behind, whatever the buffer |
| `Crc32.CheckValue` | tc375_simulator/src/device_info.cpp:269-284 | the published check value: the CRC of "123456789" is CBF43926 |
| `Doip.NetworkOrder16` | tc375_bootloader/common/doip_message.c:25-26 | swap macro and memcpy on a little-endian machine store network byte order (16 bits) |
| `Doip.NetworkOrder32` | tc375_bootloader/common/doip_message.c:29-30 | swap macro and memcpy on a little-endian machine store network byte order (32 bits) |
| `Doip.ParseMessage` | tc375_bootloader/common/doip_message.c:40-84 | return code, header fields and payload pointer for every buffer, the wrapping length check and the null pointer of an empty payload included |
| `Doip.ParseInvertsFrame` | tc375_bootloader/common/doip_message.c:40-84 | the parser inverts framing, with anything behind the frame |
| `Doip.ParsedIsFrame` | tc375_bootloader/common/doip_message.c:63-72 | what the parser accepts, below the limit, is the frame of what it reports |
| `Doip.ParseOutcomeExactlyWhen` | tc375_bootloader/common/doip_message.c:46-72 | which of the three outcomes a buffer has, by its bytes |
| `Doip.BareHeaderAccepted` | tc375_bootloader/common/doip_message.c:70-72 | a bare header announcing 2^32 - 8 bytes or more is accepted |
| `Doip.AcceptanceMeansCompleteExactlyWhen` | tc375_bootloader/common/doip_message.c:70-72 | acceptance promises a complete payload if and only if the announced length is below 2^32 - 8 |
| `DoipMessages.BuildMessage` | tc375_bootloader/common/doip_message.c:9-38 | the frame of the payload as it was before the call, also when the payload already stands in the output buffer, and nothing else is touched; 0 where the 32-bit check refuses it, the wrapping sum included |
| `DoipMessages.BuildDiagnosticMessage` | tc375_bootloader/common/doip_message.c:149-184 | building in place gives the frame of both addresses and the UDS data, which may itself stand in the output buffer, and touches nothing behind it |
| `DoipMessages.BuildRoutingActivationRequest` | tc375_bootloader/common/doip_message.c:94-114 | the 15-byte activation frame, or 0 when it does not fit |
| `DoipMessages.BuildDiagnosticCpp` | vehicle_gateway/src/remote_diagnostics_handler.cpp:274-308 | byte for byte the frame that the C builder makes |
| `DoipMessages.FromBytesInvertsFrame` | vehicle_gateway/src/doip_server.cpp:64-92 | the C++ decoder inverts the C encoder |
| `DoipMessages.ToBytesRoundTripsExactlyWhen` | vehicle_gateway/src/doip_server.cpp:34-58 | the C++ encoder is inverted if and only if the host is big-endian or swapping type and length changes nothing |
| `DoipMessages.DiagnosticRoundTrip` | tc375_bootloader/common/doip_message.c:186-224 | every parser of the system gives back addresses and UDS data |
| `DoipMessages.RoutingHandshakeExactlyWhen` | tc375_bootloader/common/doip_client.c:147-204 | over the whole path (C request frame, C++ decoder, server, C++ encoder, C parser, type check) the client reads back the address it asked with, and success, if and only if the server's host is not little-endian; on a little-endian host it reads nothing |
| `DoipMessages.FramesOnTheWire` | tc375_bootloader/common/doip_message.c:94-184 | the bytes of request, answer and diagnostic frames |
| `DoipMessages.ActivationAnsweredExactlyWhen` | vehicle_gateway/src/doip_server.cpp:483-520 | a payload below seven bytes is answered with an empty one, any other with nine bytes that echo the address |
| `DoipMessages.OemFieldReadBack` | tc375_bootloader/common/doip_message.c:116-147 | all fields of an activation response, the manufacturer's only from thirteen bytes on |
| `DoipStream.BufferHoldsFrameExactlyWhen` | vehicle_gateway/src/doip_server.cpp:382-391 | the buffer, grown by a 32-bit sum, holds the announced frame if and only if its length is below 2^32 - 8 |
| `DoipStream.ReceiveFrame` | vehicle_gateway/src/doip_server.cpp:369-399 | after header, buffer growth and payload the buffer starts with exactly the next frame of the stream, unless it would leave its buffer |
| `DoipStream.ClientHandler` | vehicle_gateway/src/doip_server.cpp:366-409 | the loop hands on exactly the messages that the stream function defines and stops for the reason it gives |
| `DoipStream.FramesRecovered` | vehicle_gateway/src/doip_server.cpp:366-409 | frames of any version in front of any stream are cut back into the same frames, those of the right version are delivered in order, and the loop stays in step |
| `DoipStream.MessagesRecovered` | vehicle_gateway/src/doip_server.cpp:366-409 | any list of messages framed by the C encoder and concatenated arrives as that list |
| `DoipStream.DeliveredIsFramed` | vehicle_gateway/src/doip_server.cpp:401-408 | conversely every stream is frames and a rest without a whole frame, and nothing but those frames' messages is delivered |
| `DoipStream.OverflowExactlyWhen` | vehicle_gateway/src/doip_server.cpp:382-391 | the loop leaves its buffer if and only if, after whole frames, a header announces 2^32 - 8 bytes or more |
| `DoipStream.StopsExactlyWhen` | vehicle_gateway/src/doip_server.cpp:369-399 | why the loop stops, from the bytes that are left |
| `ReconnectClient.ReconnectingClient.constructor` | zonal_gateway/tc375/src/doip_client_reconnect.c:108-115 | the initial state |
| `ReconnectClient.ReconnectingClient.StartConnecting` | zonal_gateway/tc375/src/doip_client_reconnect.c:122-135 | refines the start step |
| `ReconnectClient.ReconnectingClient.ProcessState` | zonal_gateway/tc375/src/doip_client_reconnect.c:137-212 | refines the polling step and says what its result means for the state |
| `ReconnectClient.ReconnectingClient.ForceReconnect` | zonal_gateway/tc375/src/doip_client_reconnect.c:282-295 | refines the reset step |
| `ReconnectClient.ReconnectingClient.CleanUp` | zonal_gateway/tc375/src/doip_client_reconnect.c:315-323 | refines the clean-up step |
| `ReconnectClient.ConnectedFlagImpliesState` | zonal_gateway/tc375/src/doip_client_reconnect.c:214-216 | after every call sequence the connected flag implies the connected state |
| `ReconnectClient.StateAndFlagDisagreeExactlyWhen` | zonal_gateway/tc375/src/doip_client_reconnect.c:315-323 | state and flag disagree if and only if a connected client was cleaned up and not forced to reconnect since |
| `ReconnectClient.CutOffStaysIdle` | zonal_gateway/tc375/src/doip_client_reconnect.c:122-135 | such a client makes no attempt, started again or polled, until it is forced to reconnect |
| `ReconnectClient.BackoffClosedForm` | zonal_gateway/tc375/src/doip_client_reconnect.c:170-180 | after k failures since the last success or reset the backoff is min(30000, 1000 * 2^k) |
| `ReconnectClient.WaitingStep` | zonal_gateway/tc375/src/doip_client_reconnect.c:149-183 | every call keeps the last attempt as late as the backoffs so far demand |
| `ReconnectClient.AttemptsAreSpaced` | zonal_gateway/tc375/src/doip_client_reconnect.c:149-183 | without resets the k-th attempt comes no earlier than the start plus the sum of the first k backoffs, however often polled and however the tick wraps |
| `ReconnectClient.PollAttemptsExactlyWhen` | zonal_gateway/tc375/src/doip_client_reconnect.c:149-160 | after a start or failed attempt with k failures behind it, a poll attempts to connect if and only if min(30000, 1000 * 2^k) ms of ticks have passed |
| `ReconnectClient.AttemptJudged` | zonal_gateway/tc375/src/doip_client_reconnect.c:156-183 | what an attempt leaves behind, connected or not |
| `ReconnectClient.CountersExactly` | zonal_gateway/tc375/src/doip_client_reconnect.c:162-175 | over every run one counter holds the failures since the last success and the other all failures, modulo 2^32 |
| `ReconnectClient.KeepaliveExactlyWhen` | zonal_gateway/tc375/src/doip_client_reconnect.c:185-205 | a poll renews the stamp if and only if it is more than 30000 ms of ticks old |
| `ReconnectClient.ResetRetriesAtOnceExactlyWhen` | zonal_gateway/tc375/src/doip_client_reconnect.c:289-292 | a forced reconnection retries at once if and only if the tick counter shows at least 1000 |
| `RemoteDiagnostics.Handler.SendResponse` | vehicle_gateway/src/remote_diagnostics_handler.cpp:324-342 | one response more, counted as success or failure |
| `RemoteDiagnostics.Handler.RegisterEcu` | vehicle_gateway/src/remote_diagnostics_handler.cpp:142-161 | one route more |
| `RemoteDiagnostics.Handler.HandleRequest` | vehicle_gateway/src/remote_diagnostics_handler.cpp:39-76 | refused without trace if a field does not convert or an id is missing, otherwise refines the submission step, accepted if and only if the ECU has a route |
| `RemoteDiagnostics.Handler.ProcessPendingRequests` | vehicle_gateway/src/remote_diagnostics_handler.cpp:93-140 | in whatever order the entries are visited: timed-out requests with retries left are retried, those without are answered and removed, nothing else changes |
| `RemoteDiagnostics.SweepSpendsBudget` | vehicle_gateway/src/remote_diagnostics_handler.cpp:103-132 | the sum of the chances to time out, four less the retries for each pending request, falls by one for each request that did |
| `RemoteDiagnostics.SweepRetrySum` | vehicle_gateway/src/remote_diagnostics_handler.cpp:106-113 | the retries held by pending requests grow by those made and shrink by three for each request given up |
| `RemoteDiagnostics.SubmitKeepsBooks` | vehicle_gateway/src/remote_diagnostics_handler.cpp:51-76 | submitting keeps every id either answered, pending or displaced |
| `RemoteDiagnostics.SweepBalances` | vehicle_gateway/src/remote_diagnostics_handler.cpp:93-140 | so does a sweep |
| `RemoteDiagnostics.Conservation` | vehicle_gateway/src/remote_diagnostics_handler.cpp:39-140 | in every run total = pending + timed out + route failures + displaced, the short form holds if and only if nothing was displaced, retries = retries of pending requests + 3 * timed out + those of displaced ones, at most 3 * total; no request ever succeeds and route failures count twice as failures |
| `RemoteDiagnostics.DisplacedExactlyWhenReused` | vehicle_gateway/src/remote_diagnostics_handler.cpp:55 | requests are displaced if and only if a call reuses the id of a pending one |
| `RemoteDiagnostics.DisplacedInput` | vehicle_gateway/src/remote_diagnostics_handler.cpp:55 | a run of two submissions under one id, after which one request is lost without an answer |
| `RemoteDiagnostics.AnsweredExactlyOnce` | vehicle_gateway/src/remote_diagnostics_handler.cpp:61-72 | with distinct ids every submitted request is either pending or answered exactly once |
| `RemoteDiagnostics.BudgetFalls` | vehicle_gateway/src/remote_diagnostics_handler.cpp:93-140 | in every stretch of a run without submissions the budget falls by exactly the timeouts handled |
| `RemoteDiagnostics.ChasedSweep` | vehicle_gateway/src/remote_diagnostics_handler.cpp:103-132 | a sweep later than the timeout after the last transmission costs a request one retry, and after three the request |
| `RemoteDiagnostics.FourSweepsAnswer` | vehicle_gateway/src/remote_diagnostics_handler.cpp:93-140 | in every run with distinct ids, after four sweeps, each more than the timeout after the one before and the first after the submission, a request has been answered exactly once and is never pending again, whatever else is submitted, registered or swept in between |
| `RemoteDiagnostics.EveryRequestIsAnswered` | vehicle_gateway/src/remote_diagnostics_handler.cpp:93-140 | so as long as sweeps keep coming, every request is answered in the end |
| `RemoteDiagnostics.EarlySweepIsQuiet` | vehicle_gateway/src/remote_diagnostics_handler.cpp:99-103 | a sweep at most 5000 ms after a request was last sent leaves it and its answers as they are |
| `RemoteDiagnostics.LateSweepActs` | vehicle_gateway/src/remote_diagnostics_handler.cpp:103-132 | a later one retries it as it was asked, or gives it up with one answer after three retries |
| `RemoteDiagnostics.NotAnsweredEarly` | vehicle_gateway/src/remote_diagnostics_handler.cpp:93-140 | in every chronological run with distinct ids a routed request is not answered before more than 4 * 5000 ms have passed, and while pending it is what was submitted |
| `RemoteDiagnostics.TransmissionsAreSpaced` | vehicle_gateway/src/remote_diagnostics_handler.cpp:103-115 | and any two transmissions of it are more than 5000 ms apart |
| `RemoteDiagnostics.UnroutedAnsweredAtOnce` | vehicle_gateway/src/remote_diagnostics_handler.cpp:58-73 | without a route a request is answered at once and not kept |
| `RemoteDiagnostics.RoutedExactlyWhen` | vehicle_gateway/src/remote_diagnostics_handler.cpp:142-161 | an ECU has a route if and only if it had one at first or has been registered since |
| `OtaManager.Bootloader.WriteToFlash` | tc375_simulator/src/ota_manager.cpp:287-307 | the block stands at its offset, a gap is zero, the rest and the other bank are kept |
| `OtaManager.OtaManager.constructor` | tc375_simulator/src/ota_manager.cpp:29-44 | idle on the bank that is active now |
| `OtaManager.OtaManager.StartDownloading` | tc375_simulator/src/ota_manager.cpp:46-82 | refines the start step; only the target bank is erased |
| `OtaManager.OtaManager.WriteImageBlock` | tc375_simulator/src/ota_manager.cpp:84-108 | refines the write step; only the target bank is written, within the announced size |
| `OtaManager.OtaManager.VerifyImage` | tc375_simulator/src/ota_manager.cpp:110-152 | refines the verify step |
| `OtaManager.OtaManager.InstallImage` | tc375_simulator/src/ota_manager.cpp:154-182 | refines the install step |
| `OtaManager.OtaManager.RollBack` | tc375_simulator/src/ota_manager.cpp:184-209 | refines the rollback step |
| `OtaManager.OtaManager.SwitchToBank` | tc375_simulator/src/ota_manager.cpp:215-227 | refines the direct switch, which checks no flag |
| `OtaManager.AlwaysSound` | tc375_simulator/src/ota_manager.cpp:211-213 | over every run with reboots no erase or write touches the bank that was running at construction |
| `OtaManager.VerifiedMeansInstalled` | tc375_simulator/src/ota_manager.cpp:154-182 | when an installation succeeds the bank made active holds exactly the bytes it held when `verify` succeeded |
| `OtaManager.InstalledPassedAllChecks` | tc375_simulator/src/ota_manager.cpp:110-152 | over every run, an installation that succeeds was preceded, without a reboot in between, by a verification in which CRC check, signature check and saving all succeeded |
| `OtaManager.FailedVerificationEndsUpdate` | tc375_simulator/src/ota_manager.cpp:119-148 | after a failed verification no download, verification or installation succeeds until the next reboot |
| `OtaManager.AcceptedExactlyWhen` | tc375_simulator/src/ota_manager.cpp:46-227 | when each operation succeeds |
| `OtaManager.WrittenBytes` | tc375_simulator/src/ota_manager.cpp:287-307 | every byte of a bank after a write, gaps included |
| `OtaManager.UpdateSucceeds` | tc375_simulator/src/ota_manager.cpp:46-182 | on every board a complete update of every image, in every cutting, succeeds call by call, and after the reboot the other bank runs, is valid and holds exactly the image, and the bank before keeps its bytes |
| `OtaManager.ActiveStaysValidExactlyWhen` | tc375_simulator/src/ota_manager.cpp:399-412 | over every run the active bank's valid flag stays true if and only if nobody switches directly to a bank whose flag is not set |
| `OtaManager.BlindSwitchCounterexample` | tc375_simulator/src/ota_manager.cpp:215-221 | one direct switch from the factory state activates an invalid bank |
| `OtaManager.RollbackRoundTrip` | tc375_simulator/src/ota_manager.cpp:184-209 | install, reboot, roll back, reboot restores the original bank, and both banks hold what they held |
| `OtaManager.RollbackRestoresExactlyWhen` | tc375_simulator/src/ota_manager.cpp:184-209 | a rollback that succeeds starts the bytes the other bank held at construction, whatever they were, if and only if no download was accepted since |
| `OtaManager.RollbackAfterStartIsEmpty` | tc375_simulator/src/ota_manager.cpp:70-75 | after an accepted start it succeeds into an empty bank |
| `DiagnosticRouter.Find` | zonal_gateway/tc375/src/diagnostic_router.c:155-170 | the first entry with the address, or none has it |
| `DiagnosticRouter.RoutingTable.RegisterEcu` | zonal_gateway/tc375/src/diagnostic_router.c:40-63 | a disconnected entry is appended, duplicates allowed, until the table is full |
| `DiagnosticRouter.RoutingTable.FindEcu` | zonal_gateway/tc375/src/diagnostic_router.c:155-170 | the loop finds the first entry |
| `DiagnosticRouter.RoutingTable.RouteMessageToEcu` | zonal_gateway/tc375/src/diagnostic_router.c:65-95 | succeeds if and only if there is data and the address is known; the counters say which |
| `DiagnosticRouter.RoutingTable.RouteMessageToVmg` | zonal_gateway/tc375/src/diagnostic_router.c:97-120 | marks the first entry of the sender connected and counts, unless there is no data |
| `DiagnosticRouter.RoutingTable.UpdateActivity` | zonal_gateway/tc375/src/diagnostic_router.c:172-187 | only the first entry with the address changes |
| `DiagnosticRouter.RoutingTable.BroadcastMessage` | zonal_gateway/tc375/src/diagnostic_router.c:122-153 | returns and counts the number of recipients |
| `DiagnosticRouter.RoutingTable.CheckAllTimeouts` | zonal_gateway/tc375/src/diagnostic_router.c:189-213 | exactly the timed-out slots become inactive, each counted as an error |
| `DiagnosticRouter.TableInvariant` | zonal_gateway/tc375/src/diagnostic_router.c:40-63 | in every reachable state a connected entry is the first with its address and no pending slot is active |
| `DiagnosticRouter.TableHoldsRegistrations` | zonal_gateway/tc375/src/diagnostic_router.c:40-63 | the table is the first 32 registrations in order, ids cut to 31 characters |
| `DiagnosticRouter.ConnectedExactlyWhen` | zonal_gateway/tc375/src/diagnostic_router.c:172-187 | in every run an address is connected if and only if an earlier call routed a message from it or updated its activity when it was registered |
| `DiagnosticRouter.ActivityIsLastHeard` | zonal_gateway/tc375/src/diagnostic_router.c:180-184 | and its entry carries the tick of the last such call |
| `DiagnosticRouter.BroadcastReachesExactly` | zonal_gateway/tc375/src/diagnostic_router.c:122-153 | a broadcast goes to exactly those addresses, none twice |
| `DiagnosticRouter.RecipientsDistinct` | zonal_gateway/tc375/src/diagnostic_router.c:136-148 | a broadcast goes to exactly the connected addresses, none twice |
| `DiagnosticRouter.BroadcastOnce` | zonal_gateway/tc375/src/diagnostic_router.c:122-153 | in every reachable state, duplicate registrations or not, a broadcast goes to exactly the connected addresses, none twice |
| `DiagnosticRouter.RequestsAreAccountedFor` | zonal_gateway/tc375/src/diagnostic_router.c:76-92 | routed + errors = requests + broadcast deliveries modulo 2^32, in every run |
| `DiagnosticRouter.CountersExactly` | zonal_gateway/tc375/src/diagnostic_router.c:65-153 | over every run each of the four counters is the number of calls, or deliveries, that its name says, modulo 2^32 |
| `DiagnosticRouter.OverdueExpire` | zonal_gateway/tc375/src/diagnostic_router.c:189-213 | exactly the slots more than 5000 ms of ticks old expire |
| `DiagnosticRouter.OverdueCounted` | zonal_gateway/tc375/src/diagnostic_router.c:189-213 | and each of them is counted once |
| `MqttPacket.EncodeLengthInto` | vehicle_gateway/src/pqc_mqtt.c:40-49 | the do-while loop writes the encoding and touches nothing before it |
| `MqttPacket.DecodeInvertsEncode` | vehicle_gateway/src/pqc_mqtt.c:40-49 | decoding (section 2.2.3 of MQTT 3.1.1) returns every length, whatever follows |
| `MqttPacket.PrefixFree` | vehicle_gateway/src/pqc_mqtt.c:40-49 | no encoding is a prefix of another |
| `MqttPacket.EncodingIsMinimal` | vehicle_gateway/src/pqc_mqtt.c:40-49 | nothing that decodes to the same length is shorter |
| `MqttPacket.FourBytesExactlyWhen` | vehicle_gateway/src/pqc_mqtt.c:40-49 | at most four bytes if and only if the length is at most 268435455 |
| `MqttPacket.PacketFitsExactlyWhen` | vehicle_gateway/src/pqc_mqtt.c:181-211 | the packet fits the 2048-byte buffer if and only if topic, payload and packet id have at most 2043 bytes |
| `MqttPacket.MqttClient.Publish` | vehicle_gateway/src/pqc_mqtt.c:178-214 | the packet sent, and the packet id that advances for QoS above 0 only |
| `MqttPacket.RemainingLengthIsExact` | vehicle_gateway/src/pqc_mqtt.c:189-192 | the remaining length decodes to the number of bytes that follow it |
| `MqttPacket.ReadInvertsPublishExactlyWhen` | vehicle_gateway/src/pqc_mqtt.c:185-211 | a conforming receiver reads back QoS, topic, packet id and payload if and only if the QoS is at most 2, the topic length fits 16 bits, the packet id is not 0 and the remaining length fits four bytes |
| `MqttPacket.IdIsZeroExactlyWhen` | vehicle_gateway/src/pqc_mqtt.c:201-205 | over every run the packet id is one plus the publications with an id so far, modulo 2^16, so it is 0 if and only if their number is 65535 modulo 2^16 |

## Left out

- Null pointers: every buffer, handler and string argument exists; the early returns for null are not modelled.
- TLS, sockets, lwIP, MQTT connection set-up, HSM, hardware initialisation, jumps and inline assembly.
- Flash contents during boot: images are metadata and the bytes the CRC is taken over. The gateway's commented-out flash
  write during installation is covered by images that may change from boot to boot.
- UdsHandler.Handler.ServiceEcuReset: what the platform does when asked for a reset, after which the handler starts
  anew, is not modelled.
- DoipMessages.BuildMessage: calls that the wrapped capacity check lets through with 2^32 - 8 bytes or more, and copies
  between ranges that overlap, have no defined result in C and are excluded.
- DoipMessages.BuildDiagnosticMessage: excludes the same, and lengths that do not fit the 32-bit length field.
- DoipStream.ClientHandler: takes the bytes the peer sends as one finite stream; sessions, other threads, and what
  happens after an announced length of 2^32 - 8 or more are not modelled.
- RemoteDiagnostics.Handler.HandleRequest: starts from the fields found in the request; their extraction from JSON,
  the contents of a route, the DoIP transmission (a stub in the source) and 64-bit wrap-around of the statistics are
  not modelled.
- RemoteDiagnostics.Handler.ProcessPendingRequests: visits entries in an arbitrary order, so responses are collected
  without order.
- ReconnectClient.ReconnectingClient.ProcessState: the keepalive and send failures that are commented out in the source
  do not occur; state names, host names and certificate paths are not modelled.
- OtaManager.OtaManager.VerifyImage: the answers of CRC check, signature check and metadata storage are parameters; the
  stored metadata, which nothing reads back, and the progress report are not modelled.
- MqttPacket.MqttClient.Publish: requires that the packet fits the 2048-byte buffer, which the source does not check.
- MqttPacket.ReadInvertsPublishExactlyWhen: what MQTT 3.1.1 demands of the text of a topic is not part of the receiver.
- The copies of the boot stages under tc375_bootloader, the other UDS handlers, the DoIP client, vehicle identification,
  unified messages, PQC parameters and metrics: repeats or plumbing that would add only easy members.
