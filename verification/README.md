# Verified model of the STM32F103 power-profiler firmware

The firmware samples power-monitor registers over SMBus from a timer interrupt, buffers the words in
a ring of 256 entries, and sends them to a host over USB; its settings are kept in one page of flash.
This project models that system in Dafny and proves what it keeps: over all interleavings of the
timer, the bus, the host and the main loop; over all sequences of settings writes and power failures;
and for the driver routines that do real arithmetic.

| files | part of the firmware |
|---|---|
| `Sampling`, `SamplingInvariant`, `SamplingScan`, `SamplingRuns`, `SamplingRepeats`, `SamplingControl`, `SamplingPass`, `SamplingWitness` | the sampling pipeline as a transition system, what every step keeps, what holds of runs, what one pass of the main loop does, and concrete runs that send a stale word and a repeated one |
| `SamplingFirmware` | the same pipeline as the program: handlers and main loop updating their variables in place, every execution of which is a run of the transition system |
| `IniLog`, `IniFlash` | the settings log on halfwords, and the four routines that work on the flash page |
| `Smbus` | word transactions against an arbitrary bus and a device of 256 word registers |
| `Rtc`, `Nvic`, `Adc`, `Gpio`, `Can`, `UsbResume` | the real-time counter, interrupt priorities, converter sequences, port pins, CAN mailboxes, the USB resume machine |
| `Words`, `Arith` | machine integers, optional values, facts about division |

Routines that update state are methods with loops and `modifies` clauses, each tied to a function on
values; the properties are lemmas about those functions and about whole runs.

## How the pipeline is modelled

A state holds the ring and its 8-bit indices, the register pointer, the flags shared between the main
loop and the handlers (`timer_flg`, `send_err`, `packet_sent`), the timer with its pending update
event, the IN endpoint with its packet memory, and a program counter of the main loop. A step is a
timer tick, one handler run to completion, a host action, or one piece of the main loop between two
accesses to shared variables; one iteration of the copy loop is a step. Bus results are arbitrary. A
history records the read attempts of the current run, the words copied, and the words received by the
host; no step looks at it.

The one assumption of the pipeline is that a configuration asks for at most 31 words per packet. The
clamp at `source/STM32F103/Main/main.c:315` compares with the size of the payload in bytes (62), so it
does not establish this; `SamplingWitness.ClampTooWide` says exactly when a packet fits.

That no stale word is ever transmitted is false of the code. A failed read leaves its ring slot
unwritten and stops the timer, but an update event raised while that read was still busy makes the
handler run once more, and then the slot lies inside the unread part of the ring.
`SamplingWitness.StaleWordReachable` derives from the power-on state a run in which the host receives a
word that was never read. `SamplingRuns.StaleExactly` says of every run which words are stale: word k is
fresh -- it comes from read attempt k or a later one of its ring slot -- if and only if attempt k
succeeded, and a stale word is the last one of its run.
`SamplingRuns.UndisturbedRun` adds that there is none unless an event was raised during a failing read.

A fresh word need not be a new sample. The ring has no overflow test, so a read may replace a word not
yet copied, and that sample may be sent again when its slot comes round. `SamplingRepeats.RepeatReachable`
derives a run in which every read succeeds and words 0 and 256 are the same sample;
`SamplingRepeats.RepeatsExactly` says when a word about to be copied is a repetition.

## Where the code differs from its comments

- The comment at `source/STM32F103/Main/rw_ini.c:33` speaks of the last empty slot; the code finds the
  first slot whose start marker is erased.
- The comment at `source/STM32F103/STM32F10x_StdPeriph_Driver/stm32f10x_rtc.c:148` suggests that
  reading the low half again always repairs a torn read. It does while the counter advances by at most
  0xFFFF0000 during the call, and not beyond (`Rtc.LinearizableExactly`).
- The comment at `source/STM32F103/Main/usb_pwr.c:268` says that a resume seen during remote wake-up
  keeps the wake-up going. It does once signalling has begun; before the first ESOF tick it makes the
  machine skip the state that drives RESUME (`UsbResume.ExternalDuringWakeup`).
- An injected rank one beyond the configured length makes
  `source/STM32F103/STM32F10x_StdPeriph_Driver/stm32f10x_adc.c:936` write the channel over the length
  field (`Adc.InjectedKeepsLength`).

## Model

| member | source | states |
|---|---|---|
| SamplingInvariant.StepKeeps | source/STM32F103/Main/main.c:353-473 | Every enabled step of the timer, a handler, the host or the main loop keeps the invariant: sampling masked during bus use, the one-packet handshake, ring indices congruent to attempts and copies, ring contents, counters, and copied words = received words + words in flight. |
| SamplingInvariant.RunKeeps | source/STM32F103/Main/main.c:240-508 | The invariant holds in every state of every run from power-on. |
| SamplingInvariant.ReadOkKeeps | source/STM32F103/Main/main.c:255-265 | A successful read keeps the invariant, even when it overwrites an unread slot. |
| SamplingInvariant.ReadFailedKeeps | source/STM32F103/Main/main.c:255-269 | A failed read, which advances the write index over a slot it did not write, keeps the invariant. |
| SamplingInvariant.CopyWordKeeps | source/STM32F103/Main/main.c:459-464 | One iteration of the copy loop keeps the invariant and never runs past the attempts made. |
| SamplingInvariant.CheckRingKeeps | source/STM32F103/Main/main.c:456-457 | The strictly-greater test on the 8-bit difference establishes, whatever overruns occurred, that more words than a packet holds lie ahead of the read index. |
| SamplingInvariant.MainKeeps | source/STM32F103/Main/main.c:313-473 | Every main-loop step, including initialization with a failing bus, keeps the invariant. |
| SamplingRuns.BusExclusion | source/STM32F103/Main/main.c:386-434 | In every run, while the main loop is in a bus transaction the sampling flag is clear, and a timer interrupt then only acknowledges its event. |
| SamplingControl.RunControlled | source/STM32F103/Main/main.c:386-434 | In every run: a device with a packet size samples whenever the main loop is not in a bus transaction or a configuration change, after a register command of either result included; the initialization at power-on samples nothing; without a packet size the timer is off; reports carry the error and the sample counter. |
| SamplingControl.TimerRunsExactly | source/STM32F103/Main/main.c:266-269 | In every run, from the start of sampling to the next configuration, the timer runs if and only if no read has failed. |
| SamplingControl.EveryTickSamples | source/STM32F103/Main/main.c:502-508 | In every run a timer interrupt of a configured device, outside the points where the main loop masks it, makes exactly one read attempt. |
| SamplingControl.Unconfigured | source/STM32F103/Main/main.c:330-333 | In every run a device without a packet size has its timer off, and no attempt or word is added to the run. |
| SamplingControl.PeriodDecides | source/STM32F103/Main/main.c:315-325 | In every run a new configuration takes effect unchanged if and only if its period is at least 63; otherwise its packet size becomes 0. |
| SamplingControl.AnsweredFirst | source/STM32F103/Main/main.c:440-455 | In every run an error is forgotten only after a report of it has been handed to the endpoint, and a command only after its reply. |
| SamplingControl.SilentBeforeCommand | source/STM32F103/Main/main.c:368-371 | In every run, until the host has sent something, nothing is sampled and nothing is sent. |
| SamplingPass.QueryPass | source/STM32F103/Main/main.c:376-447 | From any state of any run, an undisturbed pass with a request answered at once hands over the reply and forgets the request, and changes nothing else. |
| SamplingPass.RegisterPass | source/STM32F103/Main/main.c:411-434 | An undisturbed pass with a register command hands over the reply, forgets the command and leaves the sampling flag set. |
| SamplingPass.ErrorPass | source/STM32F103/Main/main.c:448-455 | An undisturbed pass without a command but with an error hands over a report of it with the sample counter, and clears the error. |
| SamplingPass.SamplesPass | source/STM32F103/Main/main.c:456-469 | An undisturbed pass with enough unread words hands over exactly the oldest of them, oldest first, as many as a packet has, and advances read index and counter by as many. |
| SamplingPass.IdlePass | source/STM32F103/Main/main.c:372-470 | Otherwise an undisturbed pass changes nothing. |
| SamplingRuns.NoNullRead | source/STM32F103/Main/main.c:162 | In every run the handler follows the register pointer only after the first flush has set it. |
| SamplingRuns.OnePacketInFlight | source/STM32F103/Main/hw_config.c:255-272 | In every run a pending packet implies a clear sent flag, outside the sender the two are equivalent, so no wake-up is lost, and packet memory never changes while a packet is pending. |
| SamplingRuns.HostReceivesAll | source/STM32F103/Main/main.c:456-469 | In every run the words taken from the ring are, in order, those received by the host followed by those on their way: none lost, repeated or altered. |
| SamplingRuns.SampleCounter | source/STM32F103/Main/main.c:465 | In every run, between packets, `all_rd_count` is the number of words sent since the start modulo 2^32. |
| SamplingRuns.Conservation | source/STM32F103/Main/main.c:255-257 | In every run, with any overrun, the number of read attempts is congruent modulo 256 to `all_rd_count` plus the unread count. |
| SamplingRuns.StaleExactly | source/STM32F103/Main/main.c:255-269 | In every run, word k comes from read attempt k or a later one of its slot if and only if attempt k succeeded; otherwise it comes from attempt k - 256 or, below 256, from no read of the run, and it is the last word of the run and its read the last attempt but one. |
| SamplingScan.RunScans | source/STM32F103/Main/main.c:255-269 | In every run all attempts but the last two succeeded; a failed one has stopped the timer and is followed by at most one more; attempt i read the register of its place in the scan, one behind after a failure; and each copied word has the source this implies. |
| SamplingRuns.NoStaleWord | source/STM32F103/Main/main.c:255-269 | In every run word k the host received is, if and only if attempt k succeeded, the value of that attempt or of one a whole number of ring lengths later, even after the timer lapped the main loop; if attempt k failed, the value of attempt k - 256. |
| SamplingRuns.UndisturbedRun | source/STM32F103/Main/main.c:266-269 | In every run in which no update event is raised during a failing read, a failed read is the last attempt and every word k sent comes from attempt k or a later one of its slot. |
| SamplingRepeats.RepeatsExactly | source/STM32F103/Main/main.c:255-264 | In every run, the word about to be copied is a sample sent before if and only if it is not the first of its slot and its own read failed, or the previous word of the slot had been lapped when it was copied and no read has taken the slot since. |
| SamplingRepeats.RepeatsOneRoundOn | source/STM32F103/Main/main.c:456-464 | In every run, a word is a sample sent before if and only if the word one ring length before it is that sample. |
| SamplingRepeats.RunOrdered | source/STM32F103/Main/main.c:456-464 | In every run the sources of the words of one ring slot never decrease. |
| SamplingRepeats.RepeatReachable | source/STM32F103/Main/main.c:456-464 | A run from power-on in which every read succeeds and the host receives attempt 256 as word 0 and again as word 256. |
| SamplingScan.CopiedWordFrom | source/STM32F103/Main/main.c:459-460 | What the copy loop takes from a ring slot: the sample of the word's own attempt or a later one if that attempt succeeded, and exactly the sample one ring length earlier if it failed. |
| SamplingScan.NextRegCycles | source/STM32F103/Main/main.c:261-264 | The pointer step walks the registers up to the first empty entry cyclically. |
| SamplingRuns.Alignment | source/STM32F103/Main/main.c:255-264 | In every run the register a received word was read from is known, and it is register k modulo m of the scan exactly when: the attempt before its source did not fail and m is 1, 2 or 4 or the word was lapped a multiple of three times; or that attempt failed and m is 1, or 3 with one lap more than such a multiple. |
| SamplingRuns.InOrderExactly | source/STM32F103/Main/main.c:456-464 | In every run a word is copied in order if and only if its read succeeded and no later read has taken its slot. |
| SamplingRuns.Fifo | source/STM32F103/Main/main.c:240-269 | In every run without overrun, received words and words in flight are a prefix of the samples read, with their registers in scan order; only the very last word is excepted, and only if its read failed. |
| SamplingWitness.StaleWordReachable | source/STM32F103/Main/main.c:266-269 | A run from power-on, with zeroed buffers, in which an update event is pending when a failed read stops the timer, and the host receives the word 0 although the only value read is 9. |
| SamplingWitness.ClampTooWide | source/STM32F103/Main/main.c:315-316 | After the clamp, the packet passes the sender's length check if and only if at most 31 words were asked for. |
| SamplingFirmware.Firmware.GetNewRegData | source/STM32F103/Main/main.c:255-269 | The handler's body in place: ring, write index, register pointer, timer and error become those of a successful or a failed read. |
| SamplingFirmware.Firmware.TIM2_IRQHandler | source/STM32F103/Main/main.c:502-508 | One run of the handler extends the recorded run by one step and touches nothing the main loop owns. |
| SamplingFirmware.Firmware.FlushI2CBuf | source/STM32F103/Main/main.c:240-247 | Resets both indices and the register pointer and restores the sampling flag. |
| SamplingFirmware.Firmware.InitExtDevice | source/STM32F103/Main/main.c:313-345 | Initialization, interrupted anywhere, extends the run; on success all initial registers up to the first empty one were written, and on failure the main loop is where the code goes. |
| SamplingFirmware.Firmware.CDC_Send_DATA | source/STM32F103/Main/hw_config.c:255-272 | Clearing the flag, filling packet memory and marking the endpoint valid, interrupted anywhere, extend the run; every packet the main loop builds is accepted. |
| SamplingFirmware.Firmware.EP1_IN_Callback | source/STM32F103/Main/usb_endp.c:59-62 | The host taking the pending packet extends the run by one step. |
| SamplingFirmware.Firmware.EP3_OUT_Callback | source/STM32F103/Main/usb_endp.c:71-76 | A command arriving at any moment extends the run by one step. |
| SamplingFirmware.Firmware.CopyPacket | source/STM32F103/Main/main.c:458-466 | The copy loop, with interrupts before each iteration, extends the run and hands over the packet. |
| SamplingFirmware.Firmware.MainPass | source/STM32F103/Main/main.c:372-470 | One pass of the endless loop, in every branch, extends the run and returns to the top of the loop. |
| SamplingFirmware.Firmware.Run | source/STM32F103/Main/main.c:353-473 | From reset and for any number of passes, the whole execution is a run of the transition system that begins in the initial and ends in the present state of the variables, so everything proved of runs holds of the program. |
| SamplingFirmware.RunDetermined | source/STM32F103/Main/main.c:353-473 | First state and actions determine a run, so a run that keeps both and adds actions is an extension. |
| IniLog.FirstClearOfLog | source/STM32F103/Main/rw_ini.c:36-48 | On every page a log can leave, the writer's search finds the slot after the last used one, torn or committed. |
| IniLog.FirstClearIs | source/STM32F103/Main/rw_ini.c:36-48 | On any page, no slot the search passes has an erased start marker, and the one it finds has. |
| IniLog.ReadOfLog | source/STM32F103/Main/rw_ini.c:13-30 | A read returns exactly the payload of the last committed record, skipping torn ones; payload values do not matter. |
| IniLog.AfterIs | source/STM32F103/Main/rw_ini.c:52-77 | What any prefix of the operations of a write leaves on any page, in closed form, halfwords that are not erased included. |
| IniLog.WriteKeepsLog | source/STM32F103/Main/rw_ini.c:52-77 | After any prefix of a write the page holds the log extended by a torn or committed record, or restarted by the erase. |
| IniLog.WriteProgramsErased | source/STM32F103/Main/rw_ini.c:65-76 | Every halfword a write programs is inside the page and still erased, with torn slots and marker values in payloads. |
| IniLog.RunProgramsErased | source/STM32F103/Main/rw_ini.c:52-77 | The same for the next operation of the last write of any run of completed and interrupted writes. |
| IniLog.RunRefinesStore | source/STM32F103/Main/rw_ini.c:13-93 | After any sequence of completed and interrupted writes from an erased page, a read agrees with a store of one cell. |
| IniLog.CrashSafe | source/STM32F103/Main/rw_ini.c:52-77 | Power may fail after any operation of the next write of any run: a read returns the new block if the write completed, nothing if it had begun with an erase (only when every slot was used), and otherwise what it returned before. |
| IniLog.WearBalance | source/STM32F103/Main/rw_ini.c:60-65 | Start markers programmed = erases times slots per page + slots used now. |
| IniLog.WearExact | source/STM32F103/Main/rw_ini.h:14-18 | Just after the a-th start marker of any run, exactly (a - 1) / N erases have occurred, N being 512 / (payload halfwords + 2). |
| IniLog.SlotsIsQuotient | source/STM32F103/Main/rw_ini.c:41-46 | The number of slots the search loops visit is the page size divided by the slot length. |
| IniFlash.UnpackPack | source/STM32F103/Main/rw_ini.c:68-75 | Bytes packed into halfwords by the write loop and copied out by the read loop are the same bytes, for even and odd sizes. |
| IniFlash.BlockRunRefinesStore | source/STM32F103/Main/rw_ini.c:13-93 | The one-cell refinement in bytes, for every block size that fits. |
| IniFlash.FlashPage.GetLastAdrIniBlk | source/STM32F103/Main/rw_ini.c:13-30 | On any page, the address returned is that of the last slot with an end marker such that it and all slots before it have start markers, or 0 if there is none. |
| IniFlash.FlashPage.GetLastAdrClrBlk | source/STM32F103/Main/rw_ini.c:36-48 | On any page, the address returned is that of the first slot with an erased start marker, or 0 if there is none. |
| IniFlash.FlashPage.WriteIniBlk | source/STM32F103/Main/rw_ini.c:52-77 | On any page and with power for p more flash operations, exactly the first min(p, all) planned operations take place; a page that a run of writes can leave becomes such a page again; a completed write to such a page, or to a page without erased slot markers, is what a read then returns. |
| IniFlash.ForeignCommits | source/STM32F103/Main/rw_ini.c:58-76 | A page without erased slot markers, whatever else it holds, is erased, and the block written to it can be read. |
| IniFlash.FlashPage.ProgramBlock | source/STM32F103/Main/rw_ini.c:58-76 | On any page, search, erase, markers and payload loop issue exactly the planned flash operations in order. |
| IniFlash.FlashPage.WriteSeries | source/STM32F103/Main/rw_ini.c:52-93 | Any sequence of completed and interrupted calls on an erased page leaves the page of the run of those writes, from which a read returns the block of the one-block store. |
| IniFlash.FlashPage.ReadIniBlk | source/STM32F103/Main/rw_ini.c:81-93 | Returns 1 and copies out exactly the block the page holds, or returns 0 and leaves the destination alone. |
| IniFlash.WriteCommits | source/STM32F103/Main/rw_ini.c:52-93 | A completed write followed by a read gives the bytes written. |
| Smbus.Bus.Wait | source/STM32F103/Main/smbus.c:74-76 | The countdown succeeds if and only if one of its first 5000 polls meets the condition, and polls at most 5001 times. |
| Smbus.Bus.SMBusWriteWord | source/STM32F103/Main/smbus.c:70-103 | For every bus, the commands given and what appears on the wire are prefixes, of equal length, of the Write Word transaction; result 1 if and only if it is whole, if and only if a stop was commanded, once, and if and only if it appeared on the wire; the device register becomes the word then and only then; the polls are bounded; result 0 only if a condition was not met by 5000 polls in a row, so on a bus that meets every one in time the result is 1. |
| Smbus.Bus.AddressForRead | source/STM32F103/Main/smbus.c:120-154 | The first half of a read: a prefix of the frame, given up only after a wait in vain, and after it the addressed device delivers the selected register. |
| Smbus.Bus.SMBusReadWord | source/STM32F103/Main/smbus.c:113-178 | For every bus, the commands given and what appears on the wire are prefixes of the Read Word transaction; result 1 if and only if it is whole, and if and only if a stop appeared on the wire; exactly one stop is commanded if the first byte came, also when the second then times out, and none otherwise; a failed read leaves the destination alone; a successful one stores the register's word, high byte first; result 0 only if a condition was not met by 5000 polls in a row; acknowledging stays enabled on every exit. |
| Smbus.Bus.WriteThenRead | source/STM32F103/Main/smbus.c:88-174 | A word written to a register and read back is the same word, for all words and registers, and no other register changes. |
| Smbus.StopsCommanded | source/STM32F103/Main/smbus.c:98-163 | How many stops have been commanded when n items of either frame are on the wire: one in a complete write, one in a read from its first byte on, before the last wait. |
| Rtc.RealTimeClock.GetCounter | source/STM32F103/STM32F10x_StdPeriph_Driver/stm32f10x_rtc.c:139-157 | The result is a value the counter showed during the call, across 16-bit carry and 32-bit wrap, while it advances by at most 0xFFFF0000. |
| Rtc.ReadConsistent | source/STM32F103/STM32F10x_StdPeriph_Driver/stm32f10x_rtc.c:143-156 | Within 65536 counts the result is what the counter showed at the second read or, after a change of the high half, at the last. |
| Rtc.ReadLinearizable | source/STM32F103/STM32F10x_StdPeriph_Driver/stm32f10x_rtc.c:143-156 | Up to 0xFFFF0000 counts the result was shown at some moment of the call. |
| Rtc.LinearizableExactly | source/STM32F103/STM32F10x_StdPeriph_Driver/stm32f10x_rtc.c:147-156 | All reads within a bound on the advance are linearizable if and only if the bound is at most 0xFFFF0000. |
| Nvic.EncodersAgree | source/STM32F103/STM32F10x_StdPeriph_Driver/misc.c:127-138 | The driver stores the same priority byte as the core functions, for every grouping it configures and all values, in range or not. |
| Nvic.DecodeEncode | source/STM32F103/Core/core_cm3.h:1432-1471 | Decoding undoes encoding up to the widths of the two fields, for every group. |
| Nvic.EncodeDecode | source/STM32F103/Core/core_cm3.h:1432-1471 | Encoding undoes decoding on every four-bit code. |
| Nvic.FieldsFill | source/STM32F103/Core/core_cm3.h:1438-1439 | The two field widths always sum to four. |
| Nvic.GroupWidths | source/STM32F103/STM32F10x_StdPeriph_Driver/misc.c:88-101 | Priority group k has k bits of preemption priority and 4 - k of subpriority. |
| Nvic.PriorityBack | source/STM32F103/Core/core_cm3.h:1390-1417 | A four-bit priority is kept in the upper half of its byte and read back from there. |
| Nvic.Controller.SetThenGet | source/STM32F103/Core/core_cm3.h:1390-1417 | A priority set and read back is the same, for every device interrupt and every core exception with a configurable one. |
| Nvic.CodesOrderedLexicographically | source/STM32F103/Core/core_cm3.h:1441-1444 | Codes of in-range values compare like (preemption, sub) pairs. |
| Nvic.Controller.NVIC_Init | source/STM32F103/STM32F10x_StdPeriph_Driver/misc.c:118-150 | Enabling a channel gives it the core functions' priority byte and enables exactly that channel; disabling removes exactly that channel and changes no priority. |
| Nvic.Controller.NVIC_SetPriority | source/STM32F103/Core/core_cm3.h:1390-1396 | Sets the byte of one device interrupt or, for a negative number, of one core exception, and no other. |
| Nvic.Controller.NVIC_PriorityGroupConfig | source/STM32F103/STM32F10x_StdPeriph_Driver/misc.c:102-109 | The register is written with the key in its upper half and nothing but the grouping in its lower half. |
| Adc.RegularIsMap | source/STM32F103/STM32F10x_StdPeriph_Driver/stm32f10x_adc.c:596-683 | After any sequence of calls every regular rank, every channel's sample time and the sequence length have the value last set for them. |
| Adc.InjectedSlotsAreMap | source/STM32F103/STM32F10x_StdPeriph_Driver/stm32f10x_adc.c:936-1016 | After any sequence of calls, changes of the injected length included, with ranks within the length of the moment, the length and each of the four slots have the values last set for them. |
| Adc.InjectedIsMap | source/STM32F103/STM32F10x_StdPeriph_Driver/stm32f10x_adc.c:936-990 | Between two changes of the length every injected rank up to it has the channel last set for it. |
| Adc.InjectedKeepsLength | source/STM32F103/STM32F10x_StdPeriph_Driver/stm32f10x_adc.c:970-989 | An injected call keeps the length if and only if its rank is not the one just beyond the length or the channel agrees with the field it overwrites. |
| Adc.DoRank | source/STM32F103/STM32F10x_StdPeriph_Driver/stm32f10x_adc.c:631-682 | One call changes the channel of its own rank and of no other, across three registers. |
| Adc.DoSampleTime | source/STM32F103/STM32F10x_StdPeriph_Driver/stm32f10x_adc.c:604-630 | One call changes the sample time of its own channel and of no other, across two registers. |
| Adc.DoLength | source/STM32F103/STM32F10x_StdPeriph_Driver/stm32f10x_adc.c:263-273 | Only setting the length changes it, although ranks 13 to 16 share its register. |
| Adc.DoInjected | source/STM32F103/STM32F10x_StdPeriph_Driver/stm32f10x_adc.c:936-1016 | One call changes the injected slot it computes from the length field and no other. |
| Adc.Driver.ADC_RegularChannelConfig | source/STM32F103/STM32F10x_StdPeriph_Driver/stm32f10x_adc.c:596-683 | The clear-then-set steps in place have the effect on all six registers the lemmas speak of. |
| Adc.Driver.ADC_InjectedChannelConfig | source/STM32F103/STM32F10x_StdPeriph_Driver/stm32f10x_adc.c:936-990 | Likewise for an injected channel. |
| Adc.Driver.ADC_InjectedSequencerLengthConfig | source/STM32F103/STM32F10x_StdPeriph_Driver/stm32f10x_adc.c:999-1016 | Likewise for the injected length. |
| Adc.Driver.InitLength | source/STM32F103/STM32F10x_StdPeriph_Driver/stm32f10x_adc.c:263-273 | Likewise for the regular length set by ADC_Init. |
| Gpio.PinsAreMap | source/STM32F103/STM32F10x_StdPeriph_Driver/stm32f10x_gpio.c:179-264 | After any sequence of calls each of the 16 pins has the speed (none for an input), configuration bits and pull direction last asked for it. |
| Gpio.DoMode | source/STM32F103/STM32F10x_StdPeriph_Driver/stm32f10x_gpio.c:188-264 | One call gives exactly the pins it selects the speed asked for, if the mode is an output, and the configuration bits of the mode. |
| Gpio.DoPull | source/STM32F103/STM32F10x_StdPeriph_Driver/stm32f10x_gpio.c:215-228 | One call sets or clears the output bit of exactly the pins it selects, and only in the two pull modes. |
| Gpio.ModesAre | source/STM32F103/STM32F10x_StdPeriph_Driver/stm32f10x_gpio.c:202-229 | After any number of iterations of the pin loop each nibble is the new mode if its pin was passed and selected, and otherwise the old one. |
| Gpio.Driver.ConfigurePins | source/STM32F103/STM32F10x_StdPeriph_Driver/stm32f10x_gpio.c:202-229 | The loop over eight pins computes the register and the output bits the lemmas speak of. |
| Gpio.Driver.GPIO_Init | source/STM32F103/STM32F10x_StdPeriph_Driver/stm32f10x_gpio.c:179-264 | After the routine every selected pin has the speed and configuration asked for; the whole effect, skipped halves included, is the one the lemmas speak of. |
| Can.Loopback | source/STM32F103/STM32F10x_StdPeriph_Driver/stm32f10x_can.c:521-718 | A message unpacked from a copy of the mailbox it was packed into has the same identifier, kind, remote flag, length and eight bytes, whatever mailbox and receiver held before. |
| Can.WordBytes | source/STM32F103/STM32F10x_StdPeriph_Driver/stm32f10x_can.c:571-579 | The bytes packed into a data word are those unpacked from it. |
| Can.IdentifierOnTop | source/STM32F103/STM32F10x_StdPeriph_Driver/stm32f10x_can.c:551-564 | A standard identifier is the top 11 bits of the register written, an extended one the top 29. |
| Can.Requested | source/STM32F103/STM32F10x_StdPeriph_Driver/stm32f10x_can.c:581 | The mailbox written has its transmission requested. |
| Can.UpperKept | source/STM32F103/STM32F10x_StdPeriph_Driver/stm32f10x_can.c:567-569 | The time stamp part of the length register is kept. |
| Can.OthersBack | source/STM32F103/STM32F10x_StdPeriph_Driver/stm32f10x_can.c:683-697 | Reception takes the filter index and the length from their fields whatever the time stamp is, and leaves the identifier of the other kind alone. |
| Can.Controller.CAN_Transmit | source/STM32F103/STM32F10x_StdPeriph_Driver/stm32f10x_can.c:521-584 | Uses the first empty mailbox, whose transmission is then requested, answers that there is none if and only if all are full, and leaves the other mailboxes alone. |
| Can.Controller.CAN_Receive | source/STM32F103/STM32F10x_StdPeriph_Driver/stm32f10x_can.c:677-718 | Returns the unpacked FIFO mailbox and releases that FIFO and not the other. |
| Can.Controller.LoopbackTransfer | source/STM32F103/STM32F10x_StdPeriph_Driver/stm32f10x_can.c:521-718 | Transmission, a copy into either FIFO and reception give the same frame. |
| UsbResume.AlwaysSettles | source/STM32F103/Main/usb_pwr.c:254-311 | From every state and counter value, ESOF ticks alone switch the machine off after exactly the computed number of ticks, at most 267, and it stays off. |
| UsbResume.TicksLeft | source/STM32F103/Main/usb_pwr.c:254-311 | Every tick brings the machine exactly one tick closer to off. |
| UsbResume.OnFor | source/STM32F103/Main/usb_pwr.c:294-304 | While counting, RESUME keeps its value until the last tick, which clears it. |
| UsbResume.InternalSignals | source/STM32F103/Main/usb_pwr.c:273-304 | A remote wake-up drives RESUME from the first tick for exactly ten ticks. |
| UsbResume.LaterSignals | source/STM32F103/Main/usb_pwr.c:278-304 | A postponed resume drives RESUME from the third tick for exactly ten ticks and leaves the bit alone before. |
| UsbResume.ExternalDuringWakeup | source/STM32F103/Main/usb_pwr.c:262-272 | A resume seen during wake-up neither shortens nor prolongs signalling that has begun; seen before the first tick it suppresses it. |
| UsbResume.WakeupEnds | source/STM32F103/Main/usb_pwr.c:294-304 | The mark of a remote wake-up is kept for exactly the ticks its signalling takes. |
| UsbResume.ExternalRestores | source/STM32F103/Main/usb_pwr.c:262-267 | A resume seen on the bus at any other time switches the machine off, stops signalling and leaves low power at once and for good. |
| UsbResume.ResumeMachine.HandleResume | source/STM32F103/Main/usb_pwr.c:254-311 | The switch in place, on the control register's bits, computes the next state the lemmas speak of, with an 8-bit counter that wraps; never disables the interrupts that drive it; and on a resume seen on the bus enables them and clears RESUME and the suspend bits. |
| UsbResume.ResumeMachine.RemoteWakeup | source/STM32F103/Main/usb_pwr.c:214-311 | After a remote wake-up request and n ESOF interrupts, whatever the control register held, its RESUME bit is set exactly for n from 1 to 10, its suspend bits are clear and its interrupts enabled. |

## Left out

- Packets wider than the buffer: requests for 32 to 62 words pass the clamp and overrun the packet buffer; runs are restricted to requests of at most 31 words.
- Reply contents and requests that overlap: commands are abstracted to those answered at once, a new configuration and one register transaction; a command that arrives during another may replace it, but not change the one being served.
- `not_send_count`: reported by the code but never incremented.
- `CDC_Receive_DATA`: arming of the OUT endpoint is not modelled; a command may arrive at any moment.
- Enumeration: the device is taken to be configured throughout.
- Bus results in the pipeline are arbitrary and not tied to the model of the SMBus routines.
- SamplingFirmware.Firmware.FlushI2CBuf: taken as one step, because it runs only while the sampling flag is clear and the handler then does not touch what it writes.
- The register pointer step reads one entry past the array before its bounds test; both outcomes lead to register 0, so the model tests the bound first.
- Configuration fields without effect on the pipeline (`clk_khz`, `multiplier`, data of the initial registers) and the bus clock.
- Block sizes whose padded length plus markers exceeds the page, and the 16-bit truncation of such lengths; several block sizes in one page.
- Flash operations are atomic; partially programmed halfwords and worn cells are not modelled. A halfword that is not erased keeps its value when programmed, except with zero, as PM0075, the flash programming manual of the STM32F10xxx, has it; the error flag this raises is not modelled (the code ignores it).
- Smbus.Bus.SMBusReadWord: when a read times out in its last wait, the stop it has commanded may still appear on the wire later; clock stretching, arbitration loss and a bus left busy by a transaction that timed out appear only as polls that fail.
- Bodies of the peripheral library (`I2C_CheckEvent`, `FLASH_ProgramHalfWord`, `SetEPTxValid`) are represented by their effects; `SMBusInit` and `SMBusSendPOR` are straight-line set-up.
- Nvic.Controller.NVIC_Init: groupings 0 to 2 are excluded; the driver then shifts by an out-of-range amount, and its configuration routine does not offer them.
- Nvic.Controller.NVIC_SetPriority: exceptions -16 to -13, whose priorities are fixed and for which the code would index before the array.
- `ADC_Init`: only the sequence length; the mode bits of the control registers are plain assignments.
- Can.Loopback: acceptance filters, the filter match index, time stamps and bus arbitration.
- `Suspend`, the forced USB reset and power-down: they wait without bound on hardware outside the model.
- Real time in microseconds, the analogue meaning of samples, raw register set-up, USB descriptors and the one-line driver routines.
- The ports of the profiler to other microcontrollers and the host programs.
