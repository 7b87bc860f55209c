# Verified models of the HC32F460 board software

This project models the parts of the board support package that hold real state machines, searches and
data movement, and proves properties of them. Hardware, operating system and modem are replaced by plain
state, and whatever they decide is a parameter: the outcome of every store write, every DMA byte and
interrupt, every modem reply.

| file | component |
|---|---|
| `ParamItems.dfy`, `ParamRuns.dfy`, `ParamManager.dfy` | persistent parameters: value forms, runs with refused writes and power loss, the API itself |
| `CanTiming.dfy` | CAN bit-timing search, with its 32-bit wrap-around |
| `CanFilter.dfy` | CAN acceptance-filter allocation and programming |
| `UartRx.dfy` | UART receive by linked DMA transfers and two interrupt handlers |
| `EthRing.dfy` | Ethernet gather and scatter over descriptor rings |
| `QspiWindow.dfy` | flash read through a 64 MiB window, by bytes and by DMA |
| `PwmTimer.dfy` | PWM divider, period and compare registers |
| `AtFields.dfy`, `AtSockets.dfy` | modem response fields, socket events, connection ids |
| `HexFrame.dfy` | RS485 hexadecimal frames |
| `Ring.dfy`, `DecimalText.dfy`, `Basics.dfy` | circular memory; decimal text as printf and strtol see it; shared definitions |

`dafny verify dfyconfig.toml` checks everything.

## Results

* **Parameters.** What every call does is stated on RAM and store alone: a set shows the caller's value in
  both places (`SetStores`, `SetBlobStores`, `ResetStores`, `GroupResetStores`), and a start or a reset of
  everything returns 0 exactly if every item can be read or has its default written (`StartReturns`,
  `ResetAllReturns`). From any store contents and over every run of API calls, with refused writes and power
  loss before or after any write: in every initialised state RAM is the typed view of the store for every
  item, as long as no reset of everything returned an error (`FullAgreement`). After one that did, the
  exceptions are exactly the items whose restored bytes could not be read and whose default was refused,
  until they are written again (`Agreement`). A set, set blob or reset that returned 0 survives every
  run of calls that bring in no other value, power loss and a successful start (`SetSurvives`,
  `Durability`). Two promises turn out narrower than they read. A
  string comes back as it was set exactly if it is not empty, its first 128 bytes are printable, and it is
  at most 128 bytes long or the buffer shows no more than that; an empty or unprintable string comes back
  as the default (`RestoredExactly`; `EmptyStringForgotten` and `LongStringCut` are examples). Resetting
  everything gives an int its default exactly when the default's four raw bytes do not themselves read as
  a number (`ResetAllInt`; `ResetAllMisread` is an example), and so does the first start of a blank device,
  which writes the same raw table (`FirstStartInt`).
* **CAN timing.** The search terminates for every clock and baud rate, its result respects every limit,
  and it is the smallest prescaler that was not passed over. It succeeds exactly when d, the largest
  divisor of the bit time up to 73, 86 or 22 quanta depending on the table, leaves a prescaler up to 256
  and is none of 1, 2, 3, 6, 7, 11, nor above 40 in the CAN 2.0 table (`SucceedsExactly`). So it finds a
  timing whenever an allowed one exists in the arbitration table (`ArbitrationComplete`) and misses some
  in the other two (`Can20Incomplete`, `DataIncomplete`).
* **CAN filters.** Every automatic item gets its own bank. The hardware layer then programs item i into
  the i-th selected bank from below, so every filter sits in its own bank exactly when the banks the
  caller passes are in order (`OwnBankExactly`).
* **UART.** A counting law with its exact error over every interleaving (`Conservation`): the count is
  off by one transfer length for each completion merged into a pending one and for each timeout that
  overtakes one, and exact otherwise; both happen (`MergingRun`, `OvertakenRun`). The count is right after
  every event exactly in the runs without either (`PromptExactly`). The buffer is a circular buffer, and
  unreported bytes are in it.
* **Ethernet.** Gather then scatter is the identity for frames that fit the ring, and exactly for those
  (`FitsExactly`); buffers the DMA owns are never written.
* **QSPI.** The windowed read is the flat read exactly when the window check does not wrap around
  (`FlatExactly`), and stays in the flash exactly when the unwrapped end does (`BlocksExactly`).
* **PWM.** Every command does what it says, in terms of what is read back from the registers
  (`CommandDoes`). The register invariant holds over every run of commands for the channels of the device's mask
  (`PwmTimer.RunKeeps`), and after the first period that could be served their forced levels are right
  (`ForcedExactly`). The driver accepts commands for any channel, and for one outside the mask both fail at
  every clock frequency (`UnmaskedRun`, `StaleForceRun`): an enabled channel keeps its compare value within
  the period over every run, and its forced level right, exactly if it is in the mask (`WithinExactly`,
  `ForcedRightExactly`).
* **Modem.** The splitter refines tokenising; the event parser inverts the event format; an event reaches
  the socket of its connection exactly when that is connected; if the program has closed it, the next
  socket gets the data if that one is open and unconnected (`EventReaches`).

## Modelling decisions

* Bytes in text and in the parameter store are characters. `int` and `long` are 32 bits.
* The parameter store's contract: a write takes effect or is refused without effect; a write during which
  power is lost took effect or did not. Reading follows FlashDB's own string and blob reads. RAM buffers
  are disjoint from each other, from the defaults and from the values passed in. The table entry at
  project/applications/params.c:27 does not meet this: its default is its own RAM variable.
* Power loss clears RAM. `last` and `synced` in `ParamRuns.State`, `lost` and `doubled` in
  `UartRx.Trace` and `settled` in `PwmTimer.Timer` are histories; the code has no such variables.
* The DMA channel loads the linked descriptor as soon as a transfer completes, and its completion flag is
  one bit. `UartRx.Timeout` takes the timeout handler as one step; the handler reads the channel's counts
  before it disables interrupts. `BytesBetween` shows that bytes that come in between change nothing, and
  `CompletionBetween` that a completion served in between does.
* Opening the parameter store may format it, when FlashDB finds no valid sector; what the store holds then
  is a parameter of `Init`.
* Where a comment in the source promises more than its code does, the code is modelled. The comment on
  `flash_param_reset_all` promises the defaults; see `ResetAllInt`.

## Model

| member | source | states |
|---|---|---|
| ParamRuns.Durability | project/applications/flash_param.c:158-311 | over every run from any store, then power loss and a successful start: each stored value shows again exactly as set iff it is complete, and an unreadable one shows its default |
| ParamRuns.SetSurvives | project/applications/flash_param.c:158-524 | in every run from any store: a set, set blob or reset that returned 0, with no call behind it that brings in another value, then power loss and a successful start: the value is back iff it is complete; an unreadable one gives the default or what the stored default reads as |
| ParamRuns.SetStores | project/applications/flash_param.c:342-389 | returns 0 iff initialised and the write is done; then an int parses back from the store and is the int in RAM, a string is stored as it is and shows as far as the buffer goes, a blob is cut to buffer and default with zeros behind; nothing else changes |
| ParamRuns.SetBlobStores | project/applications/flash_param.c:404-430 | the same for a blob of any length from one byte to the buffer, and for those only |
| ParamRuns.ResetStores | project/applications/flash_param.c:511-524 | the same for the default |
| ParamRuns.GroupResetStores | project/applications/flash_param.c:532-549 | each member whose write is done shows its default, every other item is unchanged; 0 iff the writes of all members are done |
| ParamRuns.UnknownKey | project/applications/flash_param.c:349-352 | an unknown key returns -1 and changes nothing |
| ParamRuns.StartReturns | project/applications/flash_param.c:261-310 | a start returns 0 and comes up iff memory and store are there and every item can be read or has its default written |
| ParamRuns.ResetAllReturns | project/applications/flash_param.c:561-578 | a reset of everything returns 0 under the same condition on the restored table |
| ParamRuns.ReadableStarts | project/applications/flash_param.c:300-310 | a store with a readable value for every item starts, whatever happens to writes |
| ParamRuns.StopsKeepStore | project/applications/flash_param.c:318-329 | deinit and power loss leave the store |
| ParamRuns.Agreement | project/applications/flash_param.c:342-578 | in every reachable initialised state, RAM is the typed view of the store for every item but those a reset of everything failed to restore and nobody wrote since; those the store cannot give back |
| ParamRuns.FullAgreement | project/applications/flash_param.c:342-578 | over every run in which no reset of everything returned an error, every item agrees in every initialised state |
| ParamRuns.ResetAllInt | project/applications/flash_param.c:561-578 | resetting everything with result 0 gives an int its default iff the default's raw bytes do not read as a number |
| ParamRuns.FirstStartInt | project/packages/FlashDB-v2.1.0/src/fdb_kvdb.c:1643-1647 | the same for a start that formatted a blank store |
| ParamRuns.FirstStartLeaves | project/packages/FlashDB-v2.1.0/src/fdb_kvdb.c:1643-1647 | a start that formatted the store leaves each item at what the table reads as, or at its default |
| ParamRuns.ResetAllMisread | project/applications/flash_param.c:561-578 | resetting everything turns the default 0x35202020 into 5 |
| ParamRuns.ResetAllLeaves | project/applications/flash_param.c:561-578 | resetting everything with result 0 leaves each item at what the restored table reads as, or at its default |
| ParamRuns.EmptyStringForgotten | project/packages/FlashDB-v2.1.0/src/fdb_kvdb.c:732-753 | setting the empty string succeeds, and after power loss and a start the default is back |
| ParamRuns.RunKeeps | project/applications/flash_param.c:222-578 | every run keeps the store at the encoding of each last value and RAM in step with it |
| ParamRuns.StepKeeps | project/applications/flash_param.c:222-578 | every call keeps that invariant, whatever writes are refused and wherever power is lost |
| ParamRuns.CallAtomic | project/applications/flash_param.c:342-524 | set, set blob and reset: -1 changes neither side, 0 changes exactly the item on both sides, interruption leaves the old or the new value |
| ParamRuns.SuccessSyncsAll | project/applications/flash_param.c:300-311 | a start or a reset of everything that returns 0 leaves every item in agreement |
| ParamRuns.GroupExact | project/applications/flash_param.c:532-549 | after a group reset each member is fully default or fully unchanged in both places, every other item unchanged |
| ParamRuns.GroupReturns | project/applications/flash_param.c:532-549 | the group reset returns 0 exactly when every member's write was done |
| ParamRuns.GroupInterrupted | project/applications/flash_param.c:541-545 | cut short by power loss, every key has its old value or the default of a group member |
| ParamRuns.SyncFromEffect | project/applications/flash_param.c:300-307 | synchronising treats each item by itself: it ends at what is read from its own key, else at its default in both places, else unchanged if that write is refused |
| ParamRuns.SyncFromReturns | project/applications/flash_param.c:572-574 | synchronising returns 0 iff every item can be read or has its default written |
| ParamRuns.PutKeeps | project/applications/flash_param.c:356-385 | writing one item through keeps the invariant of every item, by distinct keys |
| ParamRuns.SyncKeeps | project/applications/flash_param.c:158-194 | synchronising one item keeps the invariant of every item |
| ParamRuns.Find | project/applications/flash_param.c:28-37 | the item with the key, or that no item has it |
| ParamItems.RestoredExactly | project/applications/flash_param.c:87-144 | from cleared RAM a readable value is restored iff it is complete; otherwise the default is |
| ParamItems.WrittenShows | project/applications/flash_param.c:356-385 | stored and RAM form each stand for the value by themselves |
| ParamItems.LoadExactly | project/applications/flash_param.c:87-144 | exactly which stored bytes can be read for each type, and what that leaves in RAM |
| ParamItems.PrintedIsRead | project/applications/flash_param.c:41-62 | the decimal text of every 32-bit int is printable, short enough, and parses to that int |
| ParamItems.WrittenAgrees | project/applications/flash_param.c:356-385 | RAM and stored form of a value agree |
| ParamItems.LoadAgrees | project/applications/flash_param.c:94-144 | what is read agrees with the stored bytes |
| ParamItems.PaddedRead | project/applications/flash_param.c:120-127 | the string in RAM is terminated and is the value cut to the buffer |
| ParamItems.IntRead | project/applications/flash_param.c:359-359 | the four RAM bytes of an int stand for that int |
| ParamItems.CutString | project/packages/FlashDB-v2.1.0/src/fdb_kvdb.c:732-753 | a string survives the 128-byte string read iff it is that short or the buffer is |
| ParamItems.LongStringCut | project/packages/FlashDB-v2.1.0/src/fdb_kvdb.c:732-753 | 129 bytes in a buffer of 200 come back cut to 128 |
| ParamItems.RawIntDefault | project/applications/flash_param.c:269-273 | reading an int from its registered default yields the default iff its raw bytes do not read as a number |
| ParamItems.RawIntMisread | project/applications/flash_param.c:269-273 | the registered default 0x35202020 reads as 5 |
| ParamManager.CheckItems | project/applications/flash_param.c:230-259 | accepts exactly the tables with sufficient buffers and distinct keys |
| ParamManager.Manager.FindItem | project/applications/flash_param.c:28-37 | the search loop returns the item with the key |
| ParamManager.Manager.WriteThrough | project/applications/flash_param.c:476-503 | store first, RAM after success, by type: exactly one write-through step |
| ParamManager.Manager.Set | project/applications/flash_param.c:342-389 | is the set step, with blobs trimmed to the smaller of buffer and default size |
| ParamManager.Manager.SetBlob | project/applications/flash_param.c:404-430 | is the set-blob step, with the rest of the buffer cleared |
| ParamManager.Manager.Get | project/applications/flash_param.c:443-465 | copies the RAM buffer out iff it fits, and reports the needed size otherwise |
| ParamManager.Manager.Reset | project/applications/flash_param.c:511-524 | is the reset step |
| ParamManager.Manager.GroupReset | project/applications/flash_param.c:532-549 | is the group-reset step |
| ParamManager.Manager.SyncOne | project/applications/flash_param.c:158-194 | is the synchronising step of one item |
| ParamManager.Manager.SyncAll | project/applications/flash_param.c:300-307 | synchronises all items in order, with or without giving up |
| ParamManager.Manager.Init | project/applications/flash_param.c:222-311 | a bad table changes nothing and returns -1; on a good one it is the start step, with failing allocation, failing store and a store formatted on opening |
| ParamManager.Manager.ResetAll | project/applications/flash_param.c:561-578 | is the reset-all step for any result of restoring the default table |
| ParamManager.Manager.Deinit | project/applications/flash_param.c:318-329 | is the deinit step |
| DecimalText.ParsePrinted | project/applications/flash_param.c:41-62 | strtol with its checks inverts "%d" on every 32-bit int and refuses every other number |
| DecimalText.ParseTrailing | project/applications/flash_param.c:51-62 | anything behind the number is refused |
| DecimalText.ParseSpaced | project/applications/flash_param.c:51-62 | white space and a plus sign in front are passed over |
| DecimalText.Decimal | project/applications/flash_param.c:41-49 | the printed notation is decimal with a minus sign |
| DecimalText.ScanPrinted | project/applications/flash_param.c:51-62 | a printed number is read back from any context up to the first non-digit |
| CanTiming.ClosestPrescaler | project/libraries/hc32_drivers/drv_can.c:460-491 | terminates with the least divisor from the start on that gives at most max quanta |
| CanTiming.LimitSeg2 | project/libraries/hc32_drivers/drv_can.c:545-551 | the second segment at its limit; with one quantum a first segment of 1 or close to 2^32 |
| CanTiming.Split | project/libraries/hc32_drivers/drv_can.c:545-563 | the reference split, and late exactly if the reference split is, including one quantum |
| CanTiming.SearchPrescaler | project/libraries/hc32_drivers/drv_can.c:534-573 | terminates; finds the chosen prescaler, or there is none |
| CanTiming.FindRow | project/libraries/hc32_drivers/drv_can.c:506-514 | the row of the lowest set bit of the three phases, row 0 if none is set |
| CanTiming.CalcBitTiming | project/libraries/hc32_drivers/drv_can.c:493-588 | preset rows first; errors on zero or too high baud; otherwise an allowed timing at the chosen prescaler, or none is chosen; options 1, 2 and 4 get the limits of their phase with the largest jump width, and option 2 a timing whenever there is one |
| CanTiming.ChosenIsAllowed | project/libraries/hc32_drivers/drv_can.c:565-582 | prescaler, product, sample point, both segments and jump width within limits; first segment longer |
| CanTiming.ChosenUnique | project/libraries/hc32_drivers/drv_can.c:532-573 | at most one prescaler is chosen |
| CanTiming.SplitIsEarliest | project/libraries/hc32_drivers/drv_can.c:545-558 | the split is the earliest sample point that respects limit, distance and 75% |
| CanTiming.SucceedsExactly | project/libraries/hc32_drivers/drv_can.c:534-573 | every table and bit time: success iff the largest divisor up to the table's cap leaves a prescaler up to 256 and is no late count, both given as numbers |
| CanTiming.FindLargest | project/libraries/hc32_drivers/drv_can.c:466-478 | every bit time has such a divisor |
| CanTiming.TooLongExactly | project/libraries/hc32_drivers/drv_can.c:565-571 | a first segment is too long exactly above 73, 86 and 22 quanta |
| CanTiming.LateExactly | project/libraries/hc32_drivers/drv_can.c:560-563 | a sample point is late exactly at 1, 2, 3, 6, 7 and 11 quanta, and from 41 on in the CAN 2.0 table |
| CanTiming.ArbitrationComplete | project/libraries/hc32_drivers/drv_can.c:166-176 | arbitration table: if any allowed timing exists, one is found |
| CanTiming.Can20Incomplete | project/libraries/hc32_drivers/drv_can.c:560-563 | CAN 2.0 table, 50 ticks a bit: an allowed timing exists and none is found |
| CanTiming.DataIncomplete | project/libraries/hc32_drivers/drv_can.c:560-563 | data table, 35 ticks a bit: an allowed timing exists and none is found |
| CanFilter.CheckParams | project/libraries/hc32_drivers/drv_can.c:362-387 | accepts exactly the items with a bank in range or automatic, in mask mode, without remote frames |
| CanFilter.GetFilterIdx | project/libraries/hc32_drivers/drv_can.c:288-317 | every automatic item gets a bank nobody else has, lowest free first; explicit ones keep theirs; the mask is the set of banks in use |
| CanFilter.LowestFree | project/libraries/hc32_drivers/drv_can.c:304-312 | the lowest bank not in use, which exists by counting |
| CanFilter.ExplicitSize | project/libraries/hc32_drivers/drv_can.c:292-298 | explicit banks and automatic items together are at most the items |
| CanFilter.FilterConfig | project/libraries/hc32f460_ddl/drivers/hc32_ll_driver/src/hc32_ll_can.c:290-318 | entry k goes to the k-th selected bank from below |
| CanFilter.OwnBankExactly | project/libraries/hc32_drivers/drv_can.c:621-643 | every filter sits in its item's bank iff the banks the caller passes are in order |
| CanFilter.InOrderExactly | project/libraries/hc32_drivers/drv_can.c:288-317 | the banks after allocation increase iff the caller's banks are in order |
| CanFilter.AutomaticInOrder | project/libraries/hc32_drivers/drv_can.c:300-314 | automatic banks alone increase |
| CanFilter.OutOfOrderSwaps | project/libraries/hc32_drivers/drv_can.c:621-643 | explicit banks 3 and 1 are programmed the other way round |
| UartRx.Conservation | project/libraries/hc32_drivers/drv_usart.c:678-731 | over every interleaving: reported + outstanding + lost = received + doubled |
| UartRx.PromptConservation | project/libraries/hc32_drivers/drv_usart.c:678-731 | with completions served before they merge or are overtaken: reported + outstanding = received |
| UartRx.PromptExactly | project/libraries/hc32_drivers/drv_usart.c:678-731 | the count is right after every event of a run iff every completion is served before it merges or is overtaken |
| UartRx.RefinesCircularBuffer | project/libraries/hc32_drivers/drv_usart.c:602-637 | byte k lands at k modulo the buffer size, for every size from 1 |
| UartRx.UnreportedSurvive | project/libraries/hc32_drivers/drv_usart.c:678-731 | while the count is right, the unreported bytes are in the buffer in order |
| UartRx.PromptSurvive | project/libraries/hc32_drivers/drv_usart.c:678-731 | the same in every run with prompt completions |
| UartRx.TimeoutReports | project/libraries/hc32_drivers/drv_usart.c:713-728 | what a timeout reports in each branch, relative to what is outstanding |
| UartRx.OvertakenReportsTwice | project/libraries/hc32_drivers/drv_usart.c:718-726 | a wrap-around timeout followed by its completion reports too much, by the remaining count |
| UartRx.OvertakenRun | project/libraries/hc32_drivers/drv_usart.c:700-731 | a run from the start, buffer of four: two bytes received, four reported |
| UartRx.MergingRun | project/libraries/hc32_drivers/drv_usart.c:678-698 | a run from the start, buffer of four: four bytes received, two reported, none outstanding |
| UartRx.BytesBetween | project/libraries/hc32_drivers/drv_usart.c:710-726 | bytes between reading the counts and the update leave the counting law as it is |
| UartRx.CompletionBetween | project/libraries/hc32_drivers/drv_usart.c:710-726 | a completion served in between: two bytes received, three reported |
| UartRx.RunInv | project/libraries/hc32_drivers/drv_usart.c:602-731 | every run keeps bounds, counting law, position and buffer contents |
| UartRx.Uart.constructor | project/libraries/hc32_drivers/drv_usart.c:602-637 | initial transfer, two descriptors and counter |
| UartRx.Uart.DmaTransfer | project/libraries/hc32_drivers/drv_usart.c:620-637 | one byte through the linked transfers is the receive step |
| UartRx.Uart.DmaRxIrq | project/libraries/hc32_drivers/drv_usart.c:678-698 | is the completion step |
| UartRx.Uart.RxTimeoutIrq | project/libraries/hc32_drivers/drv_usart.c:700-731 | is the timeout step, with counts read and used at once |
| EthRing.Tx | project/libraries/hc32_drivers/drv_eth.c:203-272 | lays a prefix of the frame at consecutive cells of free descriptors; submits the whole length iff all its descriptors are free |
| EthRing.Rx | project/libraries/hc32_drivers/drv_eth.c:275-348 | the chain holds the bytes of the ring in order under the allocated segmentation; the segment count of descriptors goes back even without a chain |
| EthRing.GatherScatter | project/libraries/hc32_drivers/drv_eth.c:214-327 | transmitting a chain and receiving it under any other segmentation gives the same bytes |
| EthRing.FitsExactly | project/libraries/hc32_drivers/drv_eth.c:232-250 | frames of a length survive the ring iff the ring holds that length |
| EthRing.OwnedUntouched | project/libraries/hc32_drivers/drv_eth.c:218-261 | on every exit, buffers of descriptors the DMA owns are unchanged |
| EthRing.ReleasedExactly | project/libraries/hc32_drivers/drv_eth.c:328-336 | exactly the frame's consecutive descriptors change hands |
| EthRing.GatherOne | project/libraries/hc32_drivers/drv_eth.c:228-254 | one packet buffer goes behind what was gathered, or stops before an owned descriptor |
| EthRing.ScatterOne | project/libraries/hc32_drivers/drv_eth.c:309-325 | one packet buffer receives the next bytes of the ring |
| QspiWindow.Read | project/libraries/hc32_drivers/drv_qspi.c:510-608 | rejects iff the wrapped end is out of range; otherwise every byte comes from its source cell, by bytes or by DMA; a timeout leaves a correct prefix; what is behind the length is unchanged |
| QspiWindow.CopyDma | project/libraries/hc32_drivers/drv_qspi.c:540-573 | chunks of at most 1023 bytes copy what a byte loop copies, and nothing outside the stretch changes |
| QspiWindow.FlatExactly | project/libraries/hc32_drivers/drv_qspi.c:527-579 | the source cells are those of a flat read iff the window check does not wrap |
| QspiWindow.StraightAccepted | project/libraries/hc32_drivers/drv_qspi.c:527-535 | address 0 with length 0x68000000 is accepted and read past the window's end |
| QspiWindow.FlatRead | project/libraries/hc32_drivers/drv_qspi.c:581-606 | then byte k of the buffer is flash byte addr + k |
| QspiWindow.BlocksExactly | project/libraries/hc32_drivers/drv_qspi.c:512-516 | the block index stays at most 62 iff addr + length is within the flash range |
| QspiWindow.AcceptedPastTheEnd | project/libraries/hc32_drivers/drv_qspi.c:513-516 | a request across the end of the address space is accepted |
| PwmTimer.FindExponent | project/libraries/hc32_drivers/drv_pwm.c:262-275 | the least exponent whose power of two covers the division; failure iff it exceeds 1024 |
| PwmTimer.DividerServes | project/libraries/hc32_drivers/drv_pwm.c:249-299 | at that divider the clock is not zero and the period fits 16 bits |
| PwmTimer.TimerA.constructor | project/libraries/hc32_drivers/drv_pwm.c:344-361 | starts at the initial registers |
| PwmTimer.TimerA.AutoSetDiv | project/libraries/hc32_drivers/drv_pwm.c:249-281 | fails iff the period is under one tick or needs more than 1024, and then changes nothing |
| PwmTimer.TimerA.SetPeriod | project/libraries/hc32_drivers/drv_pwm.c:283-314 | is the period step; succeeds iff a divider serves |
| PwmTimer.TimerA.RecomputeAll | project/libraries/hc32_drivers/drv_pwm.c:301-311 | compare value and level of exactly the configured channels follow their stored pulses |
| PwmTimer.TimerA.SetPulse | project/libraries/hc32_drivers/drv_pwm.c:316-334 | is the pulse step |
| PwmTimer.TimerA.Set | project/libraries/hc32_drivers/drv_pwm.c:336-342 | is the combined step, going on after a refused period |
| PwmTimer.TimerA.Enable | project/libraries/hc32_drivers/drv_pwm.c:214-236 | is the enable step; refuses complementary output |
| PwmTimer.RunKeeps | project/libraries/hc32_drivers/drv_pwm.c:198-342 | over every run, for the channels of the mask: period 1 to 0xFFFF, compare within it and that of the stored pulse, and forced levels once set |
| PwmTimer.ForcedExactly | project/libraries/hc32_drivers/drv_pwm.c:198-314 | from the first period that could be served on, every channel of the mask is forced high iff full and low iff zero |
| PwmTimer.WithinExactly | project/libraries/hc32_drivers/drv_pwm.c:301-311 | for any channel the driver accepts: its compare value is within the period in every state of every run where it is enabled, iff it is in the mask |
| PwmTimer.ForcedRightExactly | project/libraries/hc32_drivers/drv_pwm.c:301-311 | the same for its forced level after a served period |
| PwmTimer.PeriodFits | project/libraries/hc32_drivers/drv_pwm.c:301-311 | a period change leaves a compare value within the period iff its channel is in the mask or the value fits |
| PwmTimer.UnmaskedRun | project/libraries/hc32_drivers/drv_pwm.c:648-672 | at every clock: pulse, enable and a shorter period leave a channel outside the mask on, with its compare value above the period |
| PwmTimer.StaleForceRun | project/libraries/hc32_drivers/drv_pwm.c:648-672 | at every clock: such a channel stays forced high below full duty |
| PwmTimer.RecomputeWithinOne | project/libraries/hc32_drivers/drv_pwm.c:306-327 | the two compare derivations differ by one tick exactly at a pulse of period register ticks |
| PwmTimer.CommandDoes | project/libraries/hc32_drivers/drv_pwm.c:214-342 | what each command leaves to be read back: enable switches the output on or off, a period that fits is shown and the mask's channels follow, a pulse is stored and shown, a combined set does both and sets its pulse even if its period is refused; nothing else changes |
| PwmTimer.DividerExactly | project/libraries/hc32_drivers/drv_pwm.c:258-275 | the chosen divider is the least at which the period fits 16 bits, and there is one iff it fits at 1024 |
| PwmTimer.PeriodReadBack | project/libraries/hc32_drivers/drv_pwm.c:238-299 | the period read back never exceeds the request and is short by less than a tick and a nanosecond |
| PwmTimer.PulseReadBack | project/libraries/hc32_drivers/drv_pwm.c:238-334 | the same for pulses up to the period, and what longer, zero and one-tick pulses become |
| AtFields.SplitFields | project/aiwb2/at_device_aiwb2.c:37-73 | the first max tokens of the text before the line end, each cut to 31 characters, for every line and capacity |
| AtFields.JoinedBack | project/aiwb2/at_device_aiwb2.c:46-70 | joining the fields gives the text back iff nothing was cut |
| AtFields.JoinTokens | project/aiwb2/at_device_aiwb2.c:46-70 | joining all tokens gives the text back |
| AtFields.TokensHoldNoComma | project/aiwb2/at_device_aiwb2.c:49-51 | no token holds a comma |
| AtFields.TextIsLongest | project/aiwb2/at_device_aiwb2.c:49-51 | the text is the longest beginning without a line end |
| AtSockets.Extract | project/aiwb2/at_socket_aiwb2.c:420-465 | for any line, the delivered slice lies inside it and leaves the line end out |
| AtSockets.ExtractEvent | project/aiwb2/at_socket_aiwb2.c:420-477 | the event line of any id and any non-empty data delivers exactly the data |
| AtSockets.ExtractAnnounced | project/aiwb2/at_socket_aiwb2.c:452-465 | an announced length shorter than the data gives that beginning, a longer one all of it |
| AtSockets.EventReaches | project/aiwb2/at_socket_aiwb2.c:467-477 | who gets the data: the connected socket; nobody if the peer closed it; else the next one if open; else nobody |
| AtSockets.DisconnectIsolates | project/rt-thread/components/net/at/at_socket/at_socket.c:786-828 | after the disconnect event of a connected socket its data is dropped and every other connected socket gets its own |
| AtSockets.Modem.CloseEvent | project/aiwb2/at_socket_aiwb2.c:483-511 | closes exactly the socket the search reaches, which keeps its user data |
| AtSockets.ReportRead | project/aiwb2/at_socket_aiwb2.c:208-214 | the line the modem sends for a connection is read as its id, whatever follows |
| AtSockets.FirstDecides | project/aiwb2/at_socket_aiwb2.c:205-218 | a reply connects with the id of its first reporting line and with no other |
| AtSockets.NoneDecides | project/aiwb2/at_socket_aiwb2.c:205-218 | a reply without such a line does not connect |
| AtSockets.Modem.FirstId | project/aiwb2/at_socket_aiwb2.c:205-214 | the id of the first reply line that reports one, else -1 |
| AtSockets.Modem.FindSocket | project/aiwb2/at_socket_aiwb2.c:62-75 | the search finds exactly that socket |
| AtSockets.Modem.Connect | project/aiwb2/at_socket_aiwb2.c:163-238 | succeeds iff the first id reported in one of two replies is index + 1, and then user data is index + 1 |
| AtSockets.Modem.Allocate | project/rt-thread/components/net/at/at_socket/at_socket.c:372-393 | the first free socket gets its index as user data |
| AtSockets.Modem.Close | project/rt-thread/components/net/at/at_socket/at_socket.c:504-548 | the entry is cleared; the other sockets keep theirs |
| AtSockets.Modem.RecvEvent | project/aiwb2/at_socket_aiwb2.c:420-477 | delivers what the extraction and the search say |
| HexFrame.HexStrToBytes | project/applications/rs485.c:65-101 | terminates, stays inside text and buffer, and writes the parsed bytes |
| HexFrame.ParseRendered | project/applications/rs485.c:65-101 | parsing any rendering, in either case and with any separators, gives the bytes, up to the capacity |
| HexFrame.DigitsExactly | project/applications/rs485.c:43-58 | the sixteen digits of either case are read as their places, and no other character is |
| HexFrame.ParseWritten | project/applications/rs485.c:65-101 | bytes written in either case with any run of blanks, tabs, commas and dashes before each are parsed back, up to the capacity or the first other character |
| HexFrame.ParsedPrefix | project/applications/rs485.c:74-98 | for any text, the bytes are what some beginning of it renders |
| HexFrame.ParsedMost | project/applications/rs485.c:74-98 | and no beginning that fits the buffer renders more |
| HexFrame.ParseDump | project/applications/rs485.c:344-349 | the parser undoes the printed dump |

## Left out

- FLOAT parameters: their round trip is a fact about the C library's "%.9g" and `strtof`.
- FlashDB's own recovery: the store is a contract here, and its log, sector handling and cache are not modelled.
- NULL arguments, locks, `flash_param_foreach` and printing of the parameter manager: they would only add easy members.
- ParamRuns.Durability: starts from cleared RAM; a start without power loss leaves the tail of a blob buffer as it was.
- EthRing.Tx: the hardware layer's preparation of the submitted descriptors is not part of this model (its source is missing), nor the underflow flag.
- EthRing.Rx: the chain's segmentation is a parameter that sums to the length modulo 2^16, as the allocator is told it.
- QspiWindow.Read: does not model the direct-communication path for other commands, nor what a chunk that timed out has written.
- UartRx.Uart.RxTimeoutIrq: the counts are read inside the step, not before interrupts are disabled; `BytesBetween` and `CompletionBetween` say what that means.
- UartRx.Uart.DmaRxIrq: the serial framework behind the reported length is not modelled.
- Timer 4 and timer 6 PWM: timer 4 repeats timer A's arithmetic without forced levels; timer 6 has other divider encodings.
- The predefined CAN timing rows, filter ids and masks, and CAN operation modes: data and register setup.
- AtSockets.Modem.Connect: the command text and the socket type are not modelled.
- The chunk loop of the modem's send, domain names, URC registration and WiFi bring-up: easy or not logic.
- `rs485_wait_tx_complete`, bus direction and receive ring of RS485.
- The remaining drivers, which are mainly register setup.
