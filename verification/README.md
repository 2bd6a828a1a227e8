# Models of Clock Signal's components, and proofs about them

Clock Signal (CLK) is an emulator. Each module here models one small stateful component of it and proves what
that component is for, over every input and every run. In each case a simple account of what should happen
(an absolute schedule, a bank of registers for each mode, division of polynomials, a rational number, one clock
at a time) is set beside what the code does (delays relative to one another, overlapping arrays, a table, 64-bit
intermediates, batches), and the two are shown to agree. Code that updates fields is a class whose methods are
proved against functions of its state; the theorems are lemmas about those functions.

- **6845 CRT controller** (`CRTC6845`, `CRTC6845Frame`): `run_for` field by field and cycle by cycle, and what it
  amounts to over whole frames: their exact period, the address at every character, the picture on the bus.
- **ARMv2** (`ARMRegisters`, `ARMBarrelShifter`, `ARMDataProcessing`, `ARMBlockTransfer`): the lazily saved register
  banks refine a plain bank per mode; exceptions and their returns; the shifter against single-bit shifts; flags
  against integers; LDM and STM with aborts, and their round trip. Words are integers below 2^32 that wrap explicitly.
- **I2C bus** (`I2CBus`, `I2CTransactions`): the decoder and encoder, and whole transactions from levels on the wires
  to bytes. A line is true while pulled, as in the source.
- **Recursive disassembler** (`M50740Decoder`, `Disassembler`): the decoder's independence of how its bytes arrive, and
  the worklist's result as the least closed set of entry points.
- **MFP68901** (`MFP68901Timers`, `MFP68901`): timers counted in batches against single cycles, and the interrupt
  controller's cached line and priorities over every run.
- **Time** (`DeferredQueue`, `ClockReceiver`, `JustInTime`, `AsyncTaskQueue`, `AsyncJustInTime`): the scheduler against
  absolute deadlines, exact conservation of time, and the queue and its worker as interleaved steps.
- **Exact arithmetic** (`CRC16`, `CRC16Bursts`, `CRC32`, `StorageTime`, `Stepper`, and `Arithmetic`, which others share).
- **MC6847** (`MC6847`): its lines, and which of their signals do not depend on how time is divided into calls.

Where the code falls short of what its comments or its purpose suggest, the code is kept and the exact condition is
proved:

- an exception return that subtracts from r14 goes wrong exactly when the return address wrapped to zero;
- the 6845's rows follow on from one another exactly when fewer characters are displayed than the horizontal total;
- the 6845's first frame from power-on ends on time exactly if a frame has more than one line, and otherwise 128 lines
  late;
- an I2C peripheral that refuses a byte, or whose host stops acknowledging, is not told of the stop that follows,
  although a peripheral that declines to supply a byte is; and none is told of a repeated start;
- `will_flush` ignores the multiplier and the object's preference: of an object with sequence points it agrees with what
  adding time does, for all times, exactly if the object is a just-in-time one and either its time is not scaled up or
  its event is at most one unit away;
- a stepper's batch gives one more output than as many single steps exactly when it takes the error to a positive
  multiple of what an output subtracts;
- a disassembly whose closing bound is the very top of the address space need not end; and one reads outside the memory
  it is given exactly if an entry point it finds is swept from below the location, or a sweep comes to the closing
  bound, which is one past the end;
- a sum of `Time`s is right exactly if its 64-bit intermediates fit and it is representable: 1 + 1 need not be 2;
- a decoder given only the opcode of a longer instruction reports that it cannot tell how much is missing;
- `ClockReceiver` describes quarter cycles, but its conversions shift by the difference of the scales' denominators,
  which keeps the time there was exactly within a scale, between half and whole cycles, and when there is too little
  to convert: four quarter cycles are no cycles;
- the MC6847 tests for the end of a row preset after a line's end may have moved its row on, so that a line of the
  first of several rows ends its preset exactly if some call ends in clocks 28 to 455 of it; and an address that a
  change of mode leaves within a line moves on at once instead of repeating.

## Model

| member | source | states |
|---|---|---|
| CRTC6845.CRTC.RunFor | Components/6845/CRTC6845.hpp:184-477 | any number of cycles gives the state of as many single steps, and shows the bus handler exactly that trace |
| CRTC6845.CRTC.PerformCycle | Components/6845/CRTC6845.hpp:187-475 | one cycle: every counter, latch and signal is updated from the values before it, in the source's order |
| CRTC6845.CRTC.PerformBusCycle | Components/6845/CRTC6845.hpp:194-202 | the handler sees the refresh address latched one cycle late, with the line, display enable and cursor of now |
| CRTC6845.CRTC.UpdateAddresses | Components/6845/CRTC6845.hpp:228-253 | line and refresh addresses reload on a new frame, and otherwise copy or advance |
| CRTC6845.CRTC.UpdateVsync | Components/6845/CRTC6845.hpp:265-293 | vertical sync begins on the row match's rising edge, and the odd field's copy half a line later |
| CRTC6845.CRTC.UpdateHsync | Components/6845/CRTC6845.hpp:299-308 | horizontal sync and its width counter |
| CRTC6845.CRTC.UpdateHorizontal | Components/6845/CRTC6845.hpp:316-332 | character visibility and the character counter |
| CRTC6845.CRTC.UpdateVertical | Components/6845/CRTC6845.hpp:343-365 | line and row counters with their one-cycle and one-line delays |
| CRTC6845.CRTC.UpdateDisplayEnable | Components/6845/CRTC6845.hpp:368-375 | row visibility, the field count and the cursor's mask |
| CRTC6845.CRTC.UpdateLines | Components/6845/CRTC6845.hpp:382-406 | the adjustment period, the first scan line and the interlaced field's extra line |
| CRTC6845.CRTC.UpdateLatches | Components/6845/CRTC6845.hpp:410-433 | the chained end-of-main, will-adjust and end-of-field latches |
| CRTC6845.CRTC.UpdateCursorAndHistory | Components/6845/CRTC6845.hpp:438-475 | the cursor's lines and the delayed history of character resets |
| CRTC6845Frame.FramePeriod | Components/6845/CRTC6845.hpp:208-219 | with registers left alone from any state there can be, or from the fourth cycle of any at all, no interlace and a horizontal total H of at least 3, each new frame is followed by the next exactly (H+1)((V+1)(R+1)+A) cycles later, and not before |
| CRTC6845Frame.FirstFrame | Components/6845/CRTC6845.hpp:358-433 | the first new frame from power-on comes after exactly one period or, if a frame is a single line, 128 lines later, once the row counter has wrapped |
| CRTC6845Frame.FirstFrameOnTime | Components/6845/CRTC6845.hpp:410-433 | so it comes on time exactly if a frame has more than one line |
| CRTC6845Frame.FramesRecur | Components/6845/CRTC6845.hpp:208-219 | from there on, whatever the layout, a new frame comes every period |
| CRTC6845Frame.NewFrameOnlyLast | Components/6845/CRTC6845.hpp:213-219 | a new frame is signalled at the last cycle of a frame and at no other |
| CRTC6845Frame.FrameAdvances | Components/6845/CRTC6845.hpp:328-433 | the invariant of every counter and latch at every position of a frame is kept by every cycle |
| CRTC6845Frame.HistoryAlwaysKept | Components/6845/CRTC6845.hpp:472-475 | three cycles with registers left alone make the delayed history of any state agree with the character counter, and it then always does |
| CRTC6845Frame.HistoryAlwaysRecent | Components/6845/CRTC6845.hpp:101-146 | however registers are written since power-on, and whenever, the history never lags behind the counter, which is what lets the frame theorems begin from any state there can be |
| CRTC6845Frame.RefreshCounter | Components/6845/CRTC6845.hpp:228-244 | from any such state, at character c of a line the refresh counter is the line's base plus c, modulo 2^14, throughout every frame |
| CRTC6845Frame.RowsFollowOn | Components/6845/CRTC6845.hpp:228-233 | with displayed width D below the horizontal total, row r starts at start address + rD modulo 2^14 |
| CRTC6845Frame.RowsFollowOnExactly | Components/6845/CRTC6845.hpp:231-244 | all rows do so exactly if D is below the horizontal total or there is one row |
| CRTC6845Frame.Screen | Components/6845/CRTC6845.hpp:194-202 | from any such state, display is enabled for exactly the displayed columns of the displayed rows, with the matching address and line |
| ARMRegisters.Registers.constructor | InstructionSets/ARM/Registers.hpp:370-375 | the processor starts in supervisor mode with interrupts disabled |
| ARMRegisters.Registers.SetMode | InstructionSets/ARM/Registers.hpp:282-336 | between any two modes, every register of every mode's bank is what it was, though the arrays overlap |
| ARMRegisters.Registers.SaveOutgoing | InstructionSets/ARM/Registers.hpp:287-307 | which registers the outgoing mode's array receives |
| ARMRegisters.Registers.RestoreIncoming | InstructionSets/ARM/Registers.hpp:309-333 | which registers the incoming mode's array supplies, and which are saved first for FIQ |
| ARMRegisters.Registers.Reg | InstructionSets/ARM/Registers.hpp:349-367 | forced to user mode, any number names the user's register; otherwise the current mode's |
| ARMRegisters.Registers.SetReg | InstructionSets/ARM/Registers.hpp:349-367 | writing through that reference changes that register of the bank and nothing else |
| ARMRegisters.Registers.SetActive | InstructionSets/ARM/Registers.hpp:338-344 | writing an active register writes the current mode's |
| ARMRegisters.Registers.SetStatus | InstructionSets/ARM/Registers.hpp:93-107 | the flags are taken from a word, and in privileged modes the mode and interrupt masks also |
| ARMRegisters.Registers.TakeException | InstructionSets/ARM/Registers.hpp:192-207 | r14 of the new mode receives the offset PC and status, and the masks, mode and PC are as the exception says |
| ARMRegisters.Registers.Test | InstructionSets/ARM/Registers.hpp:234-279 | the bit tricks on held results decide each condition of the four flags |
| ARMRegisters.StatusDecodes | InstructionSets/ARM/Registers.hpp:75-107 | status packed beside an address can be taken apart again, field by field |
| ARMRegisters.OffsetUndone | InstructionSets/ARM/Registers.hpp:86-107 | subtracting the offset recovers PC and status exactly if there was none or the address field did not wrap to zero |
| ARMRegisters.ExceptionReturn | InstructionSets/ARM/Registers.hpp:146-207 | an exception and its prescribed return restore mode, flags, masks and PC under exactly that condition, and all of r0 to r14 if the mode differed, whatever the handler did to its own registers |
| ARMBarrelShifter.ShiftLogicalLeft | InstructionSets/ARM/BarrelShifter.hpp:38-49 | LSL is that many single-bit shifts, carry included |
| ARMBarrelShifter.ShiftLogicalRight | InstructionSets/ARM/BarrelShifter.hpp:51-68 | LSR likewise, an immediate 0 meaning 32 |
| ARMBarrelShifter.ShiftArithmeticRight | InstructionSets/ARM/BarrelShifter.hpp:70-85 | ASR likewise |
| ARMBarrelShifter.ShiftRotateRight | InstructionSets/ARM/BarrelShifter.hpp:87-108 | ROR likewise, an immediate 0 being a rotation through carry |
| ARMBarrelShifter.Shift | InstructionSets/ARM/BarrelShifter.hpp:116-131 | each type is dispatched to its shift |
| ARMBarrelShifter.LeftClosed | InstructionSets/ARM/BarrelShifter.hpp:45-48 | repeated left shifts multiply by a power of two modulo 2^32 |
| ARMBarrelShifter.LogicalRightClosed | InstructionSets/ARM/BarrelShifter.hpp:58-67 | repeated right shifts divide by a power of two |
| ARMBarrelShifter.ArithmeticClosed | InstructionSets/ARM/BarrelShifter.hpp:76-84 | repeated arithmetic shifts fill with the sign |
| ARMBarrelShifter.RotateClosed | InstructionSets/ARM/BarrelShifter.hpp:101-107 | repeated rotations exchange the parts of a word |
| ARMDataProcessing.Executor.Perform | InstructionSets/ARM/Executor.hpp:107-230 | every data processing instruction: destination, flags, and the effects on PC and status of r15 |
| ARMDataProcessing.Executor.ReadOperand1 | InstructionSets/ARM/Executor.hpp:121-124 | r15 reads as the PC alone, further ahead if a register gives the shift |
| ARMDataProcessing.Executor.DecodeShift | InstructionSets/ARM/Executor.hpp:66-105 | the second operand and the shifter's carry |
| ARMDataProcessing.Executor.SetFlagsAfterAddition | InstructionSets/ARM/Executor.hpp:187-191 | the bit tricks give C and V of the exact sum |
| ARMDataProcessing.Executor.SetFlagsAfterSubtraction | InstructionSets/ARM/Executor.hpp:151-157 | and of the exact difference |
| ARMDataProcessing.AdditionFlags | Numeric/Carry.hpp:30-50 | carried_out and overflow of a sum are carry out of 32 bits and signed overflow |
| ARMDataProcessing.SubtractionFlags | Numeric/Carry.hpp:83-95 | those of a difference are borrow and signed overflow |
| ARMDataProcessing.CompareThenTest | InstructionSets/ARM/Registers.hpp:247-272 | after CMP every ordering condition holds exactly when the signed or unsigned comparison does |
| ARMDataProcessing.AdditionChain | InstructionSets/ARM/Executor.hpp:178-196 | ADDS then ADCS over n words computes the n-word sum, with C the carry out |
| ARMDataProcessing.SubtractionChain | InstructionSets/ARM/Executor.hpp:141-162 | SUBS then SBCS over n words computes the difference, with C set exactly if nothing was borrowed |
| ARMDataProcessing.ReturnInstructions | InstructionSets/ARM/Executor.hpp:210-219 | MOVS PC,R14 and SUBS PC,R14,#4 do what an exception return is said to |
| ARMBlockTransfer.Executor.Perform | InstructionSets/ARM/Executor.hpp:393-578 | every LDM and STM on any bus: memory, registers, write-back, aborts and exceptions |
| ARMBlockTransfer.Executor.Collate | InstructionSets/ARM/Executor.hpp:430-453 | the transfer list in ascending order, with the PC's proxy, the copied base and write-back cancelled by an LDM of the base |
| ARMBlockTransfer.Executor.Prepare | InstructionSets/ARM/Executor.hpp:397-483 | the start address and what is written back, for each addressing mode |
| ARMBlockTransfer.Executor.StoreEach | InstructionSets/ARM/Executor.hpp:544-562 | each word stored, or thrown away after an address exception, and whether all succeeded |
| ARMBlockTransfer.Executor.LoadEach | InstructionSets/ARM/Executor.hpp:491-543 | each word loaded until an abort, which undoes the last of them and restores the base |
| ARMBlockTransfer.ListedInOrder | InstructionSets/ARM/Executor.hpp:432-438 | the transfer list holds exactly the registers asked for, in ascending order |
| ARMBlockTransfer.OppositeAddresses | InstructionSets/ARM/Executor.hpp:461-483 | the opposite transfer covers the same words and returns the base to where it was |
| ARMBlockTransfer.StoreLayout | InstructionSets/ARM/Executor.hpp:461-562 | the lowest register goes to the lowest address, and nothing outside the block changes |
| ARMBlockTransfer.StoreThenLoad | InstructionSets/ARM/Executor.hpp:393-578 | STM with write-back and then the opposite LDM restores every listed register and the base, for every list without the base or r15, and changes nothing else |
| I2CBus.DriveKeepsInvariant | Components/I2C/I2C.cpp:37-94 | on any change of the lines, a peripheral is active in every receiving and sending state and bit counts stay in range |
| I2CBus.Bus.SetClockData | Components/I2C/I2C.cpp:37-94 | edges become starts, stops, bits and the ends of what a peripheral sends |
| I2CBus.Bus.SignalEvent | Components/I2C/I2C.cpp:96-220 | what each of those does in each state |
| I2CBus.Bus.Data | Components/I2C/I2C.cpp:22-28 | the data line is low if the host or a sending peripheral pulls it |
| I2CTransactions.AddressSent | Components/I2C/I2C.cpp:152-171 | an address is acknowledged and its peripheral started exactly if there is one |
| I2CTransactions.ByteSent | Components/I2C/I2C.cpp:177-190 | a byte reaches the peripheral, and the ninth bit is low exactly if it was accepted |
| I2CTransactions.RestartHeard | Components/I2C/I2C.cpp:72-81 | a start made from a pulled clock, whoever is in conversation, awaits an address and tells nobody of a stop |
| I2CTransactions.TransactionDelivered | Components/I2C/I2C.cpp:37-220 | a start, any writes and reads of any peripherals joined by repeated starts, and a stop: each peripheral is left as its messages in turn make it, only the last is told of the stop, and the host samples what each read brings |
| I2CTransactions.RegisterRead | Components/I2C/I2C.cpp:37-220 | the combined format: a register written and then read, with no stop between |
| I2CTransactions.WriteDelivered | Components/I2C/I2C.cpp:37-220 | START, address, any bytes and STOP deliver exactly the bytes up to the first refusal, and disturb no other peripheral |
| I2CTransactions.ReceivedUpToRefusal | Components/I2C/I2C.cpp:182-189 | which bytes those are |
| I2CTransactions.OneReceived | Components/I2C/I2C.cpp:48-62 | a byte is sampled most significant bit first |
| I2CTransactions.ReadDelivered | Components/I2C/I2C.cpp:37-220 | the host samples exactly the peripheral's bytes until it stops acknowledging, or ones once it declines |
| I2CTransactions.RequestedUntilDeclined | Components/I2C/I2C.cpp:114-122 | which bytes those are, and how often the peripheral is asked |
| M50740Decoder.Decoder.Take | InstructionSets/M50740/Decoder.cpp:235-280 | however its bytes are divided between calls, an instruction decodes as if they came at once |
| M50740Decoder.DecodePrefix | InstructionSets/M50740/Decoder.cpp:235-280 | bytes after an instruction do not affect it, and it needs all of its own |
| Disassembler.Follow | InstructionSets/M50740/Parser.hpp:42-114 | each operation's statically known target is added, which operand bytes are read for it and for the address accessed, and that the sweep ends where it must |
| Disassembler.Parse | InstructionSets/M50740/Parser.hpp:18-120 | a sweep records exactly its instructions, adds exactly their targets, new ones to the queue, and reads exactly their opcodes and those operands |
| Disassembler.Disassembler.AddEntry | InstructionSets/Disassembler.hpp:72-77 | an entry point is queued once |
| Disassembler.Disassembler.Disassemble | InstructionSets/Disassembler.hpp:38-61 | it ends; the entry points gained are the least set with the start closed under the targets of the code swept; exactly that code is recorded; and exactly the addresses of its sweeps are read; location and length may pass 16 bits |
| Disassembler.FoundIsLeast | InstructionSets/Disassembler.hpp:47-60 | there is such a least set |
| Disassembler.FoundIsReachable | InstructionSets/Disassembler.hpp:47-77 | it is the set of entry points that a chain of targets leads to |
| Disassembler.NothingMoreToFind | InstructionSets/Disassembler.hpp:72-77 | disassembling again finds nothing new |
| Disassembler.ReadsWithin | InstructionSets/Disassembler.hpp:54-56 | all that is read is within the memory given exactly if no entry point found is swept from below the location and no sweep comes to the byte at the closing bound |
| Disassembler.SweepBelow | InstructionSets/Disassembler.hpp:54-55 | at location 0x1000 entry point 0x2005 is swept from 5 |
| Disassembler.SweepBeyond | InstructionSets/M50740/Parser.hpp:21-22 | a sweep of any memory that is all NOP reads the byte after its end |
| Disassembler.SweepForever | InstructionSets/M50740/Parser.hpp:18-21 | with a closing bound of 65535 a sweep of NOPs never ends |
| MFP68901Timers.PrescaledAtOnce | Components/68901/MFP68901.cpp:181-201 | prescaling many cycles at once is running them one by one, from any prescale count, negative ones included |
| MFP68901Timers.ExpiriesClosed | Components/68901/MFP68901.cpp:275-314 | the expiries in n decrements in closed form, 0 standing for 256 |
| MFP68901Timers.CycleExpiriesClosed | Components/68901/MFP68901.cpp:181-201 | and in n cycles |
| MFP68901Timers.BeforeExpiry | Components/68901/MFP68901.cpp:278-291 | the value read back before the next expiry |
| MFP68901Timers.CycledSplits | Components/68901/MFP68901.cpp:181-201 | cycles may be run in any portions |
| MFP68901.MFP68901.DecrementTimer | Components/68901/MFP68901.cpp:275-314 | the loop's batches are single decrements, and the timer's interrupt becomes pending exactly if one expires it and it is enabled |
| MFP68901.MFP68901.RunTimerFor | Components/68901/MFP68901.cpp:181-201 | a timer run for some cycles ends as if run cycle by cycle |
| MFP68901.MFP68901.RunFor | Components/68901/MFP68901.cpp:203-213 | so do all four, with the odd half cycle kept back |
| MFP68901.RunsDivide | Components/68901/MFP68901.cpp:203-213 | any division of time gives the same values, prescale counts, pending bits and line |
| MFP68901.MFP68901.SetTimerMode | Components/68901/MFP68901.cpp:221-235 | a timer's new mode, prescale and count, or its reset |
| MFP68901.ModeChangeKeepsUnit | Components/68901/MFP68901.cpp:229-231 | without a reset, the decrement that was due comes when it would have done |
| MFP68901.MFP68901.WriteTimerControl | Components/68901/MFP68901.cpp:136-158 | which mode and prescale a control write selects |
| MFP68901.MFP68901.WriteTimersCD | Components/68901/MFP68901.cpp:159-163 | and for the shared register |
| MFP68901.MFP68901.SetTimerData | Components/68901/MFP68901.cpp:237-242 | data reloads, and replaces the value only of a stopped timer |
| MFP68901.MFP68901.SetTimerEventInput | Components/68901/MFP68901.cpp:248-256 | only an active edge in event counting mode counts |
| MFP68901.MFP68901.WriteInterrupts | Components/68901/MFP68901.cpp:79-113 | what each interrupt register's write changes, including the vector's early return |
| MFP68901.MFP68901.UpdateInterrupts | Components/68901/MFP68901.cpp:353-370 | the line compares the most important interrupts firing and in service |
| MFP68901.MFP68901.AcknowledgeInterrupt | Components/68901/MFP68901.cpp:381-402 | the most important interrupt is taken and its number is in the vector returned |
| MFP68901.Msb16 | Components/68901/MFP68901.hpp:173-182 | the most significant set bit, and only it |
| MFP68901.RunConsistent | Components/68901/MFP68901.cpp:343-402 | in every run what is pending is enabled, automatic mode has nothing in service, and the cached line is right |
| MFP68901.AcknowledgedInOrder | Components/68901/MFP68901.cpp:381-396 | in every run, a software-mode acknowledgement takes something at least as important as all in service exactly if the line is asserted, and it becomes the most important in service |
| MFP68901.LowerPriorityHeld | Components/68901/MFP68901.cpp:360-364 | while something is in service nothing less important asserts the line |
| MFP68901.MFP68901.ReevaluatePort | Components/68901/MFP68901.cpp:326-339 | falling port lines raise interrupts |
| MFP68901.FallenByLine | Components/68901/MFP68901.cpp:330-336 | each raises its own and no other |
| DeferredQueue.Performer.Defer | ClockReceiver/DeferredQueue.hpp:25-48 | the relative delays come to stand for the old deadlines with the new one inserted |
| DeferredQueue.Performer.Advance | ClockReceiver/DeferredQueue.hpp:62-78 | everything due is performed in order, and the rest is made relative to the new present |
| DeferredQueue.Performer.RunFor | ClockReceiver/DeferredQueue.hpp:119-138 | the target gets positive periods that add up to the length, each action due is performed once and exactly on time, and it ends |
| DeferredQueue.Performer.TimeUntilNextAction | ClockReceiver/DeferredQueue.hpp:54-57 | the first deadline, or -1 |
| DeferredQueue.InsertedInOrder | ClockReceiver/DeferredQueue.hpp:33-45 | a newcomer goes after all that is due before it and before all that is due with it or later |
| DeferredQueue.DeferThenRun | ClockReceiver/DeferredQueue.hpp:25-78 | a deferred action is performed by a run exactly if it is due within it, in its place among the others |
| DeferredQueue.RunsCompose | ClockReceiver/DeferredQueue.hpp:119-138 | running for a and then b fires the same actions at the same times as running for a + b |
| DeferredQueue.DueThenLater | ClockReceiver/DeferredQueue.hpp:62-78 | a run takes exactly what is due from the front of a schedule |
| ClockReceiver.Clocks.Divide | ClockReceiver/ClockReceiver.hpp:146-164 | quotient times period plus what is kept is what there was, of either sign, and less than a period is kept; and it is the same time, in cycles, exactly if the scales are faithful or there was too little to convert: more than -divider and less than a period |
| ClockReceiver.Clocks.Flush | ClockReceiver/ClockReceiver.hpp:170-181 | likewise for conversion alone, too little being from none to less than a unit; and nothing is kept on scaling up |
| ClockReceiver.FaithfulExactly | ClockReceiver/ClockReceiver.hpp:155-181 | of scales whose denominators are powers of two only equal ones, and half and whole cycles, are faithful |
| ClockReceiver.FourQuarterCycles | ClockReceiver/ClockReceiver.hpp:170-181 | four quarter cycles flush to no cycles, and all four are kept |
| JustInTime.JustInTimeActor.Add | ClockReceiver/JustInTime.hpp:88-120 | time is kept, or flushed at once in real time or on reaching a sequence point, or dropped by an object with no use for it; and how long is then left until the event, the object's answer being converted to the caller's scale |
| JustInTime.JustInTimeActor.Flush | ClockReceiver/JustInTime.hpp:182-195 | the object is run for the whole units kept, if any, and the rest is kept |
| JustInTime.JustInTimeActor.WillFlush | ClockReceiver/JustInTime.hpp:217-222 | for a just-in-time object a flush that is predicted comes, and if time is not scaled up or the event is close none comes that is not |
| JustInTime.PredictionRight | ClockReceiver/JustInTime.hpp:216-222 | the prediction agrees with the flushes that adding time causes at sequence points, for all times, exactly if there are none, or the preference is just-in-time and either there is no scaling up or the event is at most one unit away |
| JustInTime.PredictedThenFlushed | ClockReceiver/JustInTime.hpp:107-118 | a just-in-time object is never predicted a flush that does not come |
| JustInTime.PredictionWrong | ClockReceiver/JustInTime.hpp:88-120 | an object with no use for time is, and one whose time is doubled flushes without its having been predicted |
| JustInTime.RunConserves | ClockReceiver/JustInTime.hpp:88-120 | in any interleaving of additions and flushes, time run times divider and scale plus residue is time added times multiplier |
| JustInTime.FlushesDoNotMatter | ClockReceiver/JustInTime.hpp:182-195 | after a flush the total run and the residue depend only on the time added |
| JustInTime.SameStateHoweverFlushed | ClockReceiver/JustInTime.hpp:182-195 | so an object whose running is additive ends in the same state |
| AsyncTaskQueue.RunKeeps | Concurrency/AsyncTaskQueue.hpp:95-106 | in every interleaving, performed, in hand and pending are together the actions enqueued, in order; and no wakeup is lost |
| AsyncTaskQueue.FlushWaits | Concurrency/AsyncTaskQueue.hpp:149-166 | a flush returns only once everything enqueued before it has been performed |
| AsyncTaskQueue.WorkerDrains | Concurrency/AsyncTaskQueue.hpp:192-218 | a worker that is awake performs all there is and then sleeps |
| AsyncTaskQueue.FlushReturns | Concurrency/AsyncTaskQueue.hpp:149-166 | in every interleaving, before and after performance is requested, a flush may return once the worker has since taken three steps more than there were actions to perform, in both modes |
| AsyncJustInTime.AlwaysRight | ClockReceiver/JustInTime.hpp:307-336 | in every interleaving, time run, thresholds queued and residue add up to the time added |
| AsyncJustInTime.FlushRunsEverything | ClockReceiver/JustInTime.hpp:330-336 | the flush's own run never overlaps the worker's, and completes exactly the time added |
| CRC16.TableIsDivision | Numeric/CRC.hpp:38-55 | a table step is eight steps of polynomial division, most significant bit first |
| CRC16.BuildTable | Numeric/CRC.hpp:39-51 | the nested loops build that table |
| CRC16.Generator.Add | Numeric/CRC.hpp:53-54 | a byte takes the value eight division steps on |
| CRC16.CrcOf | Numeric/CRC.hpp:74-80 | the CCITT check of any data is the remainder of its division |
| CRC16.CheckOfMessage | Components/1770/1770.cpp:475-475 | taking in two more bytes leaves zero exactly if they are the check, high byte first |
| CRC16.AdjacentErrorDetected | Numeric/CRC.hpp:91-91 | any error confined to two adjacent bytes changes the check |
| CRC16Bursts.BurstDetected | Numeric/CRC.hpp:38-80 | so does any error confined to 16 consecutive bits, wherever they begin |
| CRC16Bursts.RemainderIsSteps | Numeric/CRC.hpp:38-55 | the check of bytes is the division of their bits, in one sequence |
| CRC32.TableIsDivision | Numeric/CRC.hpp:38-55 | the same for 32 bits |
| CRC32.ReverseBytes | Numeric/BitReverse.hpp:31-41 | reversing a word reverses its bytes and exchanges them end for end |
| CRC32.ReverseTwice | Numeric/BitReverse.hpp:23-28 | each bit of a byte changes places with its opposite |
| CRC32.ReverseByte | Numeric/CRC.hpp:53-54 | a reversed byte divided most significant bit first is the least-significant-first step of RFC 1952, reversed |
| CRC32.Generator.Add | Numeric/CRC.hpp:53-54 | a byte is reversed and divided in |
| CRC32.CrcOf | Numeric/CRC.hpp:58-80 | the check computed is that of section 8 of RFC 1952 |
| StorageTime.GcdDivides | Storage/Storage.hpp:235-235 | the divisor divides both and is a combination of them |
| StorageTime.LowestTermsFit | Storage/Storage.hpp:234-246 | a number is a quotient of 32-bit numbers exactly if its lowest terms are |
| StorageTime.Install | Storage/Storage.hpp:210-255 | the loops end; the rate is zero exactly if it was; the result is exact if and only if any 32-bit quotient would be; and one that is not lies between what one more in its rate and one more in its length would make it, with 31 bits or more of one term in use, but for numbers too great for the greatest |
| StorageTime.Trim | Storage/Storage.hpp:237-254 | halving both terms until they fit, or settling for the greatest, keeps that near |
| StorageTime.Time.Less | Storage/Storage.hpp:57-59 | the order of the rational numbers |
| StorageTime.Time.AtMost | Storage/Storage.hpp:61-63 | likewise |
| StorageTime.Time.Equal | Storage/Storage.hpp:73-75 | equality of the rational numbers |
| StorageTime.Time.Simplify | Storage/Storage.hpp:44-48 | the same number in the smallest terms there are |
| StorageTime.Time.AddAssign | Storage/Storage.hpp:92-110 | the result is the sum exactly if the 64-bit intermediates fit and the sum is representable |
| StorageTime.Time.Plus | Storage/Storage.hpp:77-90 | likewise |
| StorageTime.Time.SubtractAssign | Storage/Storage.hpp:127-141 | the difference, exactly if it is representable, which one below zero is not |
| StorageTime.Time.MultiplyAssign | Storage/Storage.hpp:149-154 | the product |
| StorageTime.Time.DivideAssign | Storage/Storage.hpp:175-180 | the quotient, or a rate of zero if the divisor is |
| StorageTime.SumsCanWrap | Storage/Storage.hpp:100-107 | intermediates need not fit even for a sum that is a small whole number |
| StorageTime.OneAndOne | Storage/Storage.hpp:100-107 | one and one, at rates of 2^32 - 1 and 2^32 - 2, do not make two |
| Stepper.Stepper.Step | SignalProcessing/Stepper.hpp:49-57 | one step, keeping the identity below |
| Stepper.Stepper.StepMany | SignalProcessing/Stepper.hpp:64-72 | a batch of steps, keeping it too |
| Stepper.NeverDrifts | SignalProcessing/Stepper.hpp:36-72 | after any mix of steps and batches the error is exactly what separates outputs from inputs, and is bounded |
| Stepper.NeverFarApart | SignalProcessing/Stepper.hpp:49-72 | two mixes of the same inputs differ by at most one output, and only if the parts of outputs they make come to two or more whole ones and nothing over |
| Stepper.BatchAgainstSingles | SignalProcessing/Stepper.hpp:64-72 | from any state a batch gives one more output than single steps exactly if it takes the error to a positive multiple of what an output subtracts, and otherwise the same number |
| Stepper.BatchFromStart | SignalProcessing/Stepper.hpp:36-72 | from the start, that is exactly if the parts come to two or more whole outputs and nothing over |
| MC6847.MC6847.RunFor | Components/6847/6847.hpp:248-332 | any count of clocks fetches, draws, sends and signals what so many single clocks would, but for the row preset, which is signalled as for each line's part of the call |
| MC6847.MC6847.LineSpan | Components/6847/6847.hpp:253-326 | what any span of a line fetches, draws, sends and signals, in the source's order |
| MC6847.MC6847.FetchRange | Components/6847/6847.hpp:260-277 | the columns that end within a span are fetched |
| MC6847.MC6847.PixelSpan | Components/6847/6847.cpp:159-332 | what a span of a line of pixels sends |
| MC6847.MC6847.BlankSpan | Components/6847/6847.cpp:334-356 | what a span of any other line sends |
| MC6847.MC6847.ApplyHsync | Components/6847/6847.cpp:384-392 | the row and address at the end of a line |
| MC6847.SpanExtends | Numeric/SegmentCounter.hpp:75-128 | a span and the next clock are the same as the longer span, once equal adjoining levels, of colour and of horizontal sync, are run together |
| MC6847.TicksAdd | Numeric/SegmentCounter.hpp:26-42 | however time is divided into calls all of that comes out the same |
| MC6847.WholeLine | Components/6847/6847.cpp:144-356 | each whole line sends sync, burst, border, pixels and border, or its kind's equivalent, in that order and for 456 clocks, and turns horizontal sync on and then off |
| MC6847.PresetsAgree | Components/6847/6847.hpp:256-302 | the row preset of a line is what single clocks would signal exactly if its row is not the first, or rows are single, or some call ends in clocks 28 to 455 of it |
| MC6847.PresetNotEnded | Components/6847/6847.hpp:302-302 | a line of the first of several rows, run by one call, never ends its preset, and run by single clocks does |
| MC6847.CallsDivideAtLines | Numeric/SegmentCounter.hpp:26-42 | a call past the end of a line signals what two divided there would |
| MC6847.WholeLineFetches | Components/6847/6847.hpp:260-295 | each of the 32 columns of a line is fetched exactly once, in order, from successive addresses |
| MC6847.PixelsOfLine | Components/6847/6847.cpp:177-316 | each of the 32 columns of a line shows the data and mode fetched for it, or for its pair |
| MC6847.RowsRepeat | Components/6847/6847.cpp:384-392 | until all of a line's rows are done its address repeats exactly if it is the beginning of a line, and otherwise, and then, it moves on to the next |
| MC6847.NextLineAligned | Components/6847/6847.cpp:384-392 | a line with pixels leaves the address at the beginning of one, wherever it was |
| MC6847.LinesStayAligned | Components/6847/6847.cpp:379-392 | so in one mode lines go on beginning aligned for ever |

## Left out

- 6845: register selection and writes, the light pen, and interlaced, cursor and sync-width theorems; `run_for` is modelled with all of them, but the frame theorems are for registers left alone from some cycle on and no interlace.
- ARM: multiplication, single transfers, branches, coprocessors, SWI handlers, and prefetch; the bus is a map of words with a set of failing ones, and timing is not modelled.
- ARM: the four templates of a shift with and without carry are one method, whose carry a caller may ignore.
- I2C: the code of peripherals, whose replies are given in advance and whose calls are recorded; a peripheral's address must be even, as the code's mask requires; logging.
- Disassembler: the opcode table, of which only the forms of branches and of undefined opcodes are used; accesses, which are announced but not recorded, beyond the operand bytes read for them; the announced overflow; parsing for other targets.
- Disassembler.Disassembler.Disassemble: the closing bound, in 16 bits, must not be 65535, since then it need not end; what lies on either side of the memory given, where the code would read it, is a parameter.
- MFP68901: reads, the USART, the delegate told of changes of the line, clocking hints, and the dispatch of writes by address other than to the interrupt registers. The timers' modes and prescales are as selected by their control registers.
- DeferredQueue: actions are names, and do not defer or run anything themselves.
- JustInTime: scales in which the object's clocks are finer than the caller's, mapping back, and concurrency checks; a next sequence point of the greatest count there is, which is kept as such; the object's next sequence point is whatever it says when asked.
- AsyncTaskQueue: stopping and destruction, wall-clock performers, and memory orders; the queue is a state machine of values rather than a class because its steps are those of several threads.
- AsyncJustInTime: an actor whose two time scales differ.
- CRC16.Generator.GetValue: says no more than its body, since nothing is reflected or inverted; the tables are maps from bytes, built once for each generator rather than once for all.
- StorageTime: conversion from and to floating point, arithmetic with whole numbers, and `operator -`, `*` and `/`, which install the same results as the compound forms; numbers too great for the greatest `Time`, which becomes it, are bounded on one side only.
- Stepper: 64-bit overflow.
- MC6847: changes of mode, which `set_mode` makes between calls; the pixels that a column's data become, the font and the palettes; an output buffer that the CRT does not grant; repeats of a signal's level, which say nothing new; the order of the row preset among the other signals; sequence points.
- MC6847.WholeLine: the burst's phase is not distinguished.
- Everything that presents, stores or configures a machine, and all other components.
