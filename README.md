# AES-encryption-uart: the two bare-metal DMA test programs, modelled in Dafny

The repository drives a hardware AES-128 cipher block on a Zynq FPGA through an
AXI DMA engine. Two bare-metal C programs exercise it:

- `vitis_bare_metal_c/dma_axis_fifo_vitis_test.c` is the logic-analyser (ILA) debug
  program. It sends 32 bytes of 0xFF through the IP in one round trip. Before
  arming the DMA it holds at an operator gate, so that an ILA can be armed. It then
  compares the 32 bytes that came back with the 32 that were sent.
- `vitis_bare_metal_c/bare_metal_driver.c` is the back-pressure test. It loads an
  all-zero key into the IP's registers and waits for the key expansion. It waits at
  the gate, then sends four copies of one 16-byte block in a single 64-byte round
  trip. Each received block is judged against the byte-reversed expected
  ciphertext.

The model has five modules:

- `Bytes` (`bytes.dfy`) has the `u8` type and byte reversal. It also has the three
  `<string.h>` routines the programs use: `memcpy` and `memset` as methods on
  arrays, and `memcmp` as a function with its sign contract.
- `Hardware` (`hardware.dfy`) has the class `Machine`. It owns the two global
  buffers `TxBuffer` and `RxBuffer` as arrays. Each vendor routine is one of its
  methods, and each appends an event to a ghost `trace`:
  - `Xil_DCacheFlushRange` and `Xil_DCacheInvalidateRange`;
  - `XAxiDma_SimpleTransfer` and `XAxiDma_Busy`;
  - `Xil_Out32` and `Xil_In32`;
  - `inbyte`;
  - the processor's loads from `RxBuffer`.

  What the hardware answers is the machine's environment, fixed when it is built
  and otherwise arbitrary:
  - the keys the operator will type;
  - the values of the coming register reads;
  - how many polls each DMA direction stays busy;
  - the bytes the IP emits. The device writes these into `RxBuffer` when the
    receive direction first reports idle.

  The module also holds the completion loop `while (XAxiDma_Busy(...));` shared by
  both programs.
- `Protocol` (`protocol.dfy`) states the round-trip discipline as predicates over a
  trace, each for every transfer in the trace:
  - a flush of the same bytes before every send;
  - an invalidate before every receive;
  - the receive direction armed before the send direction, and still running
    when the send is armed;
  - before any read of received bytes: an idle answer from the receive direction
    after its arming, an idle answer from the send direction after every send
    armed so far, and then an invalidate.

  It also holds the round trip both programs perform, and the proof that the shape
  of every session both programs run satisfies the discipline.
- `DmaFifoTest` (`dma_fifo_test.dfy`) is `main` and `wait_for_ila_setup` of the ILA
  debug program.
- `BareMetalDriver` (`bare_metal_driver.dfy`) is `run_backpressure_test`, `main`'s
  key load and `wait_for_ila_setup` of the back-pressure program.

The two programs use the same global names but are separate programs, so each is
its own module. A module's `RunMain` is its program's `main` after the DMA engine
has been initialised. It returns the exit code together with the verdicts the
program prints.

## Model

| member | source | states |
|---|---|---|
| Bytes.Reverse | vitis_bare_metal_c/bare_metal_driver.c:106-116 | the reversal has the input's length and puts the input's byte `n-1-i` at position `i`, for an input of length `n` |
| Bytes.ReverseReverse | vitis_bare_metal_c/bare_metal_driver.c:106-116 | reversing twice gives back the original, so original and reversed ciphertext determine each other |
| Bytes.ReverseByIndex | vitis_bare_metal_c/bare_metal_driver.c:111-116 | any sequence holding the bytes of `s` back to front is the reversal of `s` |
| Bytes.MemCmp | vitis_bare_metal_c/dma_axis_fifo_vitis_test.c:158 | memcmp is zero exactly when the two ranges are equal; otherwise its sign is that of the first differing pair of bytes, compared unsigned |
| Bytes.MemCpy | vitis_bare_metal_c/bare_metal_driver.c:120 | memcpy overwrites exactly the range of `src`'s length starting at `off` with `src` and leaves every other byte unchanged |
| Bytes.MemSet | vitis_bare_metal_c/bare_metal_driver.c:124 | memset sets the first `n` bytes to the value and leaves the rest unchanged |
| Hardware.Machine.constructor | vitis_bare_metal_c/bare_metal_driver.c:75-76 | after reset both global buffers are zero, both DMA directions idle and nothing has happened yet |
| Hardware.Machine.DCacheFlushRange | vitis_bare_metal_c/dma_axis_fifo_vitis_test.c:129 | a flush records the range and the bytes written back |
| Hardware.Machine.DCacheInvalidateRange | vitis_bare_metal_c/dma_axis_fifo_vitis_test.c:130 | an invalidate records the range and changes no byte |
| Hardware.Machine.SimpleTransfer | vitis_bare_metal_c/dma_axis_fifo_vitis_test.c:144-145 | a transfer is accepted exactly when its direction is idle; the direction then runs over that buffer and length, and the arm records the buffer's bytes at that moment |
| Hardware.Machine.Busy | vitis_bare_metal_c/dma_axis_fifo_vitis_test.c:148-149 | a poll answers busy exactly while that direction's stall lasts; the first idle answer ends the transfer, and for the receive direction puts the device's output at the start of its buffer |
| Hardware.Machine.InByte | vitis_bare_metal_c/dma_axis_fifo_vitis_test.c:81 | inbyte returns the next typed key and consumes it |
| Hardware.Machine.Out32 | vitis_bare_metal_c/bare_metal_driver.c:169-174 | a register write is recorded with its offset and value |
| Hardware.Machine.In32 | vitis_bare_metal_c/bare_metal_driver.c:175 | a register read returns and consumes the next value the IP gives |
| Hardware.Machine.LoadRx | vitis_bare_metal_c/bare_metal_driver.c:150-151 | a load from RxBuffer returns exactly those bytes and records the range |
| Hardware.FirstWhere | vitis_bare_metal_c/dma_axis_fifo_vitis_test.c:79-82 | the position returned satisfies the condition and no earlier one does |
| Hardware.UpToFirst | vitis_bare_metal_c/dma_axis_fifo_vitis_test.c:79-82 | what a read-until loop consumes is a non-empty prefix of the input; its last element satisfies the condition and no earlier one does |
| Hardware.KeyEventsAreKeys | vitis_bare_metal_c/dma_axis_fifo_vitis_test.c:79-82 | the gate produces only key reads |
| Hardware.RegReadEventsAreReads | vitis_bare_metal_c/bare_metal_driver.c:175 | the status poll produces only register reads |
| Hardware.PollUntilIdle | vitis_bare_metal_c/dma_axis_fifo_vitis_test.c:148-149 | the busy loop returns after exactly `stall` busy answers and one idle answer; that direction is then idle, and the buffers hold what its completion leaves |
| Protocol.RoundTrip | vitis_bare_metal_c/dma_axis_fifo_vitis_test.c:144-152 | the receive direction is armed before the send direction and both are polled idle before RxBuffer is invalidated; TxBuffer is not written, RxBuffer's first `len` bytes become the device output and the rest is kept; both directions end idle |
| Protocol.ArmBoth | vitis_bare_metal_c/bare_metal_driver.c:131-132 | S2MM into RxBuffer is armed first, then MM2S from TxBuffer, both for `len` bytes, both accepted |
| Protocol.AwaitBoth | vitis_bare_metal_c/bare_metal_driver.c:135-136 | the send direction is polled idle first, then the receive direction; the received bytes land in RxBuffer and TxBuffer is unchanged |
| Protocol.TransferLayout | vitis_bare_metal_c/dma_axis_fifo_vitis_test.c:144-152 | where each event of a round trip sits: two arms, then only polls, with an idle answer from each direction, then the invalidate |
| Protocol.TransferEventKinds | vitis_bare_metal_c/bare_metal_driver.c:131-138 | a round trip produces only arms, polls and invalidates, and every arm is for the round trip's length (where each sits, and that there is one invalidate, is `Protocol.TransferLayout`) |
| Protocol.SessionLayout | vitis_bare_metal_c/dma_axis_fifo_vitis_test.c:129-152 | where each event of a session sits: flush, invalidate, the gate, the arms, the polls and the final invalidate |
| Protocol.ShapedFlushBeforeSend | vitis_bare_metal_c/dma_axis_fifo_vitis_test.c:129-145 | in a trace of the session's shape, every send is preceded by a flush of the same range holding the same bytes |
| Protocol.ShapedInvalidateBeforeReceive | vitis_bare_metal_c/dma_axis_fifo_vitis_test.c:130-144 | in a trace of the session's shape, every receive is preceded by an invalidate of the same range |
| Protocol.ShapedReceiveArmedFirst | vitis_bare_metal_c/dma_axis_fifo_vitis_test.c:144-145 | in a trace of the session's shape, every send is preceded by a receive of the same length with no idle answer from the receive direction in between |
| Protocol.ShapedReadAfterCompletion | vitis_bare_metal_c/dma_axis_fifo_vitis_test.c:148-158 | in a trace of the session's shape, every read of RxBuffer made after a receive is armed follows an idle answer from the receive direction after that arm and one from the send direction after every send arm, and then an invalidate of the received range, and stays inside that range; reads before the arm (the ILA program's pre-transfer print) are not constrained |
| Protocol.ShapedFollowsDiscipline | vitis_bare_metal_c/dma_axis_fifo_vitis_test.c:129-158 | a trace of the session's shape keeps the whole discipline |
| Protocol.SessionFollowsDiscipline | vitis_bare_metal_c/bare_metal_driver.c:127-153 | a session whose gate and whose preceding events arm nothing and whose following events are only reads of the received range keeps the whole discipline |
| Protocol.EarlyCompletionRejected | vitis_bare_metal_c/dma_axis_fifo_vitis_test.c:144-155 | a trace whose receive completes before the send is armed, and whose RxBuffer is invalidated and read with no idle answer for the send, breaks both the arm-order rule and the read-after-completion rule |
| DmaFifoTest.PrepareTestData | vitis_bare_metal_c/dma_axis_fifo_vitis_test.c:119-122 | after the fill loop every one of the 32 TxBuffer bytes is 0xFF and every RxBuffer byte is 0x00 |
| DmaFifoTest.PrepareAndFlush | vitis_bare_metal_c/dma_axis_fifo_vitis_test.c:119-130 | the fill, the print of RxBuffer, then the flush of exactly the filled TxBuffer bytes and the invalidate of RxBuffer |
| DmaFifoTest.WaitForIlaSetup | vitis_bare_metal_c/dma_axis_fifo_vitis_test.c:79-82 | the gate returns only after reading a non-zero byte; the zero bytes before it are consumed and ignored, and nothing after it is read |
| DmaFifoTest.TransferAndCompare | vitis_bare_metal_c/dma_axis_fifo_vitis_test.c:144-162 | after the round trip TxBuffer is unchanged, RxBuffer holds the device output, both directions are idle again and neither has busy polls left; the verdict is SUCCESS exactly when all 32 RxBuffer bytes equal the TxBuffer bytes |
| DmaFifoTest.RunMain | vitis_bare_metal_c/dma_axis_fifo_vitis_test.c:105-166 | TxBuffer still holds the 32 bytes of 0xFF at the end; both directions end idle with no busy polls left; the verdict is SUCCESS exactly when RxBuffer equals TxBuffer; the exit code is 0 either way; the events are the fill's print, flush, invalidate, gate, round trip, print and compare, in that order |
| DmaFifoTest.MainTraceInSteps | vitis_bare_metal_c/dma_axis_fifo_vitis_test.c:119-162 | proof step: the events main appends one step after another concatenate to its trace; it models no source line of its own |
| DmaFifoTest.MainFollowsDiscipline | vitis_bare_metal_c/dma_axis_fifo_vitis_test.c:129-158 | every run of main keeps the whole flush / arm / poll / invalidate discipline |
| DmaFifoTest.MaintenanceBeforeGateAndArms | vitis_bare_metal_c/dma_axis_fifo_vitis_test.c:129-145 | the flush of the 0xFF bytes and the invalidate of RxBuffer come before every key read and every arm, every key read comes before every arm, and both arms are for 32 bytes |
| BareMetalDriver.PatternIsReversedPlaintext | vitis_bare_metal_c/bare_metal_driver.c:98-103 | the block sent is the plaintext named in the comment, byte-reversed, and conversely |
| BareMetalDriver.GoldReversedIsReversal | vitis_bare_metal_c/bare_metal_driver.c:106-116 | `gold_reversed` is exactly the byte-reversal of `gold_original`, and conversely |
| BareMetalDriver.RepeatedBlocks | vitis_bare_metal_c/bare_metal_driver.c:119-121 | each of the four blocks of four copies of a block is that block |
| BareMetalDriver.BlocksDetermine | vitis_bare_metal_c/bare_metal_driver.c:119-121 | a 64-byte stream whose four blocks all equal one block is four copies of it |
| BareMetalDriver.TxStreamBlocks | vitis_bare_metal_c/bare_metal_driver.c:119-121 | every block of the stream sent is the pattern |
| BareMetalDriver.Verdict | vitis_bare_metal_c/bare_metal_driver.c:151 | a block is PASS exactly when its 16 bytes equal the expected block |
| BareMetalDriver.BlockResults | vitis_bare_metal_c/bare_metal_driver.c:147-153 | there are four verdicts, and verdict `i` is PASS exactly when block `i` of the received bytes equals the expected block, whatever the other blocks hold |
| BareMetalDriver.AllPassExactly | vitis_bare_metal_c/bare_metal_driver.c:147-153 | all four blocks pass exactly when the 64 received bytes are the expected block four times over |
| BareMetalDriver.OriginalOrderFails | vitis_bare_metal_c/bare_metal_driver.c:106-152 | a block equal to `gold_original` is judged FAIL: only the reversed copy decides |
| BareMetalDriver.BuildTxBuffer | vitis_bare_metal_c/bare_metal_driver.c:119-121 | after the copy loop TxBuffer[0..64) is four copies of the block and TxBuffer[64..128) is unchanged |
| BareMetalDriver.PrepareBuffers | vitis_bare_metal_c/bare_metal_driver.c:119-128 | TxBuffer[0..64) is four copies of the pattern and RxBuffer[0..64) zero, the upper halves of both are unchanged, and exactly those 64 bytes are flushed and invalidated |
| BareMetalDriver.JudgeBlock | vitis_bare_metal_c/bare_metal_driver.c:150-152 | one pass of the block loop reads block `i` of RxBuffer twice and gives its verdict |
| BareMetalDriver.JudgeBlocks | vitis_bare_metal_c/bare_metal_driver.c:147-153 | the block loop gives the four independent verdicts on RxBuffer[0..64), reading each block twice in block order |
| BareMetalDriver.BlockReadsInBounds | vitis_bare_metal_c/bare_metal_driver.c:147-153 | the block loop reads only RxBuffer, and only inside the blocks it has judged |
| BareMetalDriver.TestTraceInSteps | vitis_bare_metal_c/bare_metal_driver.c:119-153 | proof step: the events run_backpressure_test appends one step after another concatenate to its trace; it models no source line of its own |
| BareMetalDriver.RunBackpressureTest | vitis_bare_metal_c/bare_metal_driver.c:95-154 | the stream sent is four copies of the pattern; both directions end idle with no busy polls left; RxBuffer[0..64) ends as the device output and both upper halves keep what they held; the verdicts are the four block comparisons of the device output against `gold_reversed`; the events are the session then the block reads |
| BareMetalDriver.WriteKey | vitis_bare_metal_c/bare_metal_driver.c:169-174 | zero is written to key offsets 0x00, 0x04, 0x08 and 0x0C in that order, then 1 and then 0 to control offset 0x14 |
| BareMetalDriver.AwaitKeyExpansion | vitis_bare_metal_c/bare_metal_driver.c:175 | the status loop reads offset 0x18 until a value with bit 1 set arrives and reads nothing after it |
| BareMetalDriver.LoadKey | vitis_bare_metal_c/bare_metal_driver.c:169-175 | the six key-load writes, then the status reads up to and including the first that reports the expansion done |
| BareMetalDriver.WaitForIlaSetup | vitis_bare_metal_c/bare_metal_driver.c:84 | the gate returns only after reading a non-zero byte; the zero bytes before it are consumed and ignored, and nothing after it is read |
| BareMetalDriver.LoadKeyAndWait | vitis_bare_metal_c/bare_metal_driver.c:169-178 | the key load and its status poll, then the gate; the register values after the first that reports done, and the keys after the first non-zero one, are left unread |
| BareMetalDriver.RunMain | vitis_bare_metal_c/bare_metal_driver.c:156-185 | both directions end idle with no busy polls left; TxBuffer[0..64) is four copies of the pattern and RxBuffer[0..64) the device output, while both upper halves keep what they held; the verdicts are those of the four blocks of the device output against `gold_reversed`; the exit code is 0 whatever they are; the register values and keys after those the loops stop at are left unread; the events are the key load, the status reads, the gate and the test, in that order |
| BareMetalDriver.MainTraceInSteps | vitis_bare_metal_c/bare_metal_driver.c:169-181 | proof step: the events main appends one step after another concatenate to its trace; it models no source line of its own |
| BareMetalDriver.MainFollowsDiscipline | vitis_bare_metal_c/bare_metal_driver.c:127-153 | every run of main keeps the whole flush / arm / poll / invalidate discipline |
| BareMetalDriver.TestTraceEvents | vitis_bare_metal_c/bare_metal_driver.c:127-153 | run_backpressure_test issues only cache operations, arms, polls and reads of RxBuffer, and both arms are for 64 bytes |
| BareMetalDriver.MainTraceLayout | vitis_bare_metal_c/bare_metal_driver.c:169-181 | main's events are the six writes, then the status reads, then the key reads, then the test's events |
| BareMetalDriver.KeyLoadedBeforeTest | vitis_bare_metal_c/bare_metal_driver.c:169-181 | the first six events are the key load; no register is written after them; the status read that reports bit 1 set comes before every key read, cache operation and arm; the arms are for 64 bytes, within the 128-byte buffers |

## Left out

- Console output: every `xil_printf`, `print_buffer` and `print_hex`. The loads of
  RxBuffer these make for printing are kept, as `RxRead` events, because the
  ordering rules are about them. The prints of TxBuffer and of the constant
  golden blocks read no received data and are not recorded.
- DMA initialisation (`XAxiDma_LookupConfig`, `XAxiDma_CfgInitialize`) and the
  disabling of interrupts. The model starts from an engine with both directions
  idle.
- The `aligned` attributes of the two buffers. These concern memory layout, not
  logic.
- The data cache itself. A flush and an invalidate are recorded as events; memory
  is a single copy, so the discipline is stated over the order of events, not over
  cached contents.
- The AES-128 cipher (FIPS 197). It runs in the FPGA. The bytes the IP returns are
  an arbitrary environment input, and the expected ciphertexts are constants that
  are not derived.
- `AES_BASE`, a board-support constant. Register addresses are modelled as offsets
  from it.
- Hangs. `Hardware.PollUntilIdle` assumes each direction eventually reports idle
  (after the machine's `stall` count). The gates and `BareMetalDriver.AwaitKeyExpansion`
  require that a satisfying key or status value eventually arrives. The programs
  themselves have no timeout and hang on hardware that never answers. That case is
  outside the model.
- The result of `XAxiDma_SimpleTransfer` is ignored, as in the source
  (`Protocol.ArmBoth`). Both directions are idle on entry, so both arms are accepted.
- Choices the code makes that the model keeps as they are:
  - Only `gold_reversed` decides a block's verdict. `gold_original` is printed and
    never compared, and no matched candidate is reported
    (`BareMetalDriver.OriginalOrderFails`).
  - `memset` clears RxBuffer[0..64) of 128; the upper 64 bytes keep what they held
    (`BareMetalDriver.PrepareBuffers`).
  - The block sent is the commented plaintext byte-reversed
    (`BareMetalDriver.PatternIsReversedPlaintext`). There is no capacity check,
    since the constant length 64 fits the 128-byte buffers.
