/**
 * The back-pressure test program (vitis_bare_metal_c/bare_metal_driver.c):
 * load an all-zero AES-128 key into the cipher IP and wait for its key
 * expansion, hold at an operator gate, then send four copies of one 16-byte
 * block through the IP in a single 64-byte round trip and judge each of the
 * four received blocks against the byte-reversed expected ciphertext.
 */
module BareMetalDriver {
  import opened Bytes
  import opened Hardware
  import Protocol

  /** Both global buffers hold 128 bytes; only the first 64 take part in the test. */
  const BufferSize: nat := 128
  /** An AES block. */
  const BlockSize: nat := 16
  /** The number of blocks in the round trip. */
  const BlockCount: nat := 4
  /** The length of the round trip: four blocks. */
  const TransferLen: nat := 64

  /** The key-word registers, relative to the cipher IP's base address. */
  const KeyWord0: word := 0x00
  const KeyWord1: word := 0x04
  const KeyWord2: word := 0x08
  const KeyWord3: word := 0x0C
  /** The control register; writing 1 and then 0 starts the key expansion. */
  const Control: word := 0x14
  /** The status register; bit 1 reports that the key expansion is done. */
  const Status: word := 0x18

  /** The per-block verdict the program prints. */
  datatype BlockResult = Pass | Fail

  /** The plaintext the comment above the pattern names: 00 11 22 ... FF. */
  function Plaintext(): seq<byte>
  {
    [0x00, 0x11, 0x22, 0x33, 0x44, 0x55, 0x66, 0x77, 0x88, 0x99, 0xAA, 0xBB, 0xCC, 0xDD, 0xEE, 0xFF]
  }

  /** The block the program actually sends. */
  function Pattern(): seq<byte>
  {
    [0xFF, 0xEE, 0xDD, 0xCC, 0xBB, 0xAA, 0x99, 0x88, 0x77, 0x66, 0x55, 0x44, 0x33, 0x22, 0x11, 0x00]
  }

  /** The expected ciphertext in the order it was given. */
  function GoldOriginal(): seq<byte>
  {
    [0xc8, 0xa3, 0x31, 0xff, 0x8e, 0xdd, 0x3d, 0xb1, 0x75, 0xe1, 0x54, 0x5d, 0xbe, 0xfb, 0x76, 0x0b]
  }

  /** The expected ciphertext the blocks are judged against. */
  function GoldReversed(): seq<byte>
  {
    [0x0b, 0x76, 0xfb, 0xbe, 0x5d, 0x54, 0xe1, 0x75, 0xb1, 0x3d, 0xdd, 0x8e, 0xff, 0x31, 0xa3, 0xc8]
  }

  /** The block sent is the commented plaintext byte-reversed, and conversely. */
  lemma PatternIsReversedPlaintext()
    ensures Pattern() == Reverse(Plaintext()) && Plaintext() == Reverse(Pattern())
  {
    var p, r := Plaintext(), Pattern();
    forall i | 0 <= i < 16
      ensures r[i] == p[15 - i]
    {
    }
    ReverseByIndex(p, r);
    ReverseReverse(p);
  }

  /** The expected block used for judging is the given ciphertext byte-reversed, and conversely. */
  lemma GoldReversedIsReversal()
    ensures GoldReversed() == Reverse(GoldOriginal()) && GoldOriginal() == Reverse(GoldReversed())
  {
    var g, r := GoldOriginal(), GoldReversed();
    forall i | 0 <= i < 16
      ensures r[i] == g[15 - i]
    {
    }
    ReverseByIndex(g, r);
    ReverseReverse(g);
  }

  /** The 64 bytes the round trip sends: the pattern four times over. */
  function TxStream(): seq<byte>
  {
    Pattern() + Pattern() + Pattern() + Pattern()
  }

  /** Block `i` (0 to 3) of a 64-byte stream. */
  function BlockOf(s: seq<byte>, i: nat): seq<byte>
    requires |s| == TransferLen && i < BlockCount
  {
    s[16 * i..16 * i + 16]
  }

  /** Every block of four copies of a block is that block. */
  lemma {:induction false} RepeatedBlocks(p: seq<byte>)
    requires |p| == BlockSize
    ensures |p + p + p + p| == TransferLen
    ensures forall i :: 0 <= i < BlockCount ==> BlockOf(p + p + p + p, i) == p
  {
    var s := p + p + p + p;
    forall i | 0 <= i < BlockCount
      ensures BlockOf(s, i) == p
    {
      forall k | 0 <= k < 16
        ensures s[16 * i + k] == p[k]
      {
        if i == 0 {
        } else if i == 1 {
        } else if i == 2 {
        } else {
        }
      }
    }
  }

  /** A 64-byte stream whose four blocks are all `p` is four copies of `p`. */
  lemma {:induction false} BlocksDetermine(s: seq<byte>, p: seq<byte>)
    requires |s| == TransferLen && |p| == BlockSize
    requires forall i :: 0 <= i < BlockCount ==> BlockOf(s, i) == p
    ensures s == p + p + p + p
  {
    var t := p + p + p + p;
    RepeatedBlocks(p);
    forall n | 0 <= n < TransferLen
      ensures s[n] == t[n]
    {
      var i := if n < 16 then 0 else if n < 32 then 1 else if n < 48 then 2 else 3;
      assert s[n] == BlockOf(s, i)[n - 16 * i];
      assert t[n] == BlockOf(t, i)[n - 16 * i];
    }
  }

  /** Every block of the stream sent is the pattern. */
  lemma TxStreamBlocks()
    ensures |TxStream()| == TransferLen
    ensures forall i :: 0 <= i < BlockCount ==> BlockOf(TxStream(), i) == Pattern()
  {
    RepeatedBlocks(Pattern());
  }

  /**
   * The verdict on one received block: memcmp against the expected block,
   * PASS exactly when the 16 bytes are equal.
   */
  function Verdict(block: seq<byte>, expected: seq<byte>): (r: BlockResult)
    requires |block| == |expected|
    ensures r == Pass <==> block == expected
  {
    if MemCmp(block, expected) == 0 then Pass else Fail
  }

  /** The verdicts of the per-block loop over the 64 received bytes, block by block. */
  function BlockResults(received: seq<byte>, expected: seq<byte>): (r: seq<BlockResult>)
    requires |received| == TransferLen && |expected| == BlockSize
    ensures |r| == BlockCount
    ensures forall i :: 0 <= i < BlockCount ==> (r[i] == Pass <==> BlockOf(received, i) == expected)
  {
    seq(BlockCount, i requires 0 <= i < BlockCount => Verdict(BlockOf(received, i), expected))
  }

  /** All four blocks pass exactly when the 64 received bytes are the expected block four times over. */
  lemma AllPassExactly(received: seq<byte>, expected: seq<byte>)
    requires |received| == TransferLen && |expected| == BlockSize
    ensures (forall i :: 0 <= i < BlockCount ==> BlockResults(received, expected)[i] == Pass)
            <==> received == expected + expected + expected + expected
  {
    var r := BlockResults(received, expected);
    RepeatedBlocks(expected);
    if forall i :: 0 <= i < BlockCount ==> r[i] == Pass {
      forall i | 0 <= i < BlockCount
        ensures BlockOf(received, i) == expected
      {
        assert r[i] == Pass;
      }
      BlocksDetermine(received, expected);
    }
  }

  /**
   * Blocks are judged against the reversed ciphertext only: a block that came
   * back in the order the ciphertext was given fails.
   */
  lemma OriginalOrderFails()
    ensures Verdict(GoldOriginal(), GoldReversed()) == Fail
  {
    assert GoldOriginal()[0] != GoldReversed()[0];
  }

  /** The transmit buffer is built from four memcpy calls of `block`. */
  method BuildTxBuffer(m: Machine, block: seq<byte>)
    requires m.tx.Length == BufferSize && |block| == BlockSize
    modifies m.tx
    ensures m.tx[..TransferLen] == block + block + block + block
    ensures m.tx[TransferLen..] == old(m.tx[TransferLen..])
  {
    for i := 0 to BlockCount
      invariant forall b :: 0 <= b < i ==> m.tx[16 * b..16 * b + 16] == block
      invariant forall k :: 16 * i <= k < BufferSize ==> m.tx[k] == old(m.tx[k])
    {
      ghost var before := m.tx[..];
      MemCpy(m.tx, 16 * i, block);
      forall b | 0 <= b < i
        ensures m.tx[16 * b..16 * b + 16] == block
      {
        assert m.tx[16 * b..16 * b + 16] == before[16 * b..16 * b + 16];
      }
    }
    assert m.tx[TransferLen..] == old(m.tx[TransferLen..]) by {
      forall k | TransferLen <= k < BufferSize
        ensures m.tx[k] == old(m.tx[k])
      {
      }
    }
    ghost var sent := m.tx[..TransferLen];
    forall b | 0 <= b < BlockCount
      ensures BlockOf(sent, b) == block
    {
      assert BlockOf(sent, b) == m.tx[16 * b..16 * b + 16];
    }
    BlocksDetermine(sent, block);
  }

  /**
   * The per-block loop: each block of RxBuffer is read twice, once printed and
   * once compared by memcmp with the expected block.
   */
  method JudgeBlocks(m: Machine, expected: seq<byte>) returns (results: seq<BlockResult>)
    requires m.rx.Length == BufferSize && |expected| == BlockSize
    modifies m`trace
    ensures results == BlockResults(m.rx[..TransferLen], expected)
    ensures m.trace == old(m.trace) + BlockReads(BlockCount)
  {
    ghost var all := BlockResults(m.rx[..TransferLen], expected);
    results := [];
    for i := 0 to BlockCount
      invariant results == all[..i]
      invariant m.trace == old(m.trace) + BlockReads(i)
    {
      var verdict := JudgeBlock(m, i, expected);
      results := results + [verdict];
      assert all[..i + 1] == all[..i] + [all[i]];
    }
    assert all[..BlockCount] == all;
  }

  /** One pass of the per-block loop: block `i` of RxBuffer is printed, then read again and judged. */
  method JudgeBlock(m: Machine, i: nat, expected: seq<byte>) returns (verdict: BlockResult)
    requires m.rx.Length == BufferSize && i < BlockCount && |expected| == BlockSize
    modifies m`trace
    ensures verdict == BlockResults(m.rx[..TransferLen], expected)[i]
    ensures m.trace == old(m.trace) + [RxRead(16 * i, 16), RxRead(16 * i, 16)]
  {
    ghost var received := m.rx[..TransferLen];
    var shown := m.LoadRx(16 * i, 16);
    var block := m.LoadRx(16 * i, 16);
    assert block == BlockOf(received, i) by {
      forall k | 0 <= k < 16
        ensures block[k] == received[16 * i + k]
      {
      }
    }
    verdict := if MemCmp(block, expected) == 0 then Pass else Fail;
  }

  /** The reads of RxBuffer the per-block loop makes for its first `n` blocks: two of each, in block order. */
  ghost function BlockReads(n: nat): seq<Event>
  {
    if n == 0 then [] else BlockReads(n - 1) + [RxRead(16 * (n - 1), 16), RxRead(16 * (n - 1), 16)]
  }

  /** The per-block loop reads RxBuffer only, and only within the first `n` blocks. */
  lemma {:induction false} BlockReadsInBounds(n: nat)
    ensures forall e :: e in BlockReads(n) ==> e.RxRead? && e.lo + e.len <= 16 * n
  {
    if n > 0 {
      BlockReadsInBounds(n - 1);
      forall e | e in BlockReads(n)
        ensures e.RxRead? && e.lo + e.len <= 16 * n
      {
        if e in BlockReads(n - 1) {
        }
      }
    }
  }

  /** Everything run_backpressure_test does, when the two directions stay busy for the given numbers of polls. */
  ghost function TestTrace(sendBusy: nat, receiveBusy: nat): seq<Event>
  {
    Protocol.Session(TransferLen, TxStream(), Fill(TransferLen, 0), [], sendBusy, receiveBusy) + BlockReads(BlockCount)
  }

  /** TestTrace as run_backpressure_test builds it, one step after another. */
  lemma TestTraceInSteps(before: seq<Event>, sendBusy: nat, receiveBusy: nat)
    ensures before + [Flush(Tx, TransferLen, TxStream()), Invalidate(Rx, TransferLen)]
            + Protocol.TransferEvents(TransferLen, TxStream(), Fill(TransferLen, 0), sendBusy, receiveBusy)
            + BlockReads(BlockCount)
         == before + TestTrace(sendBusy, receiveBusy)
  {
  }

  /**
   * run_backpressure_test: build the four-block stream, clear the first 64
   * bytes of RxBuffer (the other 64 keep what they held), flush and
   * invalidate, run the round trip, and judge the four received blocks.
   */
  method RunBackpressureTest(m: Machine) returns (results: seq<BlockResult>)
    requires m.Valid() && m.tx.Length == BufferSize && m.rx.Length == BufferSize
    requires m.channel[DmaToDevice] == Idle && m.channel[DeviceToDma] == Idle
    modifies m`stall, m`channel, m`trace, m.tx, m.rx
    ensures m.Valid() && m.channel == old(m.channel) && m.stall == old(m.stall)[DmaToDevice := 0][DeviceToDma := 0]
    ensures m.tx[..TransferLen] == TxStream() && m.tx[TransferLen..] == old(m.tx[TransferLen..])
    ensures m.rx[..TransferLen] == m.deviceOut[..TransferLen] && m.rx[TransferLen..] == old(m.rx[TransferLen..])
    ensures results == BlockResults(m.deviceOut[..TransferLen], GoldReversed())
    ensures m.trace == old(m.trace) + TestTrace(old(m.stall[DmaToDevice]), old(m.stall[DeviceToDma]))
  {
    ghost var sendBusy := m.stall[DmaToDevice];
    ghost var receiveBusy := m.stall[DeviceToDma];
    PrepareBuffers(m);
    Protocol.RoundTrip(m, TransferLen);
    assert m.rx[..TransferLen] == m.deviceOut[..TransferLen];
    results := JudgeBlocks(m, GoldReversed());
    TestTraceInSteps(old(m.trace), sendBusy, receiveBusy);
  }

  /**
   * The first part of run_backpressure_test: build the four-block stream,
   * clear the first 64 bytes of RxBuffer (the other 64 keep what they held),
   * flush TxBuffer and invalidate RxBuffer over those 64 bytes.
   */
  method PrepareBuffers(m: Machine)
    requires m.Valid() && m.tx.Length == BufferSize && m.rx.Length == BufferSize
    modifies m`trace, m.tx, m.rx
    ensures m.tx[..TransferLen] == TxStream() && m.tx[TransferLen..] == old(m.tx[TransferLen..])
    ensures m.rx[..TransferLen] == Fill(TransferLen, 0) && m.rx[TransferLen..] == old(m.rx[TransferLen..])
    ensures m.trace == old(m.trace) + [Flush(Tx, TransferLen, TxStream()), Invalidate(Rx, TransferLen)]
  {
    BuildTxBuffer(m, Pattern());
    MemSet(m.rx, 0, TransferLen);
    m.DCacheFlushRange(Tx, TransferLen);
    m.DCacheInvalidateRange(Rx, TransferLen);
  }

  /** The six register writes of main: the all-zero key, then a start pulse on the control register. */
  ghost function KeyLoadWrites(): seq<Event>
  {
    [RegWrite(KeyWord0, 0), RegWrite(KeyWord1, 0), RegWrite(KeyWord2, 0), RegWrite(KeyWord3, 0),
     RegWrite(Control, 1), RegWrite(Control, 0)]
  }

  /** Bit 1 of the status register: the key expansion is done. */
  predicate ExpansionDone(status: word)
  {
    status & 0x02 != 0
  }

  /**
   * main's key load: write the four key words as zero, pulse the start bit,
   * then read the status register until bit 1 is set. The reads before it are
   * ignored; nothing after it is read.
   */
  method LoadKey(m: Machine)
    requires exists i :: 0 <= i < |m.regReads| && ExpansionDone(m.regReads[i])
    modifies m`regReads, m`trace
    ensures m.regReads == old(m.regReads)[|UpToFirst(old(m.regReads), ExpansionDone)|..]
    ensures m.trace == old(m.trace) + KeyLoadWrites() + RegReadEvents(Status, UpToFirst(old(m.regReads), ExpansionDone))
  {
    ghost var done := FirstWhere(m.regReads, ExpansionDone);
    WriteKey(m);
    assert ExpansionDone(m.regReads[done]);
    AwaitKeyExpansion(m);
  }

  /** The four key words are written as zero, then the start bit is pulsed. */
  method WriteKey(m: Machine)
    modifies m`trace
    ensures m.trace == old(m.trace) + KeyLoadWrites()
  {
    m.Out32(KeyWord0, 0);
    m.Out32(KeyWord1, 0);
    m.Out32(KeyWord2, 0);
    m.Out32(KeyWord3, 0);
    m.Out32(Control, 0x1);
    m.Out32(Control, 0x0);
  }

  /** `while ((Xil_In32(AES_BASE + 0x18) & 0x02) == 0);` */
  method AwaitKeyExpansion(m: Machine)
    requires exists i :: 0 <= i < |m.regReads| && ExpansionDone(m.regReads[i])
    modifies m`regReads, m`trace
    ensures m.regReads == old(m.regReads)[|UpToFirst(old(m.regReads), ExpansionDone)|..]
    ensures m.trace == old(m.trace) + RegReadEvents(Status, UpToFirst(old(m.regReads), ExpansionDone))
  {
    ghost var values := m.regReads;
    ghost var n := 0;
    var status: word := 0;
    while !ExpansionDone(status)
      invariant 0 <= n <= |UpToFirst(values, ExpansionDone)|
      invariant m.regReads == values[n..]
      invariant m.trace == old(m.trace) + RegReadEvents(Status, values[..n])
      invariant !ExpansionDone(status) <==> n < |UpToFirst(values, ExpansionDone)|
      decreases |m.regReads|
    {
      status := m.In32(Status);
      assert RegReadEvents(Status, values[..n + 1]) == RegReadEvents(Status, values[..n]) + [RegRead(Status, values[n])];
      n := n + 1;
    }
    assert values[..n] == UpToFirst(values, ExpansionDone);
  }

  /**
   * wait_for_ila_setup: read the UART until a non-zero byte arrives. The zero
   * bytes before it are read and ignored; nothing after it is read.
   */
  method WaitForIlaSetup(m: Machine)
    requires exists i :: 0 <= i < |m.uart| && KeyPressed(m.uart[i])
    modifies m`uart, m`trace
    ensures m.uart == old(m.uart)[|UpToFirst(old(m.uart), KeyPressed)|..]
    ensures m.trace == old(m.trace) + KeyEvents(UpToFirst(old(m.uart), KeyPressed))
  {
    ghost var keys := m.uart;
    var c := m.InByte();
    ghost var n := 1;
    while c == 0
      invariant 1 <= n <= |UpToFirst(keys, KeyPressed)|
      invariant m.uart == keys[n..]
      invariant m.trace == old(m.trace) + KeyEvents(keys[..n])
      invariant c == keys[n - 1]
      decreases |m.uart|
    {
      c := m.InByte();
      assert KeyEvents(keys[..n + 1]) == KeyEvents(keys[..n]) + [KeyIn(keys[n])];
      n := n + 1;
    }
    assert keys[..n] == UpToFirst(keys, KeyPressed);
  }

  /**
   * Everything main does after initialising the DMA engine, in order, given the
   * status values read until the key expansion is done, the keys read until
   * the first non-zero one, and the numbers of busy polls of the two
   * directions.
   */
  ghost function MainTrace(status: seq<word>, keys: seq<byte>, sendBusy: nat, receiveBusy: nat): seq<Event>
  {
    KeyLoadWrites() + RegReadEvents(Status, status) + KeyEvents(keys) + TestTrace(sendBusy, receiveBusy)
  }

  /** The part of main before the test: the key load, then the operator gate. */
  method LoadKeyAndWait(m: Machine)
    requires exists i :: 0 <= i < |m.regReads| && ExpansionDone(m.regReads[i])
    requires exists i :: 0 <= i < |m.uart| && KeyPressed(m.uart[i])
    modifies m`regReads, m`uart, m`trace
    ensures m.regReads == old(m.regReads)[|UpToFirst(old(m.regReads), ExpansionDone)|..]
    ensures m.uart == old(m.uart)[|UpToFirst(old(m.uart), KeyPressed)|..]
    ensures m.trace == old(m.trace) + KeyLoadWrites() + RegReadEvents(Status, UpToFirst(old(m.regReads), ExpansionDone))
                       + KeyEvents(UpToFirst(old(m.uart), KeyPressed))
  {
    ghost var press := FirstWhere(m.uart, KeyPressed);
    LoadKey(m);
    assert KeyPressed(m.uart[press]);
    WaitForIlaSetup(m);
  }

  /**
   * main, after the DMA engine is initialised: load the key and wait for its
   * expansion, wait at the gate, run the test. Failing blocks are reported,
   * not an error: the program returns 0 either way.
   */
  method RunMain(m: Machine) returns (results: seq<BlockResult>, exitCode: int)
    requires m.Valid() && m.tx.Length == BufferSize && m.rx.Length == BufferSize
    requires m.channel[DmaToDevice] == Idle && m.channel[DeviceToDma] == Idle
    requires exists i :: 0 <= i < |m.regReads| && ExpansionDone(m.regReads[i])
    requires exists i :: 0 <= i < |m.uart| && KeyPressed(m.uart[i])
    modifies m`regReads, m`uart, m`stall, m`channel, m`trace, m.tx, m.rx
    ensures m.Valid()
    ensures m.channel == old(m.channel) && m.stall == old(m.stall)[DmaToDevice := 0][DeviceToDma := 0]
    ensures m.tx[..TransferLen] == TxStream() && m.tx[TransferLen..] == old(m.tx[TransferLen..])
    ensures m.rx[..TransferLen] == m.deviceOut[..TransferLen] && m.rx[TransferLen..] == old(m.rx[TransferLen..])
    ensures results == BlockResults(m.deviceOut[..TransferLen], GoldReversed())
    ensures exitCode == 0
    ensures m.regReads == old(m.regReads)[|UpToFirst(old(m.regReads), ExpansionDone)|..]
    ensures m.uart == old(m.uart)[|UpToFirst(old(m.uart), KeyPressed)|..]
    ensures m.trace == old(m.trace) + MainTrace(UpToFirst(old(m.regReads), ExpansionDone), UpToFirst(old(m.uart), KeyPressed),
                                                old(m.stall[DmaToDevice]), old(m.stall[DeviceToDma]))
  {
    ghost var status := UpToFirst(m.regReads, ExpansionDone);
    ghost var keys := UpToFirst(m.uart, KeyPressed);
    ghost var sendBusy := m.stall[DmaToDevice];
    ghost var receiveBusy := m.stall[DeviceToDma];
    LoadKeyAndWait(m);
    results := RunBackpressureTest(m);
    exitCode := 0;
    MainTraceInSteps(old(m.trace), status, keys, sendBusy, receiveBusy);
  }

  /** MainTrace as main builds it, one step after another. */
  lemma MainTraceInSteps(before: seq<Event>, status: seq<word>, keys: seq<byte>, sendBusy: nat, receiveBusy: nat)
    ensures before + KeyLoadWrites() + RegReadEvents(Status, status) + KeyEvents(keys) + TestTrace(sendBusy, receiveBusy)
         == before + MainTrace(status, keys, sendBusy, receiveBusy)
  {
  }

  /** The round trip of main keeps the whole flush / arm / poll / invalidate discipline. */
  lemma MainFollowsDiscipline(status: seq<word>, keys: seq<byte>, sendBusy: nat, receiveBusy: nat)
    ensures Protocol.RoundTripDiscipline(MainTrace(status, keys, sendBusy, receiveBusy))
  {
    var pre := KeyLoadWrites() + RegReadEvents(Status, status) + KeyEvents(keys);
    RegReadEventsAreReads(Status, status);
    KeyEventsAreKeys(keys);
    assert forall e :: e in pre ==> !e.Arm?;
    Protocol.SessionFollowsDiscipline(pre, TransferLen, TxStream(), Fill(TransferLen, 0), [],
                                      sendBusy, receiveBusy, BlockReads(BlockCount));
    assert MainTrace(status, keys, sendBusy, receiveBusy)
        == pre + Protocol.Session(TransferLen, TxStream(), Fill(TransferLen, 0), [], sendBusy, receiveBusy) + BlockReads(BlockCount);
  }

  /** The events run_backpressure_test produces: cache operations, arms, polls and reads of RxBuffer; both arms are for 64 bytes. */
  lemma TestTraceEvents(sendBusy: nat, receiveBusy: nat)
    ensures forall e :: e in TestTrace(sendBusy, receiveBusy) ==>
              (e.Flush? || e.Invalidate? || e.Arm? || e.Poll? || e.RxRead?) && (e.Arm? ==> e.len == TransferLen)
  {
    var x := Protocol.TransferEvents(TransferLen, TxStream(), Fill(TransferLen, 0), sendBusy, receiveBusy);
    assert TestTrace(sendBusy, receiveBusy) == [Flush(Tx, TransferLen, TxStream()), Invalidate(Rx, TransferLen)] + x + BlockReads(BlockCount);
    Protocol.TransferEventKinds(TransferLen, TxStream(), Fill(TransferLen, 0), sendBusy, receiveBusy);
    BlockReadsInBounds(BlockCount);
  }

  /** Where each part of main's events sits: key writes, status reads, key reads, then the test. */
  lemma {:induction false} MainTraceLayout(status: seq<word>, keys: seq<byte>, sendBusy: nat, receiveBusy: nat)
    ensures var t := MainTrace(status, keys, sendBusy, receiveBusy);
            var o := 6 + |status| + |keys|;
            |t| == o + |TestTrace(sendBusy, receiveBusy)| &&
            t[..6] == KeyLoadWrites() &&
            (forall j :: 6 <= j < 6 + |status| ==> t[j] == RegRead(Status, status[j - 6])) &&
            (forall j :: 6 + |status| <= j < o ==> t[j] == KeyIn(keys[j - 6 - |status|])) &&
            (forall j :: o <= j < |t| ==> t[j] == TestTrace(sendBusy, receiveBusy)[j - o])
  {
    var t := MainTrace(status, keys, sendBusy, receiveBusy);
    var w, r, k := KeyLoadWrites(), RegReadEvents(Status, status), KeyEvents(keys);
    var head := w + r + k;
    var o := 6 + |status| + |keys|;
    assert t == head + TestTrace(sendBusy, receiveBusy);
    forall j | 6 <= j < 6 + |status|
      ensures t[j] == RegRead(Status, status[j - 6])
    {
      assert t[j] == head[j] == r[j - 6];
    }
    forall j | 6 + |status| <= j < o
      ensures t[j] == KeyIn(keys[j - 6 - |status|])
    {
      assert t[j] == head[j] == k[j - 6 - |status|];
    }
    assert t[..6] == head[..6] == w;
  }

  /**
   * In main the key is loaded and its expansion observed before anything else
   * happens: the first six events are the key writes and the start pulse, no
   * register is written after them, and the status read that reports the
   * expansion done comes before every key read, cache operation and arming.
   * Both directions are armed for 64 bytes, which both 128-byte buffers hold.
   */
  lemma KeyLoadedBeforeTest(status: seq<word>, keys: seq<byte>, sendBusy: nat, receiveBusy: nat)
    requires |status| > 0 && ExpansionDone(status[|status| - 1])
    ensures var t := MainTrace(status, keys, sendBusy, receiveBusy);
            var d := 5 + |status|;
            t[..6] == KeyLoadWrites() &&
            (forall j :: 6 <= j < |t| ==> !t[j].RegWrite?) &&
            t[d] == RegRead(Status, status[|status| - 1]) && ExpansionDone(t[d].value) &&
            (forall j :: 0 <= j < |t| && (t[j].KeyIn? || t[j].Flush? || t[j].Invalidate? || t[j].Arm?) ==> d < j) &&
            (forall j :: 0 <= j < |t| && t[j].Arm? ==> t[j].len == TransferLen <= BufferSize)
  {
    var t := MainTrace(status, keys, sendBusy, receiveBusy);
    var x := TestTrace(sendBusy, receiveBusy);
    var o := 6 + |status| + |keys|;
    MainTraceLayout(status, keys, sendBusy, receiveBusy);
    TestTraceEvents(sendBusy, receiveBusy);
    forall j | o <= j < |t|
      ensures t[j] in x
    {
      assert t[j] == x[j - o];
    }
    forall j | 0 <= j < 6
      ensures t[j].RegWrite?
    {
      assert t[j] == t[..6][j];
    }
  }
}
