/**
 * The ILA debug program (vitis_bare_metal_c/dma_axis_fifo_vitis_test.c): one
 * 32-byte round trip of all-0xFF bytes through the cipher IP, held at an
 * operator gate so that a logic analyser can be armed first, and a byte-for-byte
 * comparison of what came back with what was sent.
 */
module DmaFifoTest {
  import opened Bytes
  import opened Hardware
  import Protocol

  /** MEM_SIZE: the transfer length, two 16-byte blocks, and the size of both buffers. */
  const MemSize: nat := 32

  /** The verdict the program prints. */
  datatype Result = Success | Failure

  /** The bytes the program sends: 0xFF throughout, the pattern the cipher IP fails on. */
  function SentData(): seq<byte>
  {
    Fill(MemSize, 0xFF)
  }

  /** Step 2 of main: every TxBuffer byte becomes 0xFF and every RxBuffer byte 0x00. */
  method PrepareTestData(m: Machine)
    requires m.Valid() && m.tx.Length == MemSize && m.rx.Length == MemSize
    modifies m.tx, m.rx
    ensures m.tx[..] == SentData() && m.rx[..] == Fill(MemSize, 0)
  {
    for i := 0 to MemSize
      invariant forall k :: 0 <= k < i ==> m.tx[k] == 0xFF && m.rx[k] == 0
    {
      m.tx[i] := 0xFF;
      m.rx[i] := 0;
    }
  }

  /**
   * Steps 2 to 4 of main: fill the buffers, print RxBuffer (a read of all of
   * it), then flush TxBuffer and invalidate RxBuffer for the DMA engine.
   */
  method PrepareAndFlush(m: Machine)
    requires m.Valid() && m.tx.Length == MemSize && m.rx.Length == MemSize
    modifies m`trace, m.tx, m.rx
    ensures m.tx[..] == SentData() && m.rx[..] == Fill(MemSize, 0)
    ensures m.trace == old(m.trace) + [RxRead(0, MemSize), Flush(Tx, MemSize, SentData()), Invalidate(Rx, MemSize)]
  {
    PrepareTestData(m);
    var shown := m.LoadRx(0, MemSize);
    m.DCacheFlushRange(Tx, MemSize);
    m.DCacheInvalidateRange(Rx, MemSize);
    assert m.tx[..MemSize] == m.tx[..];
  }

  /**
   * wait_for_ila_setup: read the UART until a non-zero byte arrives. The zero
   * bytes before it are read and ignored; nothing after it is read.
   */
  method WaitForIlaSetup(m: Machine)
    requires exists i :: 0 <= i < |m.uart| && KeyPressed(m.uart[i])
    modifies m`uart, m`trace
    ensures m.uart == old(m.uart)[|UpToFirst(old(m.uart), KeyPressed)|..]
    ensures m.trace == old(m.trace) + KeyEvents(UpToFirst(old(m.uart), KeyPressed))
  {
    ghost var keys := m.uart;
    ghost var n := 0;
    var c: byte := 0;
    while c == 0
      invariant 0 <= n <= |UpToFirst(keys, KeyPressed)|
      invariant m.uart == keys[n..]
      invariant m.trace == old(m.trace) + KeyEvents(keys[..n])
      invariant c == 0 <==> n < |UpToFirst(keys, KeyPressed)|
      decreases |m.uart|
    {
      c := m.InByte();
      assert KeyEvents(keys[..n + 1]) == KeyEvents(keys[..n]) + [KeyIn(keys[n])];
      n := n + 1;
    }
    assert keys[..n] == UpToFirst(keys, KeyPressed);
  }

  /**
   * Everything main does, in order, when the operator's keys are `keys` (up to
   * the first key press) and the two directions stay busy for `sendBusy` and
   * `receiveBusy` polls: the pre-transfer print of RxBuffer, the round trip
   * with the gate between the cache maintenance and the arming, then the
   * post-transfer print of RxBuffer and the memcmp.
   */
  ghost function MainTrace(keys: seq<byte>, sendBusy: nat, receiveBusy: nat): seq<Event>
  {
    [RxRead(0, MemSize)]
    + Protocol.Session(MemSize, SentData(), Fill(MemSize, 0), KeyEvents(keys), sendBusy, receiveBusy)
    + [RxRead(0, MemSize), RxRead(0, MemSize)]
  }

  /**
   * Steps 6 to 10 of main: the round trip, the post-transfer print of
   * RxBuffer and the memcmp of all MEM_SIZE bytes of the two buffers.
   */
  method TransferAndCompare(m: Machine) returns (result: Result)
    requires m.Valid() && m.tx.Length == MemSize && m.rx.Length == MemSize
    requires m.channel[DmaToDevice] == Idle && m.channel[DeviceToDma] == Idle
    modifies m`stall, m`channel, m`trace, m.tx, m.rx
    ensures m.Valid() && m.channel == old(m.channel) && m.stall == old(m.stall)[DmaToDevice := 0][DeviceToDma := 0]
    ensures m.tx[..] == old(m.tx[..])
    ensures m.rx[..] == m.deviceOut[..MemSize]
    ensures result == Success <==> m.rx[..] == m.tx[..]
    ensures m.trace == old(m.trace) + Protocol.TransferEvents(MemSize, old(m.tx[..]), old(m.rx[..]), old(m.stall[DmaToDevice]), old(m.stall[DeviceToDma]))
                       + [RxRead(0, MemSize)] + [RxRead(0, MemSize)]
  {
    assert m.tx[..MemSize] == m.tx[..] && m.rx[..MemSize] == m.rx[..];
    Protocol.RoundTrip(m, MemSize);
    assert m.rx[..] == m.deviceOut[..MemSize];
    var shown := m.LoadRx(0, MemSize);
    var received := m.LoadRx(0, MemSize);
    assert m.tx[..MemSize] == m.tx[..];
    result := if MemCmp(m.tx[..MemSize], received) == 0 then Success else Failure;
  }

  /**
   * main, after the DMA engine is initialised: prepare the buffers, flush and
   * invalidate, wait at the gate, run the round trip, and compare the 32
   * received bytes with the 32 sent. A mismatch is reported, not an error: the
   * program returns 0 either way.
   */
  method RunMain(m: Machine) returns (result: Result, exitCode: int)
    requires m.Valid() && m.tx.Length == MemSize && m.rx.Length == MemSize
    requires m.channel[DmaToDevice] == Idle && m.channel[DeviceToDma] == Idle
    requires exists i :: 0 <= i < |m.uart| && KeyPressed(m.uart[i])
    modifies m`uart, m`stall, m`channel, m`trace, m.tx, m.rx
    ensures m.Valid()
    ensures m.channel == old(m.channel) && m.stall == old(m.stall)[DmaToDevice := 0][DeviceToDma := 0]
    ensures m.tx[..] == SentData()
    ensures m.rx[..] == m.deviceOut[..MemSize]
    ensures result == Success <==> m.rx[..] == m.tx[..]
    ensures exitCode == 0
    ensures m.uart == old(m.uart)[|UpToFirst(old(m.uart), KeyPressed)|..]
    ensures m.trace == old(m.trace) + MainTrace(UpToFirst(old(m.uart), KeyPressed), old(m.stall[DmaToDevice]), old(m.stall[DeviceToDma]))
  {
    ghost var keys := UpToFirst(m.uart, KeyPressed);
    ghost var press := FirstWhere(m.uart, KeyPressed);
    ghost var sendBusy := m.stall[DmaToDevice];
    ghost var receiveBusy := m.stall[DeviceToDma];

    PrepareAndFlush(m);
    assert KeyPressed(m.uart[press]);
    WaitForIlaSetup(m);
    result := TransferAndCompare(m);
    exitCode := 0;
    MainTraceInSteps(old(m.trace), keys, sendBusy, receiveBusy);
  }

  /** MainTrace as main builds it, one step after another. */
  lemma MainTraceInSteps(before: seq<Event>, keys: seq<byte>, sendBusy: nat, receiveBusy: nat)
    ensures before + [RxRead(0, MemSize), Flush(Tx, MemSize, SentData()), Invalidate(Rx, MemSize)] + KeyEvents(keys)
            + Protocol.TransferEvents(MemSize, SentData(), Fill(MemSize, 0), sendBusy, receiveBusy)
            + [RxRead(0, MemSize)] + [RxRead(0, MemSize)]
         == before + MainTrace(keys, sendBusy, receiveBusy)
  {
    assert [RxRead(0, MemSize), Flush(Tx, MemSize, SentData()), Invalidate(Rx, MemSize)]
        == [RxRead(0, MemSize)] + [Flush(Tx, MemSize, SentData()), Invalidate(Rx, MemSize)];
    assert [RxRead(0, MemSize), RxRead(0, MemSize)] == [RxRead(0, MemSize)] + [RxRead(0, MemSize)];
  }

  /** The round trip of main keeps the whole flush / arm / poll / invalidate discipline. */
  lemma MainFollowsDiscipline(keys: seq<byte>, sendBusy: nat, receiveBusy: nat)
    ensures Protocol.RoundTripDiscipline(MainTrace(keys, sendBusy, receiveBusy))
  {
    KeyEventsAreKeys(keys);
    Protocol.SessionFollowsDiscipline([RxRead(0, MemSize)], MemSize, SentData(), Fill(MemSize, 0), KeyEvents(keys),
                                      sendBusy, receiveBusy, [RxRead(0, MemSize), RxRead(0, MemSize)]);
  }

  /**
   * In main, TxBuffer is flushed and RxBuffer invalidated before the gate reads
   * any key and before either direction is armed; the gate finishes before
   * arming; and both directions are armed for MEM_SIZE bytes.
   */
  lemma MaintenanceBeforeGateAndArms(keys: seq<byte>, sendBusy: nat, receiveBusy: nat)
    ensures var t := MainTrace(keys, sendBusy, receiveBusy);
            t[1] == Flush(Tx, MemSize, SentData()) && t[2] == Invalidate(Rx, MemSize) &&
            (forall j :: 0 <= j < |t| && (t[j].KeyIn? || t[j].Arm?) ==> 2 < j) &&
            (forall i, j :: 0 <= i < |t| && 0 <= j < |t| && t[i].KeyIn? && t[j].Arm? ==> i < j) &&
            (forall j :: 0 <= j < |t| && t[j].Arm? ==> t[j].len == MemSize)
  {
    var pre := [RxRead(0, MemSize)];
    var post := [RxRead(0, MemSize), RxRead(0, MemSize)];
    var t := MainTrace(keys, sendBusy, receiveBusy);
    Protocol.SessionLayout(pre, MemSize, SentData(), Fill(MemSize, 0), KeyEvents(keys), sendBusy, receiveBusy, post);
    var a := 3 + |keys|;
    var c := a + 4 + sendBusy + receiveBusy;
    forall j | 0 <= j < |t| && !(3 <= j < a)
      ensures !t[j].KeyIn?
    {
      if c < j {
        assert t[j] == post[j - c - 1];
      }
    }
    forall j | 0 <= j < |t| && j != a && j != a + 1
      ensures !t[j].Arm?
    {
      if 3 <= j < a {
        assert t[j] == KeyEvents(keys)[j - 3];
      } else if c < j {
        assert t[j] == post[j - c - 1];
      }
    }
  }
}
