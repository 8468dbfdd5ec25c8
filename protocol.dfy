/**
 * The ordering discipline of one DMA round trip over cache-coherent buffers,
 * stated over a program's event trace, and the shape of the round trip both
 * test programs perform.
 *
 * The discipline: flush the send buffer before the engine reads it, with
 * nothing written to it in between; invalidate the receive buffer before the
 * engine writes it; arm the receive direction before the send direction,
 * while the receive is still running; and before the processor reads any
 * received byte, wait for the receive and for every send armed so far to
 * report idle, and invalidate the receive buffer again.
 */
module Protocol {
  import opened Bytes
  import opened Hardware

  /** Every send (MM2S) transfer is preceded by a flush of the same range holding the same bytes. */
  ghost predicate FlushBeforeSend(t: seq<Event>)
  {
    forall j :: 0 <= j < |t| && t[j].Arm? && t[j].dir == DmaToDevice ==>
      exists i :: 0 <= i < j && t[i] == Flush(t[j].buf, t[j].len, t[j].data)
  }

  /** Every receive (S2MM) transfer is preceded by an invalidation of the same range. */
  ghost predicate InvalidateBeforeReceive(t: seq<Event>)
  {
    forall j :: 0 <= j < |t| && t[j].Arm? && t[j].dir == DeviceToDma ==>
      exists i :: 0 <= i < j && t[i] == Invalidate(t[j].buf, t[j].len)
  }

  /**
   * Every send transfer is preceded by a receive transfer of the same length
   * that is still running when the send is armed: no idle answer from the
   * receive direction comes between the two.
   */
  ghost predicate ReceiveArmedFirst(t: seq<Event>)
  {
    forall j :: 0 <= j < |t| && t[j].Arm? && t[j].dir == DmaToDevice ==>
      exists i :: 0 <= i < j && t[i].Arm? && t[i].dir == DeviceToDma && t[i].len == t[j].len &&
        !IdleBetween(t, i, j, DeviceToDma)
  }

  /** Some poll strictly between positions `lo` and `hi` found direction `dir` idle. */
  ghost predicate IdleBetween(t: seq<Event>, lo: int, hi: int, dir: Direction)
  {
    exists p :: lo < p < hi && 0 <= p < |t| && t[p] == Poll(dir, false)
  }

  /**
   * Every read of RxBuffer after a receive transfer into it is preceded,
   * after that transfer, by an invalidation of the received range that itself
   * follows an idle answer from the receive direction after its arming and an
   * idle answer from the send direction after every send armed before it; and
   * the read stays inside that range.
   */
  ghost predicate ReadAfterCompletion(t: seq<Event>)
  {
    forall k, j :: 0 <= k < j < |t| && t[k].Arm? && t[k].dir == DeviceToDma && t[k].buf == Rx && t[j].RxRead? ==>
      exists i :: k < i < j && t[i] == Invalidate(Rx, t[k].len) && t[j].lo + t[j].len <= t[k].len &&
        IdleBetween(t, k, i, DeviceToDma) &&
        (forall s :: 0 <= s < i && t[s].Arm? && t[s].dir == DmaToDevice ==> IdleBetween(t, s, i, DmaToDevice))
  }

  /** The whole round-trip discipline. */
  ghost predicate RoundTripDiscipline(t: seq<Event>)
  {
    FlushBeforeSend(t) && InvalidateBeforeReceive(t) && ReceiveArmedFirst(t) && ReadAfterCompletion(t)
  }

  /**
   * The events of the round trip both programs perform over the first `len`
   * bytes of the buffers: flush TxBuffer (holding `txData`), invalidate
   * RxBuffer, `gate` (whatever happens in between), arm S2MM into RxBuffer
   * (holding `rxStale`) then MM2S from TxBuffer, wait for MM2S then S2MM to go
   * idle, invalidate RxBuffer again.
   */
  ghost function Session(len: nat, txData: seq<byte>, rxStale: seq<byte>, gate: seq<Event>, sendBusy: nat, receiveBusy: nat): seq<Event>
  {
    [Flush(Tx, len, txData), Invalidate(Rx, len)] + gate + TransferEvents(len, txData, rxStale, sendBusy, receiveBusy)
  }

  /** The events of `RoundTrip`: arm S2MM then MM2S, wait for MM2S then S2MM, invalidate RxBuffer. */
  ghost function TransferEvents(len: nat, txData: seq<byte>, rxStale: seq<byte>, sendBusy: nat, receiveBusy: nat): seq<Event>
  {
    [Arm(DeviceToDma, Rx, len, rxStale), Arm(DmaToDevice, Tx, len, txData)]
    + PollEvents(DmaToDevice, sendBusy) + PollEvents(DeviceToDma, receiveBusy)
    + [Invalidate(Rx, len)]
  }

  /**
   * The transfer both programs run once the buffers are prepared: arm the
   * receive direction into RxBuffer, then the send direction from TxBuffer,
   * both for `len` bytes; busy-poll MM2S and then S2MM until idle; invalidate
   * RxBuffer before anything reads it. TxBuffer is not written; the first
   * `len` bytes of RxBuffer become the device's output and the rest is kept.
   */
  method RoundTrip(m: Machine, len: nat)
    requires m.Valid() && len <= m.tx.Length && len <= m.rx.Length
    requires m.channel[DmaToDevice] == Idle && m.channel[DeviceToDma] == Idle
    modifies m`stall, m`channel, m`trace, m.tx, m.rx
    ensures m.Valid()
    ensures m.channel == old(m.channel) && m.stall == old(m.stall)[DmaToDevice := 0][DeviceToDma := 0]
    ensures m.tx[..] == old(m.tx[..])
    ensures m.rx[..] == m.deviceOut[..len] + old(m.rx[len..])
    ensures m.trace == old(m.trace) + TransferEvents(len, old(m.tx[..len]), old(m.rx[..len]), old(m.stall[DmaToDevice]), old(m.stall[DeviceToDma]))
  {
    ArmBoth(m, len);
    AwaitBoth(m, len);
    m.DCacheInvalidateRange(Rx, len);
  }

  /** Arm S2MM into RxBuffer, then MM2S from TxBuffer, both for `len` bytes. */
  method ArmBoth(m: Machine, len: nat)
    requires m.Valid() && len <= m.tx.Length && len <= m.rx.Length
    requires m.channel[DmaToDevice] == Idle && m.channel[DeviceToDma] == Idle
    modifies m`channel, m`trace
    ensures m.Valid()
    ensures m.channel == old(m.channel)[DeviceToDma := Running(Rx, len)][DmaToDevice := Running(Tx, len)]
    ensures m.trace == old(m.trace) + [Arm(DeviceToDma, Rx, len, m.rx[..len]), Arm(DmaToDevice, Tx, len, m.tx[..len])]
  {
    var receiveArmed := m.SimpleTransfer(Rx, len, DeviceToDma);
    var sendArmed := m.SimpleTransfer(Tx, len, DmaToDevice);
  }

  /**
   * Wait for MM2S, then for S2MM, to go idle. TxBuffer is not written; the
   * first `len` bytes of RxBuffer become the device's output.
   */
  method AwaitBoth(m: Machine, len: nat)
    requires m.Valid() && len <= m.tx.Length && len <= m.rx.Length
    requires m.channel[DmaToDevice] == Running(Tx, len) && m.channel[DeviceToDma] == Running(Rx, len)
    modifies m`stall, m`channel, m`trace, m.tx, m.rx
    ensures m.Valid()
    ensures m.channel == old(m.channel)[DmaToDevice := Idle][DeviceToDma := Idle]
    ensures m.stall == old(m.stall)[DmaToDevice := 0][DeviceToDma := 0]
    ensures m.tx[..] == old(m.tx[..])
    ensures m.rx[..] == m.deviceOut[..len] + old(m.rx[len..])
    ensures m.trace == old(m.trace) + PollEvents(DmaToDevice, old(m.stall[DmaToDevice])) + PollEvents(DeviceToDma, old(m.stall[DeviceToDma]))
  {
    PollUntilIdle(m, DmaToDevice);
    assert m.Buf(Tx)[..] == old(m.tx[..]) && m.Buf(Rx)[..] == old(m.rx[..]);
    PollUntilIdle(m, DeviceToDma);
    assert m.Buf(Tx)[..] == old(m.tx[..]);
    assert m.Buf(Rx)[..] == m.deviceOut[..len] + old(m.rx[..])[len..];
  }

  /**
   * Where each event of TransferEvents sits: the two arms, then only polls,
   * the last of each direction's polls answering idle, then the invalidation.
   */
  lemma {:induction false} TransferLayout(len: nat, txData: seq<byte>, rxStale: seq<byte>, sendBusy: nat, receiveBusy: nat)
    ensures var x := TransferEvents(len, txData, rxStale, sendBusy, receiveBusy);
            |x| == 5 + sendBusy + receiveBusy &&
            x[0] == Arm(DeviceToDma, Rx, len, rxStale) && x[1] == Arm(DmaToDevice, Tx, len, txData) &&
            (forall j :: 2 <= j < |x| - 1 ==> x[j].Poll?) &&
            x[2 + sendBusy] == Poll(DmaToDevice, false) && x[|x| - 2] == Poll(DeviceToDma, false) &&
            x[|x| - 1] == Invalidate(Rx, len)
  {
    var arms := [Arm(DeviceToDma, Rx, len, rxStale), Arm(DmaToDevice, Tx, len, txData)];
    var sends := PollEvents(DmaToDevice, sendBusy);
    var receives := PollEvents(DeviceToDma, receiveBusy);
    var x := TransferEvents(len, txData, rxStale, sendBusy, receiveBusy);
    assert x == arms + (sends + receives) + [Invalidate(Rx, len)];
    forall j | 2 <= j < |x| - 1
      ensures x[j].Poll?
    {
      if j < 2 + |sends| {
        assert x[j] == sends[j - 2];
      } else {
        assert x[j] == receives[j - 2 - |sends|];
      }
    }
    assert x[2 + sendBusy] == sends[sendBusy];
    assert x[|x| - 2] == receives[receiveBusy];
  }

  /** TransferEvents holds arms for `len` bytes, polls and invalidations only. */
  lemma TransferEventKinds(len: nat, txData: seq<byte>, rxStale: seq<byte>, sendBusy: nat, receiveBusy: nat)
    ensures forall e :: e in TransferEvents(len, txData, rxStale, sendBusy, receiveBusy) ==>
              (e.Arm? || e.Poll? || e.Invalidate?) && (e.Arm? ==> e.len == len)
  {
    var x := TransferEvents(len, txData, rxStale, sendBusy, receiveBusy);
    TransferLayout(len, txData, rxStale, sendBusy, receiveBusy);
    forall e | e in x
      ensures (e.Arm? || e.Poll? || e.Invalidate?) && (e.Arm? ==> e.len == len)
    {
      var j :| 0 <= j < |x| && x[j] == e;
    }
  }

  /**
   * Where each event of `pre + Session(..) + post` sits: `pre` first, then the
   * flush at |pre| and the first invalidation after it, the gate, the two arms
   * at `a` and `a + 1`, only polls up to the final invalidation at `c` (the
   * last poll of each direction answering idle), then `post`.
   */
  lemma {:induction false} SessionLayout(pre: seq<Event>, len: nat, txData: seq<byte>, rxStale: seq<byte>, gate: seq<Event>,
                                         sendBusy: nat, receiveBusy: nat, post: seq<Event>)
    ensures var t := pre + Session(len, txData, rxStale, gate, sendBusy, receiveBusy) + post;
            var o := |pre|;
            var a := o + 2 + |gate|;
            var c := a + 4 + sendBusy + receiveBusy;
            |t| == c + 1 + |post| &&
            (forall j :: 0 <= j < o ==> t[j] == pre[j]) &&
            t[o] == Flush(Tx, len, txData) && t[o + 1] == Invalidate(Rx, len) &&
            (forall j :: o + 2 <= j < a ==> t[j] == gate[j - o - 2]) &&
            t[a] == Arm(DeviceToDma, Rx, len, rxStale) && t[a + 1] == Arm(DmaToDevice, Tx, len, txData) &&
            (forall j :: a + 2 <= j < c ==> t[j].Poll?) &&
            t[a + 2 + sendBusy] == Poll(DmaToDevice, false) && t[c - 1] == Poll(DeviceToDma, false) &&
            t[c] == Invalidate(Rx, len) &&
            (forall j :: c < j < |t| ==> t[j] == post[j - c - 1])
  {
    var head := pre + [Flush(Tx, len, txData), Invalidate(Rx, len)] + gate;
    var x := TransferEvents(len, txData, rxStale, sendBusy, receiveBusy);
    var t := pre + Session(len, txData, rxStale, gate, sendBusy, receiveBusy) + post;
    assert t == head + x + post;
    TransferLayout(len, txData, rxStale, sendBusy, receiveBusy);
    var o := |pre|;
    var a := o + 2 + |gate|;
    var c := a + 4 + sendBusy + receiveBusy;
    forall j | a <= j <= c
      ensures t[j] == x[j - a]
    {
    }
    forall j | o + 2 <= j < a
      ensures t[j] == gate[j - o - 2]
    {
      assert t[j] == head[j];
    }
    assert t[o] == head[o] && t[o + 1] == head[o + 1];
  }

  /**
   * The positions of a round trip inside a trace `t`: the flush at `o` and the
   * invalidation after it, the only two arms at `a` and `a + 1`, idle answers
   * from both directions and no read of RxBuffer before the invalidation at
   * `c`, and after it only reads inside the received range.
   */
  ghost predicate Shaped(t: seq<Event>, o: nat, a: nat, c: nat, len: nat, txData: seq<byte>)
  {
    o + 2 <= a && a + 1 < c < |t| &&
    t[o] == Flush(Tx, len, txData) && t[o + 1] == Invalidate(Rx, len) &&
    t[a].Arm? && t[a].dir == DeviceToDma && t[a].buf == Rx && t[a].len == len &&
    t[a + 1] == Arm(DmaToDevice, Tx, len, txData) &&
    (forall j :: 0 <= j < |t| && j != a && j != a + 1 ==> !t[j].Arm?) &&
    IdleBetween(t, a + 1, c, DmaToDevice) && IdleBetween(t, a, c, DeviceToDma) &&
    (forall j :: a < j < c ==> !t[j].RxRead?) &&
    t[c] == Invalidate(Rx, len) &&
    (forall j :: c < j < |t| ==> t[j].RxRead? && t[j].lo + t[j].len <= len)
  }

  /** The send transfer of a shaped trace follows the flush of its range. */
  lemma ShapedFlushBeforeSend(t: seq<Event>, o: nat, a: nat, c: nat, len: nat, txData: seq<byte>)
    requires Shaped(t, o, a, c, len, txData)
    ensures FlushBeforeSend(t)
  {
    forall j | 0 <= j < |t| && t[j].Arm? && t[j].dir == DmaToDevice
      ensures exists i :: 0 <= i < j && t[i] == Flush(t[j].buf, t[j].len, t[j].data)
    {
      assert j == a + 1;
      assert t[o] == Flush(t[j].buf, t[j].len, t[j].data);
    }
  }

  /** The receive transfer of a shaped trace follows an invalidation of its range. */
  lemma ShapedInvalidateBeforeReceive(t: seq<Event>, o: nat, a: nat, c: nat, len: nat, txData: seq<byte>)
    requires Shaped(t, o, a, c, len, txData)
    ensures InvalidateBeforeReceive(t)
  {
    forall j | 0 <= j < |t| && t[j].Arm? && t[j].dir == DeviceToDma
      ensures exists i :: 0 <= i < j && t[i] == Invalidate(t[j].buf, t[j].len)
    {
      assert j == a;
      assert t[o + 1] == Invalidate(t[j].buf, t[j].len);
    }
  }

  /** In a shaped trace the receive direction is armed before the send direction. */
  lemma ShapedReceiveArmedFirst(t: seq<Event>, o: nat, a: nat, c: nat, len: nat, txData: seq<byte>)
    requires Shaped(t, o, a, c, len, txData)
    ensures ReceiveArmedFirst(t)
  {
    forall j | 0 <= j < |t| && t[j].Arm? && t[j].dir == DmaToDevice
      ensures exists i :: 0 <= i < j && t[i].Arm? && t[i].dir == DeviceToDma && t[i].len == t[j].len &&
                !IdleBetween(t, i, j, DeviceToDma)
    {
      assert j == a + 1;
      assert t[a].Arm? && t[a].dir == DeviceToDma && t[a].len == t[j].len && !IdleBetween(t, a, j, DeviceToDma);
    }
  }

  /** In a shaped trace every read of RxBuffer waits for both idle answers and the second invalidation. */
  lemma ShapedReadAfterCompletion(t: seq<Event>, o: nat, a: nat, c: nat, len: nat, txData: seq<byte>)
    requires Shaped(t, o, a, c, len, txData)
    ensures ReadAfterCompletion(t)
  {
    forall k, j | 0 <= k < j < |t| && t[k].Arm? && t[k].dir == DeviceToDma && t[k].buf == Rx && t[j].RxRead?
      ensures exists i :: k < i < j && t[i] == Invalidate(Rx, t[k].len) && t[j].lo + t[j].len <= t[k].len &&
                IdleBetween(t, k, i, DeviceToDma) &&
                (forall s :: 0 <= s < i && t[s].Arm? && t[s].dir == DmaToDevice ==> IdleBetween(t, s, i, DmaToDevice))
    {
      assert k == a;
      assert c < j;
      assert t[c] == Invalidate(Rx, t[k].len);
      forall s | 0 <= s < c && t[s].Arm? && t[s].dir == DmaToDevice
        ensures IdleBetween(t, s, c, DmaToDevice)
      {
        assert s == a + 1;
      }
    }
  }

  /** A trace holding a round trip in that shape keeps the whole discipline. */
  lemma ShapedFollowsDiscipline(t: seq<Event>, o: nat, a: nat, c: nat, len: nat, txData: seq<byte>)
    requires Shaped(t, o, a, c, len, txData)
    ensures RoundTripDiscipline(t)
  {
    ShapedFlushBeforeSend(t, o, a, c, len, txData);
    ShapedInvalidateBeforeReceive(t, o, a, c, len, txData);
    ShapedReceiveArmedFirst(t, o, a, c, len, txData);
    ShapedReadAfterCompletion(t, o, a, c, len, txData);
  }

  /**
   * Whatever a program does before the round trip (`pre`) and at the gate,
   * as long as it arms no transfer there, and whatever reads of the received
   * range it does after, the round trip keeps the whole discipline.
   */
  lemma {:induction false} SessionFollowsDiscipline(pre: seq<Event>, len: nat, txData: seq<byte>, rxStale: seq<byte>, gate: seq<Event>,
                                                    sendBusy: nat, receiveBusy: nat, post: seq<Event>)
    requires forall e :: e in pre ==> !e.Arm?
    requires forall e :: e in gate ==> !e.Arm?
    requires forall e :: e in post ==> e.RxRead? && e.lo + e.len <= len
    ensures RoundTripDiscipline(pre + Session(len, txData, rxStale, gate, sendBusy, receiveBusy) + post)
  {
    var t := pre + Session(len, txData, rxStale, gate, sendBusy, receiveBusy) + post;
    SessionLayout(pre, len, txData, rxStale, gate, sendBusy, receiveBusy, post);
    var o := |pre|;
    var a := o + 2 + |gate|;
    var c := a + 4 + sendBusy + receiveBusy;
    forall j | 0 <= j < |t| && j != a && j != a + 1
      ensures !t[j].Arm?
    {
      if j < o {
        assert pre[j] in pre;
      } else if o + 2 <= j < a {
        assert gate[j - o - 2] in gate;
      } else if c < j {
        assert post[j - c - 1] in post;
      }
    }
    forall j | c < j < |t|
      ensures t[j].RxRead? && t[j].lo + t[j].len <= len
    {
      assert post[j - c - 1] in post;
    }
    assert IdleBetween(t, a + 1, c, DmaToDevice) by {
      assert t[a + 2 + sendBusy] == Poll(DmaToDevice, false);
    }
    assert IdleBetween(t, a, c, DeviceToDma) by {
      assert t[c - 1] == Poll(DeviceToDma, false);
    }
    ShapedFollowsDiscipline(t, o, a, c, len, txData);
  }

  /**
   * A trace in which the receive completes before the send is armed, and
   * RxBuffer is then invalidated and read while the send may still be
   * running, breaks the discipline twice: the receive was not running when
   * the send was armed, and no idle answer for the send precedes the
   * invalidation.
   */
  lemma EarlyCompletionRejected()
    ensures var d := Fill(4, 0);
            var t := [Flush(Tx, 4, d), Invalidate(Rx, 4), Arm(DeviceToDma, Rx, 4, d), Poll(DmaToDevice, false),
                      Poll(DeviceToDma, false), Arm(DmaToDevice, Tx, 4, d), Invalidate(Rx, 4), RxRead(0, 4)];
            !ReceiveArmedFirst(t) && !ReadAfterCompletion(t)
  {
    var d := Fill(4, 0);
    var t := [Flush(Tx, 4, d), Invalidate(Rx, 4), Arm(DeviceToDma, Rx, 4, d), Poll(DmaToDevice, false),
              Poll(DeviceToDma, false), Arm(DmaToDevice, Tx, 4, d), Invalidate(Rx, 4), RxRead(0, 4)];
    assert IdleBetween(t, 2, 5, DeviceToDma) by {
      assert t[4] == Poll(DeviceToDma, false);
    }
    // The only receive arm before the send arm at 5 is at 2, and it completed at 4.
    assert t[5].Arm? && t[5].dir == DmaToDevice;
    assert forall i :: 0 <= i < 5 && t[i].Arm? && t[i].dir == DeviceToDma ==> i == 2;
    // The only invalidation between the receive arm at 2 and the read at 7 is at 6,
    // and the send armed at 5 has no idle answer before it.
    assert t[2].Arm? && t[2].dir == DeviceToDma && t[2].buf == Rx && t[7].RxRead?;
    assert forall i :: 2 < i < 7 && t[i] == Invalidate(Rx, 4) ==> i == 6;
    assert !IdleBetween(t, 5, 6, DmaToDevice);
  }
}
