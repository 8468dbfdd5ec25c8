/**
 * The processor's view of the board: the two global DMA buffers and the
 * vendor routines both programs call (Xilinx cache maintenance, the AXI DMA
 * simple-transfer API, 32-bit register I/O and the UART's `inbyte`).
 *
 * Each routine is a method of `Machine` that appends what it did to the ghost
 * `trace`. What the hardware answers is not computed here: it is the
 * machine's environment, fixed when the machine is built and otherwise
 * unconstrained — the keys the operator will type, the values successive
 * register reads return, how many polls each DMA direction stays busy, and the
 * bytes the cipher IP puts on its output stream.
 */
module Hardware {
  import opened Bytes

  /** A 32-bit register offset or value (`u32`). */
  type word = bv32

  /** The two global buffers, `TxBuffer` and `RxBuffer`. */
  datatype Buffer = Tx | Rx

  /**
   * The two directions of the AXI DMA engine: `DmaToDevice` (MM2S) streams
   * memory out to the IP, `DeviceToDma` (S2MM) writes the IP's stream to memory.
   */
  datatype Direction = DmaToDevice | DeviceToDma

  /** One direction of the DMA engine: idle, or moving `len` bytes of `buf`. */
  datatype Channel = Idle | Running(buf: Buffer, len: nat)

  /** One observable step of a program, in program order. */
  datatype Event =
      /** Xil_DCacheFlushRange over the first `len` bytes; `data` is what was written back. */
    | Flush(buf: Buffer, len: nat, data: seq<byte>)
      /** Xil_DCacheInvalidateRange over the first `len` bytes. */
    | Invalidate(buf: Buffer, len: nat)
      /** XAxiDma_SimpleTransfer accepted; `data` is the buffer's first `len` bytes at that moment. */
    | Arm(dir: Direction, buf: Buffer, len: nat, data: seq<byte>)
      /** XAxiDma_Busy and its answer. */
    | Poll(dir: Direction, busy: bool)
      /** inbyte and the byte it returned. */
    | KeyIn(c: byte)
      /** Xil_Out32 of `value` to the cipher IP's register at AES_BASE + `offset`. */
    | RegWrite(offset: word, value: word)
      /** Xil_In32 of the cipher IP's register at AES_BASE + `offset`, and its value. */
    | RegRead(offset: word, value: word)
      /** The processor loads RxBuffer[lo..lo + len) (to print it or to compare it). */
    | RxRead(lo: nat, len: nat)

  class Machine {
    /** The global `TxBuffer`. */
    const tx: array<byte>
    /** The global `RxBuffer`. */
    const rx: array<byte>
    /** The bytes the cipher IP emits on the S2MM stream during this run: arbitrary. */
    const deviceOut: seq<byte>
    /** The keys the operator has yet to type on the UART, in order. */
    var uart: seq<byte>
    /** The values the cipher IP's registers give to the coming Xil_In32 calls, in order. */
    var regReads: seq<word>
    /** For each direction, how many more polls report it busy. */
    var stall: map<Direction, nat>
    /** The state of each direction of the DMA engine. */
    var channel: map<Direction, Channel>
    /** Everything the program has done so far. */
    ghost var trace: seq<Event>

    /** The array a buffer name stands for. */
    function Buf(b: Buffer): array<byte>
    {
      if b == Tx then tx else rx
    }

    ghost predicate Valid()
      reads this`stall, this`channel
    {
      tx != rx &&
      tx.Length <= |deviceOut| && rx.Length <= |deviceOut| &&
      DmaToDevice in stall && DeviceToDma in stall &&
      DmaToDevice in channel && DeviceToDma in channel &&
      (forall d: Direction :: d in channel && channel[d].Running? ==> channel[d].len <= Buf(channel[d].buf).Length)
    }

    /**
     * The board after reset: both buffers zero (C globals), both DMA
     * directions idle, nothing done yet.
     */
    constructor (capacity: nat, deviceOut: seq<byte>, uart: seq<byte>, regReads: seq<word>, sendStall: nat, receiveStall: nat)
      requires capacity <= |deviceOut|
      ensures Valid() && fresh(tx) && fresh(rx)
      ensures tx[..] == Fill(capacity, 0) && rx[..] == Fill(capacity, 0)
      ensures this.deviceOut == deviceOut && this.uart == uart && this.regReads == regReads
      ensures stall == map[DmaToDevice := sendStall, DeviceToDma := receiveStall]
      ensures channel == map[DmaToDevice := Idle, DeviceToDma := Idle]
      ensures trace == []
    {
      tx := new byte[capacity](_ => 0);
      rx := new byte[capacity](_ => 0);
      this.deviceOut := deviceOut;
      this.uart := uart;
      this.regReads := regReads;
      stall := map[DmaToDevice := sendStall, DeviceToDma := receiveStall];
      channel := map[DmaToDevice := Idle, DeviceToDma := Idle];
      trace := [];
    }

    /** Xil_DCacheFlushRange(buf, len): write the cached bytes back for the device to read. */
    method DCacheFlushRange(b: Buffer, len: nat)
      requires len <= Buf(b).Length
      modifies this`trace
      ensures trace == old(trace) + [Flush(b, len, Buf(b)[..len])]
    {
      trace := trace + [Flush(b, len, Buf(b)[..len])];
    }

    /** Xil_DCacheInvalidateRange(buf, len): drop cached copies so the next loads see memory. */
    method DCacheInvalidateRange(b: Buffer, len: nat)
      requires len <= Buf(b).Length
      modifies this`trace
      ensures trace == old(trace) + [Invalidate(b, len)]
    {
      trace := trace + [Invalidate(b, len)];
    }

    /**
     * XAxiDma_SimpleTransfer(buf, len, dir): start a one-shot transfer, refused
     * (XST_FAILURE) while that direction is still running.
     */
    method SimpleTransfer(b: Buffer, len: nat, dir: Direction) returns (ok: bool)
      requires Valid() && len <= Buf(b).Length
      modifies this`channel, this`trace
      ensures Valid()
      ensures ok <==> old(channel[dir]) == Idle
      ensures channel == if ok then old(channel)[dir := Running(b, len)] else old(channel)
      ensures trace == if ok then old(trace) + [Arm(dir, b, len, Buf(b)[..len])] else old(trace)
    {
      ok := channel[dir] == Idle;
      if ok {
        channel := channel[dir := Running(b, len)];
        trace := trace + [Arm(dir, b, len, Buf(b)[..len])];
      }
    }

    /**
     * XAxiDma_Busy(dir): busy for the next `stall[dir]` polls, then idle. The
     * first idle answer completes that direction's transfer; when it is an S2MM
     * transfer, its buffer then holds the device's first `len` output bytes.
     */
    method Busy(dir: Direction) returns (busy: bool)
      requires Valid()
      modifies this`stall, this`channel, this`trace, tx, rx
      ensures Valid()
      ensures busy <==> old(stall[dir]) > 0
      ensures stall == if busy then old(stall)[dir := old(stall[dir]) - 1] else old(stall)
      ensures channel == if busy then old(channel) else old(channel)[dir := Idle]
      ensures trace == old(trace) + [Poll(dir, busy)]
      ensures forall b: Buffer :: Buf(b)[..] == (if busy then old(Buf(b)[..]) else Completed(old(channel[dir]), dir, b, old(Buf(b)[..])))
    {
      busy := stall[dir] > 0;
      if busy {
        stall := stall[dir := stall[dir] - 1];
      } else {
        var ch := channel[dir];
        if ch.Running? && dir == DeviceToDma {
          var a := Buf(ch.buf);
          forall i | 0 <= i < ch.len {
            a[i] := deviceOut[i];
          }
          assert a[..] == deviceOut[..ch.len] + old(a[..])[ch.len..];
        }
        channel := channel[dir := Idle];
      }
      trace := trace + [Poll(dir, busy)];
    }

    /** Whether completing `ch`, the channel of direction `dir`, writes buffer `b`. */
    predicate Receives(ch: Channel, dir: Direction, b: Buffer)
    {
      dir == DeviceToDma && ch.Running? && ch.buf == b
    }

    /**
     * The contents of buffer `b`, which held `before`, once the transfer `ch`
     * of direction `dir` completes: an S2MM transfer into `b` puts the device's
     * first `len` output bytes at its start; anything else leaves it as it was.
     */
    function Completed(ch: Channel, dir: Direction, b: Buffer, before: seq<byte>): seq<byte>
    {
      if Receives(ch, dir, b) && ch.len <= |before| && ch.len <= |deviceOut|
      then deviceOut[..ch.len] + before[ch.len..]
      else before
    }

    /** inbyte(): the next key the operator types. */
    method InByte() returns (c: byte)
      requires |uart| > 0
      modifies this`uart, this`trace
      ensures c == old(uart[0]) && uart == old(uart[1..])
      ensures trace == old(trace) + [KeyIn(c)]
    {
      c := uart[0];
      uart := uart[1..];
      trace := trace + [KeyIn(c)];
    }

    /** Xil_Out32(AES_BASE + offset, value). */
    method Out32(offset: word, value: word)
      modifies this`trace
      ensures trace == old(trace) + [RegWrite(offset, value)]
    {
      trace := trace + [RegWrite(offset, value)];
    }

    /** Xil_In32(AES_BASE + offset): the next value the IP gives. */
    method In32(offset: word) returns (v: word)
      requires |regReads| > 0
      modifies this`regReads, this`trace
      ensures v == old(regReads[0]) && regReads == old(regReads[1..])
      ensures trace == old(trace) + [RegRead(offset, v)]
    {
      v := regReads[0];
      regReads := regReads[1..];
      trace := trace + [RegRead(offset, v)];
    }

    /** The processor loads RxBuffer[lo..lo + n). */
    method LoadRx(lo: nat, n: nat) returns (s: seq<byte>)
      requires lo + n <= rx.Length
      modifies this`trace
      ensures s == rx[lo..lo + n]
      ensures trace == old(trace) + [RxRead(lo, n)]
    {
      s := rx[lo..lo + n];
      trace := trace + [RxRead(lo, n)];
    }
  }

  /** The position of the first element of `s` that satisfies `p`. */
  function FirstWhere<T>(s: seq<T>, p: T -> bool): (k: nat)
    requires exists i :: 0 <= i < |s| && p(s[i])
    ensures k < |s| && p(s[k])
    ensures forall j :: 0 <= j < k ==> !p(s[j])
  {
    if p(s[0]) then 0
    else
      assert exists i :: 0 <= i < |s[1..]| && p(s[1..][i]) by {
        var i :| 0 <= i < |s| && p(s[i]);
        assert s[1..][i - 1] == s[i];
      }
      1 + FirstWhere(s[1..], p)
  }

  /** Whether a byte read from the UART counts as a key press (any non-zero byte). */
  predicate KeyPressed(c: byte)
  {
    c != 0
  }

  /**
   * What a loop that reads `s` one element at a time until one satisfies `p`
   * consumes: the elements before the first that satisfies `p`, none of which
   * does, and that one.
   */
  function UpToFirst<T>(s: seq<T>, p: T -> bool): (consumed: seq<T>)
    requires exists i :: 0 <= i < |s| && p(s[i])
    ensures 0 < |consumed| <= |s| && consumed == s[..|consumed|]
    ensures p(consumed[|consumed| - 1])
    ensures forall j :: 0 <= j < |consumed| - 1 ==> !p(consumed[j])
  {
    s[..FirstWhere(s, p) + 1]
  }

  /** The events of reading `keys` with inbyte, one after another. */
  ghost function KeyEvents(keys: seq<byte>): seq<Event>
  {
    seq(|keys|, i requires 0 <= i < |keys| => KeyIn(keys[i]))
  }

  /** Reading keys produces only key events. */
  lemma KeyEventsAreKeys(keys: seq<byte>)
    ensures forall e :: e in KeyEvents(keys) ==> e.KeyIn?
  {
    forall e | e in KeyEvents(keys)
      ensures e.KeyIn?
    {
      var i :| 0 <= i < |keys| && KeyEvents(keys)[i] == e;
    }
  }

  /** Reading a register produces only register reads. */
  lemma RegReadEventsAreReads(offset: word, values: seq<word>)
    ensures forall e :: e in RegReadEvents(offset, values) ==> e.RegRead?
  {
    forall e | e in RegReadEvents(offset, values)
      ensures e.RegRead?
    {
      var i :| 0 <= i < |values| && RegReadEvents(offset, values)[i] == e;
    }
  }

  /** The events of reading `values` from the register at `offset`, one after another. */
  ghost function RegReadEvents(offset: word, values: seq<word>): seq<Event>
  {
    seq(|values|, i requires 0 <= i < |values| => RegRead(offset, values[i]))
  }

  /** `n` polls of `dir` that answer busy. */
  ghost function BusyPolls(dir: Direction, n: nat): seq<Event>
  {
    seq(n, _ => Poll(dir, true))
  }

  /** The events of `while (XAxiDma_Busy(dir));` when `dir` stays busy for `n` polls. */
  ghost function PollEvents(dir: Direction, n: nat): seq<Event>
  {
    BusyPolls(dir, n) + [Poll(dir, false)]
  }

  /**
   * `while (XAxiDma_Busy(&AxiDma, dir));`, the completion wait both programs
   * use: it returns after the first idle answer, having completed the transfer.
   */
  method PollUntilIdle(m: Machine, dir: Direction)
    requires m.Valid()
    modifies m`stall, m`channel, m`trace, m.tx, m.rx
    ensures m.Valid()
    ensures m.stall == old(m.stall)[dir := 0]
    ensures m.channel == old(m.channel)[dir := Idle]
    ensures m.trace == old(m.trace) + PollEvents(dir, old(m.stall[dir]))
    ensures forall b: Buffer :: m.Buf(b)[..] == m.Completed(old(m.channel[dir]), dir, b, old(m.Buf(b)[..]))
  {
    ghost var n: nat := 0;
    var busy := true;
    while busy
      invariant m.Valid()
      invariant n <= old(m.stall[dir]) + 1
      invariant busy ==> n <= old(m.stall[dir]) && m.stall == old(m.stall)[dir := old(m.stall[dir]) - n]
      invariant busy ==> m.channel == old(m.channel) && m.trace == old(m.trace) + BusyPolls(dir, n)
      invariant busy ==> forall b: Buffer :: m.Buf(b)[..] == old(m.Buf(b)[..])
      invariant !busy ==> n == old(m.stall[dir]) + 1 && m.stall == old(m.stall)[dir := 0]
      invariant !busy ==> m.channel == old(m.channel)[dir := Idle] && m.trace == old(m.trace) + PollEvents(dir, n - 1)
      invariant !busy ==> forall b: Buffer :: m.Buf(b)[..] == m.Completed(old(m.channel[dir]), dir, b, old(m.Buf(b)[..]))
      decreases m.stall[dir] + (if busy then 1 else 0)
    {
      busy := m.Busy(dir);
      if busy {
        assert BusyPolls(dir, n + 1) == BusyPolls(dir, n) + [Poll(dir, true)];
      }
      n := n + 1;
    }
  }
}
