/** Ring buffers of BUF_LEN slots with one slot always left free, on bare sequences. */
module Rings {
  import opened Integers

  type Byte = bv8

  /** ALTERA_AVALON_JTAG_UART_BUF_LEN */
  const BUF_LEN: nat := 2048

  /** An index into a ring's buffer. */
  type Slot = i: nat | i < BUF_LEN

  /** The slot k places beyond p. */
  function Place(p: nat, k: nat): (q: nat)
    requires p < BUF_LEN && k <= BUF_LEN
    ensures q < BUF_LEN && q == (p + k) % BUF_LEN
  {
    if p + k < BUF_LEN then p + k else p + k - BUF_LEN
  }

  /** How many slots lie between the read index and the write index. */
  function Used(inn: nat, out: nat): (n: nat)
    requires inn < BUF_LEN && out < BUF_LEN
    ensures n < BUF_LEN && inn == Place(out, n)
  {
    if inn >= out then inn - out else BUF_LEN - out + inn
  }

  function Ring(buf: seq<Byte>, out: nat, n: nat): (bs: seq<Byte>)
    requires |buf| == BUF_LEN && out < BUF_LEN && n <= BUF_LEN
    ensures |bs| == n
  {
    seq(n, k requires 0 <= k < n => buf[Place(out, k)])
  }

  /** The longest stretch a reader copies at once. */
  function ReadRun(inn: nat, out: nat): (n: nat)
    requires inn < BUF_LEN && out < BUF_LEN
  {
    if inn >= out then inn - out else BUF_LEN - out
  }

  /** The longest stretch a writer fills at once: the driver's three cases. */
  function WriteRun(inn: nat, out: nat): (n: nat)
    requires inn < BUF_LEN && out < BUF_LEN
  {
    if inn < out then out - 1 - inn else if out > 0 then BUF_LEN - inn else BUF_LEN - 1 - inn
  }

  /** A read run is all the bytes there are, up to the end of the buffer. */
  lemma ReadRunIsMaximal(inn: nat, out: nat)
    requires inn < BUF_LEN && out < BUF_LEN
    ensures ReadRun(inn, out) == Min(Used(inn, out), BUF_LEN - out)
    ensures ReadRun(inn, out) == 0 <==> inn == out
  {
  }

  /** A write run is all the free slots but one, up to the end of the buffer: it never makes a full ring look empty. */
  lemma WriteRunIsMaximal(inn: nat, out: nat)
    requires inn < BUF_LEN && out < BUF_LEN
    ensures WriteRun(inn, out) == Min(BUF_LEN - 1 - Used(inn, out), BUF_LEN - inn)
    ensures WriteRun(inn, out) == 0 <==> Used(inn, out) == BUF_LEN - 1
    ensures forall n | 0 < n <= WriteRun(inn, out) ::
              Place(inn, n) != out && Used(Place(inn, n), out) == Used(inn, out) + n
  {
  }

  /** Advancing either index moves bytes out of, or into, the ring. */
  lemma Advance(inn: nat, out: nat, n: nat)
    requires inn < BUF_LEN && out < BUF_LEN
    ensures n <= Used(inn, out) ==> Used(inn, Place(out, n)) == Used(inn, out) - n
    ensures n < BUF_LEN - Used(inn, out) ==> Used(Place(inn, n), out) == Used(inn, out) + n
  {
  }

  lemma RingPop(buf: seq<Byte>, out: nat, n: nat, k: nat)
    requires |buf| == BUF_LEN && out < BUF_LEN && k <= n < BUF_LEN
    ensures Ring(buf, out, n) == Ring(buf, out, k) + Ring(buf, Place(out, k), n - k)
  {
  }

  lemma RingHead(buf: seq<Byte>, out: nat, n: nat)
    requires |buf| == BUF_LEN && out < BUF_LEN && 0 < n < BUF_LEN
    ensures Ring(buf, out, n) == [buf[out]] + Ring(buf, Place(out, 1), n - 1)
  {
  }

  lemma RingPush(buf: seq<Byte>, out: nat, n: nat, b: Byte)
    requires |buf| == BUF_LEN && out < BUF_LEN && n < BUF_LEN
    ensures Ring(buf[Place(out, n) := b], out, n + 1) == Ring(buf, out, n) + [b]
  {
  }

  /** Bytes that stand in consecutive slots behind the ring lengthen it. */
  lemma RingAppend(buf: seq<Byte>, out: nat, n: nat, inn: nat, bytes: seq<Byte>)
    requires |buf| == BUF_LEN && out < BUF_LEN && inn < BUF_LEN && n == Used(inn, out) && n + |bytes| < BUF_LEN
    requires inn + |bytes| <= BUF_LEN && buf[inn..inn + |bytes|] == bytes
    ensures Ring(buf, out, n + |bytes|) == Ring(buf, out, n) + bytes
  {
    forall k | n <= k < n + |bytes| ensures buf[Place(out, k)] == bytes[k - n] {
      assert buf[inn..inn + |bytes|][k - n] == buf[inn + (k - n)];
    }
  }

  /** A free slot may be written without changing the ring. */
  lemma RingElsewhere(buf: seq<Byte>, out: nat, n: nat, k: nat, b: Byte)
    requires |buf| == BUF_LEN && out < BUF_LEN && n <= k < BUF_LEN
    ensures Ring(buf[Place(out, k) := b], out, n) == Ring(buf, out, n)
  {
  }
}
