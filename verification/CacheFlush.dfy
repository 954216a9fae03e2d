/** Range flushes of the data cache and of the direct-mapped instruction cache. */
module CacheFlush {
  const LINE_SIZE: nat := 32
  const ICACHE_SIZE: nat := 4096
  const ICACHE_LINES: nat := 128

  function Line(a: nat): (r: nat) {
    a / LINE_SIZE
  }

  /** The line of the instruction cache that an address maps to. */
  function Index(a: nat): (r: nat) {
    Line(a) % ICACHE_LINES
  }

  /** A flush was issued somewhere inside a's line. */
  ghost predicate Flushed(flushes: seq<nat>, a: nat) {
    exists k | 0 <= k < |flushes| :: Line(flushes[k]) == Line(a)
  }

  ghost predicate IndexFlushed(flushes: seq<nat>, a: nat) {
    exists k | 0 <= k < |flushes| :: Index(flushes[k]) == Index(a)
  }

  /** One flush per line size from start on. */
  ghost predicate Strided(flushes: seq<nat>, start: nat) {
    forall k | 0 <= k < |flushes| :: flushes[k] == start + LINE_SIZE * k
  }

  /** The loop of both routines and the extra flush of an unaligned start. */
  method FlushRange(start: nat, len: nat) returns (flushes: seq<nat>)
    ensures Strided(flushes, start)
    ensures |flushes| == (len + LINE_SIZE - 1) / LINE_SIZE + if start % LINE_SIZE != 0 then 1 else 0
  {
    flushes := [];
    var end := start + len;
    var i := start;
    while i < end
      invariant i == start + LINE_SIZE * |flushes| && Strided(flushes, start)
      invariant |flushes| <= (len + LINE_SIZE - 1) / LINE_SIZE
      decreases end + LINE_SIZE - i
    {
      flushes := flushes + [i];
      i := i + LINE_SIZE;
    }
    if start % LINE_SIZE != 0 {
      flushes := flushes + [i];
    }
  }

  lemma StrideLine(start: nat, k: nat)
    ensures Line(start + LINE_SIZE * k) == Line(start) + k
  {
  }

  /** alt_dcache_flush: every line that meets the range is flushed, and at most one line beyond it. */
  method DcacheFlush(start: nat, len: nat) returns (flushes: seq<nat>)
    ensures forall a | start <= a < start + len :: Flushed(flushes, a)
    ensures forall k | 0 <= k < |flushes| ::
              Line(start) <= Line(flushes[k]) <= if len > 0 then Line(start + len - 1) + 1 else Line(start)
  {
    flushes := FlushRange(start, len);
    forall a | start <= a < start + len ensures Flushed(flushes, a) {
      LineInRange(start, len, a, |flushes|);
      StrideLine(start, Line(a) - Line(start));
      assert Line(flushes[Line(a) - Line(start)]) == Line(a);
    }
    forall k | 0 <= k < |flushes|
      ensures Line(start) <= Line(flushes[k]) <= if len > 0 then Line(start + len - 1) + 1 else Line(start)
    {
      StrideLine(start, k);
    }
  }

  lemma LineInRange(start: nat, len: nat, a: nat, n: nat)
    requires start <= a < start + len
    requires n == (len + LINE_SIZE - 1) / LINE_SIZE + if start % LINE_SIZE != 0 then 1 else 0
    ensures 0 <= Line(a) - Line(start) < n
  {
  }

  /**
   * alt_icache_flush: the length is cut to the cache size, and still every
   * index of the cache that the whole range maps to is flushed.
   */
  method IcacheFlush(start: nat, len: nat) returns (flushes: seq<nat>)
    ensures forall a | start <= a < start + len :: IndexFlushed(flushes, a)
    ensures |flushes| <= ICACHE_LINES + 1
  {
    flushes := FlushRange(start, if len > ICACHE_SIZE then ICACHE_SIZE else len);
    forall a | start <= a < start + len ensures IndexFlushed(flushes, a) {
      var k := if len > ICACHE_SIZE then (Line(a) - Line(start)) % ICACHE_LINES else Line(a) - Line(start);
      if len > ICACHE_SIZE { SameIndex(Line(start), Line(a)); } else { LineInRange(start, len, a, |flushes|); }
      StrideLine(start, k);
      assert Index(flushes[k]) == Index(a);
    }
  }

  lemma SameIndex(first: nat, line: nat)
    requires first <= line
    ensures (first + (line - first) % ICACHE_LINES) % ICACHE_LINES == line % ICACHE_LINES
  {
    var d := line - first;
    assert d == ICACHE_LINES * (d / ICACHE_LINES) + d % ICACHE_LINES;
    SamePlace(first + d % ICACHE_LINES, d / ICACHE_LINES);
  }

  lemma SamePlace(a: nat, k: nat)
    ensures (a + ICACHE_LINES * k) % ICACHE_LINES == a % ICACHE_LINES
  {
  }
}
