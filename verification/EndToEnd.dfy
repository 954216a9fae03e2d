/**
 * From signed-char matrices in memory to 32-bit results in memory: pack,
 * stream, multiply, store byte-reversed, parse; against the CPU's product.
 */
module EndToEnd {
  import opened Integers
  import opened Matrices
  import opened HostPacking
  import opened NpuUnit
  import opened Seqs
  import NpuDrain
  import Packets = NpuPackets
  import Load = ElasticLoad
  import Multiply = ElasticMultiply
  import Ctrl = StreamCtrl
  import Netlist = SystolicNetlist
  import Runs = SystolicRun

  // ----- beats between memory and the unit

  /** The eight lanes of beat b; swapped when the read bridge reverses the bytes of a beat as the write bridge does. */
  function BeatLanes(words: seq<Word>, b: nat, swapped: bool): (x: seq<int>)
    requires 2 * b + 1 < |words|
    ensures |x| == 8
  {
    seq(8, k requires 0 <= k < 8 => S8(LaneByte(words, b, if swapped then 7 - k else k)))
  }

  /** The beats that one DMA read of the region streams, in address order. */
  function Beats(words: seq<Word>, swapped: bool): (xs: seq<seq<int>>)
    requires |words| % 2 == 0
    ensures |xs| == |words| / 2
  {
    seq(|words| / 2, b requires 0 <= b < |words| / 2 => BeatLanes(words, b, swapped))
  }

  /** A dot product runs over the same terms from either end. */
  lemma {:induction false} DotReversed(x: seq<int>, w: Matrix, j: nat, k: nat)
    requires Square(w, |x|) && j < |x| && k <= |x|
    ensures Dot(Reverse(x), Reverse(w), j, k) == Dot(x, w, j, |x|) - Dot(x, w, j, |x| - k)
  {
    if k > 0 { DotReversed(x, w, j, k - 1); }
  }

  function Oriented(x: seq<int>, swapped: bool): (r: seq<int>)
    ensures |r| == |x|
  {
    if swapped then Reverse(x) else x
  }

  function OrientedRows(w: Matrix, swapped: bool): (r: Matrix)
    ensures |r| == |w|
  {
    if swapped then Reverse(w) else w
  }

  /** Reversing the lanes of both operands changes no product. */
  lemma OrientationCancels(x: seq<int>, w: Matrix, j: nat, swapped: bool)
    requires Square(w, |x|) && j < |x|
    ensures Square(OrientedRows(w, swapped), |x|)
    ensures Dot(Oriented(x, swapped), OrientedRows(w, swapped), j, |x|) == Dot(x, w, j, |x|)
  {
    if swapped { DotReversed(x, w, j, |x|); }
  }

  lemma InputBeat(words: seq<Word>, a: Matrix, r: nat, swapped: bool)
    requires PacksRows(words, a) && r < |a|
    ensures BeatLanes(words, r, swapped) == Oriented(a[r], swapped)
  {
    assert BeatCarries(words, r, a[r]);
    forall k | 0 <= k < 8 ensures BeatLanes(words, r, swapped)[k] == Oriented(a[r], swapped)[k] {
      assert S8(LaneByte(words, r, if swapped then 7 - k else k)) == a[r][if swapped then 7 - k else k];
    }
  }

  lemma WeightLane(words: seq<Word>, b: Matrix, swapped: bool, i: nat, j: nat)
    requires PacksColumnsReversed(words, b) && i < 8 && j < 8
    ensures Load.Lane(Beats(words, swapped)[7 - j], i) == OrientedRows(b, swapped)[i][j]
  {
    assert BeatCarries(words, 7 - j, Column(b, j));
    var lane := if swapped then 7 - i else i;
    assert S8(LaneByte(words, 7 - j, lane)) == Column(b, j)[lane];
  }

  lemma WeightBeats(words: seq<Word>, b: Matrix, swapped: bool)
    requires PacksColumnsReversed(words, b)
    ensures Square(OrientedRows(b, swapped), 8)
    ensures Load.LastBeatsAre(8, Beats(words, swapped), OrientedRows(b, swapped))
  {
    var xs, w := Beats(words, swapped), OrientedRows(b, swapped);
    OrientedSquare(b, swapped);
    forall i, j | 0 <= i < 8 && 0 <= j < 8 ensures LaneIs(xs, 7 - j, i, w[i][j]) {
      WeightLane(words, b, swapped, i, j);
    }
    LanesAre(xs, w);
  }

  predicate LaneIs(xs: seq<seq<int>>, k: int, i: nat, v: int) {
    0 <= k < |xs| && Load.Lane(xs[k], i) == v
  }

  lemma LanesAre(xs: seq<seq<int>>, w: Matrix)
    requires |xs| == 8 && Square(w, 8)
    requires forall i, j | 0 <= i < 8 && 0 <= j < 8 :: LaneIs(xs, 7 - j, i, w[i][j])
    ensures Load.LastBeatsAre(8, xs, w)
  {
    forall i, j | 0 <= i < 8 && 0 <= j < 8 ensures Load.Lane(xs[|xs| - 1 - j], i) == w[i][j] {
      assert LaneIs(xs, 7 - j, i, w[i][j]);
    }
  }

  lemma OrientedSquare(b: Matrix, swapped: bool)
    requires Square(b, 8)
    ensures Square(OrientedRows(b, swapped), 8)
  {
  }

  /** Two packed batches one after the other are one packed batch. */
  lemma BatchesConcatenate(first: seq<Word>, a: Matrix, second: seq<Word>, b: Matrix)
    requires PacksRows(first, a) && PacksRows(second, b)
    ensures PacksRows(first + second, a + b)
  {
    var words, m := first + second, a + b;
    forall r | 0 <= r < |m| ensures |m[r]| == 8 && BeatCarries(words, r, m[r]) {
      if r < |a| {
        assert BeatCarries(first, r, a[r]);
        forall k | 0 <= k < 8 ensures LaneByte(words, r, k) == LaneByte(first, r, k) {}
      } else {
        assert BeatCarries(second, r - |a|, b[r - |a|]);
        forall k | 0 <= k < 8 ensures LaneByte(words, r, k) == LaneByte(second, r - |a|, k) {}
      }
    }
  }

  // ----- results: each 64-bit beat is stored with its bytes reversed

  predicate WordFlit(f: Ctrl.Flit) {
    0 <= f.low < WORD && 0 <= f.high < WORD
  }

  /** Byte k of the 64-bit beat, least significant first. */
  function BeatByte(f: Ctrl.Flit, k: nat): (b: int)
    requires WordFlit(f) && k < 8
    ensures 0 <= b < 256
  {
    if k < 4 then Byte(f.low, k) else Byte(f.high, k - 4)
  }

  /** What a 32-bit read of half h of the stored beat returns. */
  function StoredWord(f: Ctrl.Flit, h: nat): (w: Word)
    requires WordFlit(f) && h < 2
  {
    WordOf(seq(4, k requires 0 <= k < 4 => BeatByte(f, 7 - (4 * h + k))))
  }

  lemma StoredWordIsSwapped(f: Ctrl.Flit, h: nat)
    requires WordFlit(f) && h < 2
    ensures StoredWord(f, h) == Bswap(if h == 0 then f.high else f.low)
  {
    var w := if h == 0 then f.high else f.low;
    assert seq(4, k requires 0 <= k < 4 => BeatByte(f, 7 - (4 * h + k))) == [Byte(w, 3), Byte(w, 2), Byte(w, 1), Byte(w, 0)];
  }

  /** Memory words hold the flits, one after the other. */
  ghost predicate Stores(mem: seq<Word>, fs: seq<Ctrl.Flit>) {
    |mem| == 2 * |fs| && forall q | 0 <= q < |fs| ::
      WordFlit(fs[q]) && mem[2 * q] == StoredWord(fs[q], 0) && mem[2 * q + 1] == StoredWord(fs[q], 1)
  }

  lemma {:induction false} FlitAt(rows: seq<seq<int>>, r: nat, i: nat)
    requires forall k | 0 <= k < |rows| :: |rows[k]| == 8
    requires r < |rows| && i < 4
    ensures Ctrl.AllFlits(rows)[4 * r + i] == Ctrl.Flits(rows[r])[i]
  {
    if r > 0 { FlitAt(rows[1..], r - 1, i); }
  }

  /** The word that npu_parse_output takes for row r, column c, of consecutive result matrices. */
  function Parsed(mem: seq<Word>, r: nat, c: nat): (res: Word)
    requires 8 * r + 7 < |mem| && c < 8
  {
    Bswap(mem[8 * r + FlipBit0(c)])
  }

  /** Parsing undoes the store: word (r, c) of the results is element c of row r. */
  lemma ParsedElement(mem: seq<Word>, rows: seq<seq<int>>, r: nat, c: nat)
    requires forall k | 0 <= k < |rows| :: |rows[k]| == 8
    requires Stores(mem, Ctrl.AllFlits(rows)) && r < |rows| && c < 8
    ensures Parsed(mem, r, c) == rows[r][c]
  {
    var q := 4 * r + c / 2;
    var f := Ctrl.AllFlits(rows)[q];
    FlitAt(rows, r, c / 2);
    FlipIndex(r, c);
    assert mem[2 * q] == StoredWord(f, 0) && mem[2 * q + 1] == StoredWord(f, 1);
    HalvesParse(f);
    assert rows[r][c] == if c % 2 == 0 then f.low else f.high;
  }

  lemma FlipIndex(r: nat, c: nat)
    requires c < 8
    ensures 8 * r + FlipBit0(c) == 2 * (4 * r + c / 2) + if c % 2 == 0 then 1 else 0
  {
  }

  lemma HalvesParse(f: Ctrl.Flit)
    requires WordFlit(f)
    ensures Bswap(StoredWord(f, 0)) == f.high && Bswap(StoredWord(f, 1)) == f.low
  {
    StoredWordIsSwapped(f, 0);
    StoredWordIsSwapped(f, 1);
    BswapTwice(f.low);
    BswapTwice(f.high);
  }

  // ----- the whole path

  /** Rows of eight signed chars; |a| / 8 input matrices one after the other. */
  predicate CharRows(a: Matrix) {
    forall r | 0 <= r < |a| :: |a[r]| == 8 && forall c | 0 <= c < 8 :: SignedChar(a[r][c])
  }

  /** The element the CPU computes, and its 32-bit pattern. */
  ghost predicate CpuWord(a: Matrix, b: Matrix, r: nat, c: nat, v: int)
    requires CharRows(a) && CharMatrix(b) && r < |a| && c < 8
  {
    && v == Wrap(Dot(a[r], b, c, 8), WORD)
    && -0x8000_0000 <= Dot(a[r], b, c, 8) < 0x8000_0000
  }

  /** One load of weights into an idle unit: the packed region streamed with any gaps, silence, the latch pulse. */
  ghost predicate LoadsWeights(u: Unit, ws: seq<Word>, swapped: bool, load: seq<Pins>, latch: Pins)
    requires |ws| % 2 == 0
  {
    && Ctrl.Valid(u.ctrl) && Ctrl.Pending(u.ctrl) == [] && Load.Idle(N, u.core)
    && Loading(load) && EndsQuiet(load) && Accepted(u, load) == Beats(ws, swapped)
    && |latch.data| == N && latch.latch && !latch.valid
  }

  lemma WeightsReady(u: Unit, b: Matrix, ws: seq<Word>, swapped: bool, load: seq<Pins>, latch: Pins)
    requires PacksColumnsReversed(ws, b) && LoadsWeights(u, ws, swapped, load, latch)
    ensures Square(OrientedRows(b, swapped), N) && Sized(load + [latch]) && Sent(u, load + [latch]) == []
    ensures Ready(After(u, load + [latch]), OrientedRows(b, swapped))
  {
    WeightBeats(ws, b, swapped);
    LoadMakesReady(u, OrientedRows(b, swapped), load, latch);
  }

  /** The rows a batch yields are the CPU's rows, whichever way round the lanes arrive. */
  lemma BatchProducts(a: Matrix, b: Matrix, ins: seq<Word>, swapped: bool)
    requires CharRows(a) && CharMatrix(b) && PacksRows(ins, a)
    ensures Square(OrientedRows(b, swapped), N) && forall x | x in Beats(ins, swapped) :: |x| == N
    ensures var ys := Multiply.WrappedRows(Beats(ins, swapped), OrientedRows(b, swapped));
            |ys| == |a| && forall r, c | 0 <= r < |a| && 0 <= c < 8 :: CpuWord(a, b, r, c, ys[r][c])
  {
    var xs, w := Beats(ins, swapped), OrientedRows(b, swapped);
    var ys := Multiply.WrappedRows(xs, w);
    forall r, c | 0 <= r < |a| && 0 <= c < 8 ensures CpuWord(a, b, r, c, ys[r][c]) {
      InputBeat(ins, a, r, swapped);
      OrientationCancels(a[r], b, c, swapped);
      SumsInRange(a[r], b, c, 8);
    }
  }

  /** A run of input rows and the clocks after it: the packed region streamed with any gaps, then silence. */
  ghost predicate StreamsBatch(ready: Unit, ins: seq<Word>, swapped: bool, cs: seq<Pins>, drain: seq<Pins>)
    requires Ctrl.Valid(ready.ctrl) && |ins| % 2 == 0
  {
    Multiplying(cs) && Accepted(ready, cs) == Beats(ins, swapped) && NpuDrain.Draining(drain) && |drain| >= NpuDrain.ENOUGH
  }

  /** Everything the unit sends for the batch. */
  function AllSent(ready: Unit, cs: seq<Pins>, drain: seq<Pins>): (r: seq<Ctrl.Flit>)
    requires Ctrl.Valid(ready.ctrl) && Sized(cs) && Sized(drain)
  {
    Ctrl.FlitsOf(Sent(ready, cs)) + Ctrl.FlitsOf(Sent(After(ready, cs), drain))
  }

  /** The batch's clocks carry its row count on seq_total_rows, and the unit stands between packets. */
  predicate CountsRows(u: Unit, a: Matrix, cs: seq<Pins>, drain: seq<Pins>) {
    && 0 < |a| < WORD && u.ctrl.rowCount == 0
    && Packets.TotalIs(cs, |a|) && Packets.TotalIs(drain, |a|)
  }

  /**
   * The committed RTL against the CPU: for all matrices, any number of input
   * rows, either lane order, any gaps in the streams and any stalls of the
   * consumer, what the parser reads is the CPU's product, element by element;
   * and with seq_total_rows set to the rows of the batch it comes as exactly
   * one packet, after which the unit is ready for the next.
   */
  lemma NpuMatchesCpu(u: Unit, a: Matrix, b: Matrix, ws: seq<Word>, ins: seq<Word>, swapped: bool,
                      load: seq<Pins>, latch: Pins, cs: seq<Pins>, drain: seq<Pins>, mem: seq<Word>)
    requires CharRows(a) && CharMatrix(b) && PacksColumnsReversed(ws, b) && PacksRows(ins, a)
    requires LoadsWeights(u, ws, swapped, load, latch) && Sized(load + [latch])
    requires StreamsBatch(After(u, load + [latch]), ins, swapped, cs, drain)
    requires Stores(mem, AllSent(After(u, load + [latch]), cs, drain))
    ensures |mem| == 8 * |a|
    ensures forall r, c | 0 <= r < |a| && 0 <= c < 8 :: CpuWord(a, b, r, c, Parsed(mem, r, c))
    ensures CountsRows(u, a, cs, drain) ==>
              && Packets.OnePacket(Packets.AllBeats(After(u, load + [latch]), cs, drain))
              && Packets.BetweenPackets(After(After(After(u, load + [latch]), cs), drain))
  {
    WeightsReady(u, b, ws, swapped, load, latch);
    var ready := After(u, load + [latch]);
    ReadyMatchesCpu(ready, a, b, ins, swapped, cs, drain, mem);
    if CountsRows(u, a, cs, drain) {
      Packets.LoadCountsNothing(u, load + [latch]);
      BatchHasItsRows(ready, a, b, ins, swapped, cs, drain);
    }
  }

  lemma BatchHasItsRows(ready: Unit, a: Matrix, b: Matrix, ins: seq<Word>, swapped: bool, cs: seq<Pins>, drain: seq<Pins>)
    requires CharRows(a) && CharMatrix(b) && PacksRows(ins, a) && CountsRows(ready, a, cs, drain)
    requires Square(OrientedRows(b, swapped), N) && Ready(ready, OrientedRows(b, swapped))
    requires StreamsBatch(ready, ins, swapped, cs, drain)
    ensures Packets.OnePacket(Packets.AllBeats(ready, cs, drain))
    ensures Packets.BetweenPackets(After(After(ready, cs), drain))
  {
    BatchProducts(a, b, ins, swapped);
    Packets.BatchIsOnePacket(ready, OrientedRows(b, swapped), cs, drain, |a|);
  }

  lemma ReadyMatchesCpu(ready: Unit, a: Matrix, b: Matrix, ins: seq<Word>, swapped: bool,
                        cs: seq<Pins>, drain: seq<Pins>, mem: seq<Word>)
    requires CharRows(a) && CharMatrix(b) && PacksRows(ins, a)
    requires Square(OrientedRows(b, swapped), N) && Ready(ready, OrientedRows(b, swapped))
    requires StreamsBatch(ready, ins, swapped, cs, drain)
    requires Stores(mem, AllSent(ready, cs, drain))
    ensures |mem| == 8 * |a|
    ensures forall r, c | 0 <= r < |a| && 0 <= c < 8 :: CpuWord(a, b, r, c, Parsed(mem, r, c))
  {
    var w := OrientedRows(b, swapped);
    NpuDrain.EveryRowComesOut(ready, w, cs, drain);
    BatchProducts(a, b, ins, swapped);
    var ys := Multiply.WrappedRows(Beats(ins, swapped), w);
    assert AllSent(ready, cs, drain) == Ctrl.AllFlits(ys);
    ParsedBatch(a, b, ys, mem);
  }

  lemma ParsedBatch(a: Matrix, b: Matrix, ys: seq<seq<int>>, mem: seq<Word>)
    requires CharRows(a) && CharMatrix(b) && |ys| == |a|
    requires forall k | 0 <= k < |ys| :: |ys[k]| == 8
    requires forall r, c | 0 <= r < |a| && 0 <= c < 8 :: CpuWord(a, b, r, c, ys[r][c])
    requires Stores(mem, Ctrl.AllFlits(ys))
    ensures |mem| == 8 * |a|
    ensures forall r, c | 0 <= r < |a| && 0 <= c < 8 :: CpuWord(a, b, r, c, Parsed(mem, r, c))
  {
    forall r, c | 0 <= r < |a| && 0 <= c < 8 ensures CpuWord(a, b, r, c, Parsed(mem, r, c)) {
      ParsedElement(mem, ys, r, c);
      assert CpuWord(a, b, r, c, ys[r][c]);
    }
  }

  /** Beat q of the region stands on the core's x_in at clock t + q. */
  ghost predicate Streams(tr: Runs.Trace, words: seq<Word>, swapped: bool, t: nat)
    requires |words| % 2 == 0
  {
    forall q, i: nat | 0 <= q < |words| / 2 && i < 8 :: tr(Netlist.XIn(i), t + q) == BeatLanes(words, q, swapped)[i]
  }

  /** The row of sums that leaves the generated core for the input row of clock t. */
  function OutputRow(tr: Runs.Trace, t: nat): (y: seq<int>)
    ensures |y| == 8
  {
    seq(8, j requires 0 <= j < 8 => tr(Netlist.YOut(j), t + 15))
  }

  function OutputRows(tr: Runs.Trace, t: nat, count: nat): (ys: seq<seq<int>>)
    ensures |ys| == count && forall k | 0 <= k < count :: ys[k] == OutputRow(tr, t + k)
  {
    seq(count, r requires 0 <= r < count => OutputRow(tr, t + r))
  }

  lemma GeneratedElement(tr: Runs.Trace, w: Matrix, t0: nat, t: nat, c: nat)
    requires Runs.Run(8, WORD, tr) && Runs.LoadPulse(8, tr, t0) && c < 8
    requires tr(Netlist.YIn(c), t + c) == 0
    requires Square(w, 8) && Runs.BeatsCarry(8, tr, w, t0) && t >= t0 + 8
    ensures tr(Netlist.YOut(c), t + 15) == Wrap(Dot(Runs.InputRow(8, tr, t), w, c, 8), WORD)
  {
    Runs.LoadThenMultiply(8, WORD, tr, w, t0, t);
    assert tr(Netlist.YOut(c), t + 2 * 8 - 1)
        == Wrap(tr(Netlist.YIn(c), t + c) + RowProduct(Runs.InputRow(8, tr, t), w)[c], WORD);
  }

  /** The core's circuit, its y_in tied to zero as the unit ties it, weights loaded from clock t0. */
  ghost predicate LoadedAt(tr: Runs.Trace, ws: seq<Word>, swapped: bool, t0: nat)
    requires |ws| % 2 == 0
  {
    && Runs.Run(8, WORD, tr) && Runs.LoadPulse(8, tr, t0) && Streams(tr, ws, swapped, t0)
    && forall j: nat, s: nat | j < 8 :: tr(Netlist.YIn(j), s) == 0
  }

  lemma BeatsOnTheWire(tr: Runs.Trace, ws: seq<Word>, b: Matrix, swapped: bool, t0: nat)
    requires PacksColumnsReversed(ws, b) && Streams(tr, ws, swapped, t0) && Square(OrientedRows(b, swapped), 8)
    ensures Runs.BeatsCarry(8, tr, OrientedRows(b, swapped), t0)
  {
    var w := OrientedRows(b, swapped);
    forall i, j | 0 <= i < 8 && 0 <= j < 8 ensures tr(Netlist.XIn(i), t0 + (8 - 1 - j)) == w[i][j] {
      WeightLane(ws, b, swapped, i, j);
      assert tr(Netlist.XIn(i), t0 + (7 - j)) == BeatLanes(ws, 7 - j, swapped)[i];
    }
  }

  lemma RowOnTheWire(tr: Runs.Trace, ins: seq<Word>, a: Matrix, swapped: bool, t: nat, r: nat)
    requires PacksRows(ins, a) && Streams(tr, ins, swapped, t) && r < |a|
    ensures Runs.InputRow(8, tr, t + r) == Oriented(a[r], swapped)
  {
    InputBeat(ins, a, r, swapped);
    forall i | 0 <= i < 8 ensures tr(Netlist.XIn(i), t + r) == Oriented(a[r], swapped)[i] {
      assert tr(Netlist.XIn(i), t + r) == BeatLanes(ins, r, swapped)[i];
    }
  }

  lemma GeneratedRow(tr: Runs.Trace, a: Matrix, b: Matrix, ws: seq<Word>, ins: seq<Word>, swapped: bool,
                     t0: nat, t: nat, r: nat, c: nat)
    requires CharRows(a) && CharMatrix(b) && PacksColumnsReversed(ws, b) && PacksRows(ins, a) && r < |a| && c < 8
    requires LoadedAt(tr, ws, swapped, t0) && t >= t0 + 8 && Streams(tr, ins, swapped, t)
    ensures CpuWord(a, b, r, c, tr(Netlist.YOut(c), t + r + 15))
  {
    OrientationCancels(a[r], b, c, swapped);
    BeatsOnTheWire(tr, ws, b, swapped, t0);
    GeneratedElement(tr, OrientedRows(b, swapped), t0, t + r, c);
    RowOnTheWire(tr, ins, a, swapped, t, r);
    SumsInRange(a[r], b, c, 8);
  }

  /** The generated core against the CPU: weights on eight clocks, then a row per clock, y_in zero. */
  lemma GeneratedCoreMatchesCpu(tr: Runs.Trace, a: Matrix, b: Matrix, ws: seq<Word>, ins: seq<Word>, swapped: bool,
                                t0: nat, t: nat, mem: seq<Word>)
    requires CharRows(a) && CharMatrix(b) && PacksColumnsReversed(ws, b) && PacksRows(ins, a)
    requires LoadedAt(tr, ws, swapped, t0) && t >= t0 + 8 && Streams(tr, ins, swapped, t)
    requires Stores(mem, Ctrl.AllFlits(OutputRows(tr, t, |a|)))
    ensures |mem| == 8 * |a|
    ensures forall r, c | 0 <= r < |a| && 0 <= c < 8 :: CpuWord(a, b, r, c, Parsed(mem, r, c))
  {
    var ys := OutputRows(tr, t, |a|);
    forall r, c | 0 <= r < |a| && 0 <= c < 8 ensures CpuWord(a, b, r, c, ys[r][c]) {
      GeneratedRow(tr, a, b, ws, ins, swapped, t0, t, r, c);
    }
    ParsedBatch(a, b, ys, mem);
  }
}
