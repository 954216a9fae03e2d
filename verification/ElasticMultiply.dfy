/**
 * The core while it multiplies: under every pattern of valid and ready it is
 * one elastic pipeline, so no row is lost, repeated, reordered or miscomputed.
 */
module ElasticMultiply {
  import opened Integers
  import opened Matrices
  import opened ElasticCore
  import opened Seqs

  /** One place of the pipeline: a row of activations or a beat of weights on its way, or a bubble. */
  datatype Slot = Bubble | Row(x: seq<int>) | Beat(x: seq<int>)

  /**
   * Place q cannot move on this clock; q == |p| stands for the consumer. A row
   * waits for the place before it; a beat only as far as no PE of the next
   * place is in the last column, where nothing holds it back.
   */
  predicate Stalled(p: seq<Slot>, q: nat, ready: bool)
    requires q <= |p|
    decreases |p| - q
  {
    if q == |p| then !ready
    else match p[q]
      case Bubble => false
      case Row(_) => Stalled(p, q + 1, ready)
      case Beat(_) => q + 1 < |p| / 2 && Stalled(p, q + 1, ready)
  }

  function Offered(c: Pins): (r: Slot) {
    if !c.valid then Bubble else if c.mode then Beat(c.x) else Row(c.x)
  }

  /** What stands in front of place q. */
  function Entering(p: seq<Slot>, c: Pins, q: nat): (r: Slot)
    requires q <= |p|
  {
    if q == 0 then Offered(c) else p[q - 1]
  }

  /** The reference pipeline: every place that is not stalled takes what stands in front of it. */
  function Advance(p: seq<Slot>, c: Pins): (p': seq<Slot>)
    ensures |p'| == |p|
  {
    seq(|p|, q requires 0 <= q < |p| => if Stalled(p, q, c.ready) then p[q] else Entering(p, c, q))
  }

  predicate WellSized(n: nat, p: seq<Slot>) {
    n >= 1 && |p| == 2 * n - 1 && forall q | 0 <= q < |p| :: !p[q].Bubble? ==> |p[q].x| == n
  }

  /**
   * The core holds pipeline p: every register at distance q from the input
   * carries its share of p[q], with the weights w active.
   */
  ghost predicate Carries(n: nat, s: Core, p: seq<Slot>, w: Matrix)
    requires WellSized(n, p) && Square(w, n)
  {
    && (forall i, k | 0 <= k < i < n :: SkewCarries(s.skew(i, k), p[k], i))
    && (forall i, j | 0 <= i < n && 0 <= j < n :: PeCarries(n, s.pe(i, j), p[i + j], w, i, j))
    && (forall j, k | 0 <= j < n && 0 <= k < n - 1 - j :: DeskewCarries(n, s.deskew(j, k), p[n + j + k], w, j))
  }

  ghost predicate SkewCarries(r: SkewReg, slot: Slot, i: nat)
    requires slot.Row? ==> i < |slot.x|
  {
    r.v == !slot.Bubble? && (r.v ==> r.lw == slot.Beat?) && (slot.Row? ==> r.x == slot.x[i])
  }

  ghost predicate PeCarries(n: nat, r: MacPe, slot: Slot, w: Matrix, i: nat, j: nat)
    requires Square(w, n) && i < n && j < n && (slot.Row? ==> |slot.x| == n)
  {
    && r.active == w[i][j]
    && r.vy == slot.Row?
    && (j < n - 1 ==> r.vx == !slot.Bubble? && (r.vx ==> r.lw == slot.Beat?))
    && (slot.Row? ==> r.y == Wrap(Dot(slot.x, w, j, i + 1), WORD))
    && (slot.Row? && j < n - 1 ==> r.x == slot.x[i])
  }

  ghost predicate DeskewCarries(n: nat, r: DeskewReg, slot: Slot, w: Matrix, j: nat)
    requires Square(w, n) && j < n && (slot.Row? ==> |slot.x| == n)
  {
    r.v == slot.Row? && (slot.Row? ==> r.y == Wrap(Dot(slot.x, w, j, n), WORD))
  }

  lemma OutputOf(n: nat, s: Core, p: seq<Slot>, w: Matrix)
    requires WellSized(n, p) && Square(w, n) && Carries(n, s, p, w)
    ensures ValidOut(n, s) <==> p[2 * n - 2].Row?
    ensures p[2 * n - 2].Row? ==> YOut(n, s) == WrappedRow(p[2 * n - 2].x, w)
  {
    forall j | 0 <= j < n
      ensures ColumnValid(n, s, j) == p[2 * n - 2].Row?
      ensures p[2 * n - 2].Row? ==> YOut(n, s)[j] == WrappedRow(p[2 * n - 2].x, w)[j]
    {
      ColumnEnd(n, s, p, w, j);
    }
    assert ColumnValid(n, s, 0) == p[2 * n - 2].Row?;
  }

  lemma ColumnEnd(n: nat, s: Core, p: seq<Slot>, w: Matrix, j: nat)
    requires WellSized(n, p) && Square(w, n) && Carries(n, s, p, w) && j < n
    ensures var last := p[2 * n - 2];
            && ColumnValid(n, s, j) == last.Row?
            && (last.Row? ==> StageData(n, s, j, n - 1 - j) == Wrap(Dot(last.x, w, j, n), WORD))
  {
    var k := n - 1 - j;
    if k == 0 {
      assert PeCarries(n, s.pe(n - 1, j), p[(n - 1) + j], w, n - 1, j);
    } else {
      assert n + j + (k - 1) == 2 * n - 2;
      assert DeskewCarries(n, s.deskew(j, k - 1), p[n + j + (k - 1)], w, j);
    }
  }

  /** What the accumulators hold for one row: its product with w, each sum kept modulo 2^32. */
  function WrappedRow(x: seq<int>, w: Matrix): (y: seq<int>)
    requires Square(w, |x|)
  {
    seq(|x|, j requires 0 <= j < |x| => Wrap(Dot(x, w, j, |x|), WORD))
  }

  // ----- the handshake wires agree with the pipeline's stalls

  /** The clock does not latch weights. */
  predicate Flowing(n: nat, c: Pins) {
    |c.x| == n && !c.latch
  }

  /**
   * No beat stands directly behind a row that waits at a place with a PE in
   * the last column: there the beat would not wait, and clear the row's sum.
   */
  predicate Safe(p: seq<Slot>, c: Pins) {
    forall q | |p| / 2 <= q < |p| :: p[q].Row? && Stalled(p, q, c.ready) ==> !Entering(p, c, q).Beat?
  }

  /** The clock neither loads nor latches weights. */
  predicate Multiplying(n: nat, c: Pins) {
    |c.x| == n && !c.latch && !(c.mode && c.valid)
  }

  lemma {:induction false} StageFlow(n: nat, s: Core, p: seq<Slot>, w: Matrix, c: Pins, j: nat, k: nat)
    requires WellSized(n, p) && Square(w, n) && Carries(n, s, p, w)
    requires j < n && k <= n - 1 - j
    ensures StageValid(n, s, j, k) == p[n - 1 + j + k].Row?
    ensures (StageValid(n, s, j, k) && !StageReady(n, s, c, j, k)) == Stalled(p, n - 1 + j + k, c.ready)
    decreases n - 1 - j - k
  {
    if k == 0 { assert PeCarries(n, s.pe(n - 1, j), p[n - 1 + j], w, n - 1, j); }
    else { assert DeskewCarries(n, s.deskew(j, k - 1), p[n + j + (k - 1)], w, j); }
    if k < n - 1 - j {
      StageFlow(n, s, p, w, c, j, k + 1);
    } else {
      OutputOf(n, s, p, w);
    }
  }

  lemma {:induction false} FireIff(n: nat, s: Core, p: seq<Slot>, w: Matrix, c: Pins, i: nat, j: nat)
    requires WellSized(n, p) && Square(w, n) && Carries(n, s, p, w)
    requires Flowing(n, c) && Safe(p, c) && i < n && j < n
    ensures Fires(n, s, p, c, i, j)
    decreases 2 * n - i - j
  {
    InputsCarry(n, s, p, w, c, i, j);
    if j < n - 1 { FireIff(n, s, p, w, c, i, j + 1); }
    RightFlow(n, s, p, w, c, i, j);
    if i < n - 1 { FireIff(n, s, p, w, c, i + 1, j); }
    DownFlow(n, s, p, w, c, i, j);
  }

  /** PE (i, j) fires exactly when its slot moves into place i + j: it loads for a beat, multiplies for a row. */
  ghost predicate Fires(n: nat, s: Core, p: seq<Slot>, c: Pins, i: nat, j: nat)
    requires |p| == 2 * n - 1 && i < n && j < n
  {
    && FireLoad(n, s, c, i, j) == (Entering(p, c, i + j).Beat? && !Stalled(p, i + j, c.ready))
    && FireCalc(n, s, c, i, j) == (Entering(p, c, i + j).Row? && !Stalled(p, i + j, c.ready))
  }

  lemma RightFlow(n: nat, s: Core, p: seq<Slot>, w: Matrix, c: Pins, i: nat, j: nat)
    requires WellSized(n, p) && Square(w, n) && Carries(n, s, p, w) && Safe(p, c) && i < n && j < n
    requires j < n - 1 ==> Fires(n, s, p, c, i, j + 1)
    ensures j < n - 1 ==> s.pe(i, j).vx == !p[i + j].Bubble?
    ensures j < n - 1 ==> (s.pe(i, j).vx && !ReadyX(n, s, c, i, j + 1)) == Stalled(p, i + j, c.ready)
    ensures j == n - 1 ==> CanFireX(n, s, c, i, j)
  {
    assert PeCarries(n, s.pe(i, j), p[i + j], w, i, j);
  }

  lemma DownFlow(n: nat, s: Core, p: seq<Slot>, w: Matrix, c: Pins, i: nat, j: nat)
    requires WellSized(n, p) && Square(w, n) && Carries(n, s, p, w) && i < n && j < n
    requires i < n - 1 ==> Fires(n, s, p, c, i + 1, j)
    ensures s.pe(i, j).vy == p[i + j].Row?
    ensures (s.pe(i, j).vy && !ReadyY(n, s, c, i + 1, j)) == (p[i + j].Row? && Stalled(p, i + j, c.ready))
  {
    assert PeCarries(n, s.pe(i, j), p[i + j], w, i, j);
    if i == n - 1 { StageFlow(n, s, p, w, c, j, 0); }
  }

  /** The inputs of PE (i, j) are its share of the slot that enters place i + j. */
  lemma InputsCarry(n: nat, s: Core, p: seq<Slot>, w: Matrix, c: Pins, i: nat, j: nat)
    requires WellSized(n, p) && Square(w, n) && Carries(n, s, p, w)
    requires Flowing(n, c) && i < n && j < n
    ensures XCarries(n, s, p, c, i, j) && YCarries(n, s, p, c, w, i, j)
  {
    if j > 0 { assert PeCarries(n, s.pe(i, j - 1), p[i + (j - 1)], w, i, j - 1); }
    else if i > 0 { assert SkewCarries(s.skew(i, i - 1), p[i - 1], i); }
    if i > 0 { assert PeCarries(n, s.pe(i - 1, j), p[(i - 1) + j], w, i - 1, j); }
  }

  ghost predicate XCarries(n: nat, s: Core, p: seq<Slot>, c: Pins, i: nat, j: nat)
    requires |p| == 2 * n - 1 && i < n && j < n && |c.x| == n
  {
    var e := Entering(p, c, i + j);
    && XValid(s, c, i, j) == !e.Bubble?
    && (!e.Bubble? ==> XLoad(s, c, i, j) == e.Beat?)
    && (e.Row? ==> |e.x| == n && XData(s, c, i, j) == e.x[i])
  }

  ghost predicate YCarries(n: nat, s: Core, p: seq<Slot>, c: Pins, w: Matrix, i: nat, j: nat)
    requires |p| == 2 * n - 1 && i < n && j < n && Square(w, n)
  {
    var e := Entering(p, c, i + j);
    e.Row? ==> |e.x| == n && YValid(s, i, j) && Wrap(YData(s, i, j), WORD) == Wrap(Dot(e.x, w, j, i), WORD)
  }

  lemma {:induction false} SkewFlow(n: nat, s: Core, p: seq<Slot>, w: Matrix, c: Pins, i: nat, k: nat)
    requires WellSized(n, p) && Square(w, n) && Carries(n, s, p, w)
    requires Flowing(n, c) && Safe(p, c) && k <= i < n
    ensures k < i || !Entering(p, c, k).Bubble? ==> SkewReady(n, s, c, i, k) == !Stalled(p, k, c.ready)
    ensures k == i && Entering(p, c, k).Bubble? ==> !SkewReady(n, s, c, i, k)
    decreases i - k
  {
    if k == i {
      FireIff(n, s, p, w, c, i, 0);
    } else {
      assert SkewCarries(s.skew(i, k), p[k], i);
      SkewFlow(n, s, p, w, c, i, k + 1);
    }
  }

  // ----- one clock of the core is one step of the pipeline

  lemma SkewStep(n: nat, s: Core, p: seq<Slot>, w: Matrix, c: Pins, i: nat, k: nat)
    requires WellSized(n, p) && Square(w, n) && Carries(n, s, p, w)
    requires Flowing(n, c) && Safe(p, c) && k < i < n
    ensures SkewCarries(NextSkew(n, s, c, i, k), Advance(p, c)[k], i)
  {
    SkewFlow(n, s, p, w, c, i, k);
    SkewFlow(n, s, p, w, c, i, k + 1);
    assert SkewCarries(s.skew(i, k), p[k], i);
    if k > 0 { assert SkewCarries(s.skew(i, k - 1), p[k - 1], i); }
  }

  lemma PeStep(n: nat, s: Core, p: seq<Slot>, w: Matrix, c: Pins, i: nat, j: nat)
    requires WellSized(n, p) && Square(w, n) && Carries(n, s, p, w)
    requires Flowing(n, c) && Safe(p, c) && i < n && j < n
    requires WellSized(n, Advance(p, c))
    ensures PeCarries(n, NextPe(n, s, c, i, j), Advance(p, c)[i + j], w, i, j)
  {
    FireIff(n, s, p, w, c, i, j);
    InputsCarry(n, s, p, w, c, i, j);
    if j < n - 1 { FireIff(n, s, p, w, c, i, j + 1); }
    RightFlow(n, s, p, w, c, i, j);
    if i < n - 1 { FireIff(n, s, p, w, c, i + 1, j); }
    DownFlow(n, s, p, w, c, i, j);
    assert PeCarries(n, s.pe(i, j), p[i + j], w, i, j);
    var e := Entering(p, c, i + j);
    if e.Row? { AddTerm(e.x, w, i, j, YData(s, i, j)); }
  }

  lemma AddTerm(x: seq<int>, w: Matrix, i: nat, j: nat, y: int)
    requires Square(w, |x|) && i < |x| && j < |x|
    requires Wrap(y, WORD) == Wrap(Dot(x, w, j, i), WORD)
    ensures Wrap(y + w[i][j] * x[i], WORD) == Wrap(Dot(x, w, j, i + 1), WORD)
  {
    var term := w[i][j] * x[i];
    WrapAdd(y, term, WORD);
    WrapAdd(Dot(x, w, j, i), term, WORD);
  }

  lemma DeskewStep(n: nat, s: Core, p: seq<Slot>, w: Matrix, c: Pins, j: nat, k: nat)
    requires WellSized(n, p) && Square(w, n) && Carries(n, s, p, w)
    requires j < n && k < n - 1 - j
    requires WellSized(n, Advance(p, c))
    ensures DeskewCarries(n, NextDeskew(n, s, c, j, k), Advance(p, c)[n + j + k], w, j)
  {
    StageFlow(n, s, p, w, c, j, k);
    StageFlow(n, s, p, w, c, j, k + 1);
    assert DeskewCarries(n, s.deskew(j, k), p[n + j + k], w, j);
    if k == 0 { assert PeCarries(n, s.pe(n - 1, j), p[n - 1 + j], w, n - 1, j); }
    else { assert DeskewCarries(n, s.deskew(j, k - 1), p[n + j + (k - 1)], w, j); }
  }

  /** The mesh refines the pipeline, on every clock and whatever valid and ready are. */
  lemma ClockRefines(n: nat, s: Core, p: seq<Slot>, w: Matrix, c: Pins)
    requires WellSized(n, p) && Square(w, n) && Carries(n, s, p, w) && Flowing(n, c) && Safe(p, c)
    ensures WellSized(n, Advance(p, c)) && Carries(n, Step(n, s, c), Advance(p, c), w)
  {
    var s', p' := Step(n, s, c), Advance(p, c);
    forall i, k | 0 <= k < i < n ensures SkewCarries(s'.skew(i, k), p'[k], i) {
      SkewStep(n, s, p, w, c, i, k);
    }
    forall i, j | 0 <= i < n && 0 <= j < n ensures PeCarries(n, s'.pe(i, j), p'[i + j], w, i, j) {
      PeStep(n, s, p, w, c, i, j);
    }
    forall j, k | 0 <= j < n && 0 <= k < n - 1 - j ensures DeskewCarries(n, s'.deskew(j, k), p'[n + j + k], w, j) {
      DeskewStep(n, s, p, w, c, j, k);
    }
  }

  /** ready_out is high on an offered row exactly when every row's entry takes its element. */
  lemma OfferTakenIff(n: nat, s: Core, p: seq<Slot>, w: Matrix, c: Pins)
    requires WellSized(n, p) && Square(w, n) && Carries(n, s, p, w) && Flowing(n, c) && Safe(p, c)
    requires c.valid
    ensures forall i | 0 <= i < n :: SkewReady(n, s, c, i, 0) == ReadyOut(n, s, c)
    ensures ReadyOut(n, s, c) == !Stalled(p, 0, c.ready)
  {
    forall i | 0 <= i < n ensures SkewReady(n, s, c, i, 0) == !Stalled(p, 0, c.ready) {
      SkewFlow(n, s, p, w, c, i, 0);
    }
    assert SkewReady(n, s, c, 0, 0) == !Stalled(p, 0, c.ready);
  }

  /** A beat that would not wait clears the sum of the row before it: PE (q - (n - 1), n - 1) holds nothing any more. */
  lemma BeatClearsRow(n: nat, s: Core, p: seq<Slot>, w: Matrix, c: Pins, q: nat)
    requires WellSized(n, p) && Square(w, n) && Carries(n, s, p, w) && Flowing(n, c)
    requires n - 1 <= q < |p| && p[q].Row? && Stalled(p, q, c.ready) && Entering(p, c, q).Beat?
    ensures s.pe(q - (n - 1), n - 1).vy && !Step(n, s, c).pe(q - (n - 1), n - 1).vy
    ensures FireLoad(n, s, c, q - (n - 1), n - 1)
  {
    var i, j := q - (n - 1), n - 1;
    InputsCarry(n, s, p, w, c, i, j);
    assert PeCarries(n, s.pe(i, j), p[i + j], w, i, j);
    assert FireLoad(n, s, c, i, j);
  }

  /** So a clock without a latch is a step of the pipeline if and only if no beat stands where it would not wait. */
  lemma RefinesIff(n: nat, s: Core, p: seq<Slot>, w: Matrix, c: Pins)
    requires WellSized(n, p) && Square(w, n) && Carries(n, s, p, w) && Flowing(n, c)
    ensures WellSized(n, Advance(p, c))
    ensures Carries(n, Step(n, s, c), Advance(p, c), w) <==> Safe(p, c)
  {
    if Safe(p, c) {
      ClockRefines(n, s, p, w, c);
    } else {
      var q :| |p| / 2 <= q < |p| && p[q].Row? && Stalled(p, q, c.ready) && Entering(p, c, q).Beat?;
      BeatClearsRow(n, s, p, w, c, q);
      var i, j := q - (n - 1), n - 1;
      assert Advance(p, c)[i + j] == p[q];
      assert !PeCarries(n, Step(n, s, c).pe(i, j), Advance(p, c)[i + j], w, i, j);
    }
  }

  /** A consumer that is ready makes every clock safe; so does a pipeline without beats. */
  lemma ReadyIsSafe(p: seq<Slot>, c: Pins)
    requires c.ready
    ensures Safe(p, c)
  {
    forall q: nat | q <= |p| ensures !Stalled(p, q, true) { NeverStalled(p, q); }
  }

  predicate NoBeats(p: seq<Slot>) {
    forall q | 0 <= q < |p| :: !p[q].Beat?
  }

  lemma NoBeatsIsSafe(n: nat, p: seq<Slot>, c: Pins)
    requires NoBeats(p) && Multiplying(n, c)
    ensures Safe(p, c) && NoBeats(Advance(p, c))
  {
  }

  // ----- whole runs

  function After(n: nat, s: Core, cs: seq<Pins>): (r: Core)
    requires forall c | c in cs :: |c.x| == n
    decreases |cs|
  {
    if cs == [] then s else After(n, Step(n, s, cs[0]), cs[1..])
  }

  /** The rows of sums handed to a consumer that was ready, oldest first. */
  function Delivered(n: nat, s: Core, cs: seq<Pins>): (ys: seq<seq<int>>)
    requires forall c | c in cs :: |c.x| == n
    decreases |cs|
  {
    if cs == [] then []
    else (if ValidOut(n, s) && cs[0].ready then [YOut(n, s)] else []) + Delivered(n, Step(n, s, cs[0]), cs[1..])
  }

  /** The rows offered on clocks whose ready_out was high, oldest first. */
  function Accepted(n: nat, s: Core, cs: seq<Pins>): (xs: seq<seq<int>>)
    requires forall c | c in cs :: |c.x| == n
    decreases |cs|
  {
    if cs == [] then []
    else (if cs[0].valid && ReadyOut(n, s, cs[0]) then [cs[0].x] else []) + Accepted(n, Step(n, s, cs[0]), cs[1..])
  }

  function PipelineAfter(p: seq<Slot>, cs: seq<Pins>): (p': seq<Slot>)
    ensures |p'| == |p|
    decreases |cs|
  {
    if cs == [] then p else PipelineAfter(Advance(p, cs[0]), cs[1..])
  }

  function Contents(slot: Slot): (xs: seq<seq<int>>) {
    if slot.Row? then [slot.x] else []
  }

  /** The rows in places q and beyond, oldest first. */
  function InFlight(p: seq<Slot>, q: nat): (xs: seq<seq<int>>)
    requires q <= |p|
    decreases |p| - q
  {
    if q == |p| then [] else InFlight(p, q + 1) + Contents(p[q])
  }

  /** What crosses into place q on this clock; place |p| is the consumer. */
  function Moved(p: seq<Slot>, c: Pins, q: nat): (r: seq<seq<int>>)
    requires q <= |p|
  {
    if Stalled(p, q, c.ready) then [] else Contents(Entering(p, c, q))
  }

  lemma {:induction false} PlacesConserve(p: seq<Slot>, c: Pins, q: nat)
    requires q <= |p|
    ensures Moved(p, c, |p|) + InFlight(Advance(p, c), q) == InFlight(p, q) + Moved(p, c, q)
    decreases |p| - q
  {
    var out, p' := Moved(p, c, |p|), Advance(p, c);
    if q < |p| {
      PlacesConserve(p, c, q + 1);
      assert Moved(p, c, q + 1) + Contents(p'[q]) == Contents(p[q]) + Moved(p, c, q);
      Regroup(out, InFlight(p', q + 1), Contents(p'[q]), InFlight(p, q + 1),
              Moved(p, c, q + 1), Contents(p[q]), Moved(p, c, q));
    }
  }

  lemma Regroup<T>(out: seq<T>, a': seq<T>, c': seq<T>, a: seq<T>, m: seq<T>, c: seq<T>, r: seq<T>)
    requires out + a' == a + m && m + c' == c + r
    ensures out + (a' + c') == (a + c) + r
  {
    Assoc(out, a', c');
    Assoc(a, m, c');
    Assoc(a, c, r);
  }

  function WrappedRows(xs: seq<seq<int>>, w: Matrix): (ys: seq<seq<int>>)
    requires forall x | x in xs :: Square(w, |x|)
    ensures |ys| == |xs| && forall k | 0 <= k < |xs| :: ys[k] == WrappedRow(xs[k], w)
  {
    seq(|xs|, k requires 0 <= k < |xs| => WrappedRow(xs[k], w))
  }

  lemma WrappedRowsAppend(xs: seq<seq<int>>, ys: seq<seq<int>>, w: Matrix)
    requires forall x | x in xs + ys :: Square(w, |x|)
    ensures forall x | x in xs :: Square(w, |x|)
    ensures forall y | y in ys :: Square(w, |y|)
    ensures WrappedRows(xs + ys, w) == WrappedRows(xs, w) + WrappedRows(ys, w)
  {
    forall x | x in xs ensures x in xs + ys {}
    forall y | y in ys ensures y in xs + ys {}
  }

  lemma {:induction false} InFlightSized(n: nat, p: seq<Slot>, q: nat)
    requires WellSized(n, p) && q <= |p|
    ensures forall x | x in InFlight(p, q) :: |x| == n
    decreases |p| - q
  {
    if q < |p| { InFlightSized(n, p, q + 1); }
  }

  ghost predicate AllMultiplying(n: nat, cs: seq<Pins>) {
    forall c | c in cs :: Multiplying(n, c)
  }

  /** No clock of the run latches, and on none a beat stands where it would not wait. */
  ghost predicate SafeRun(n: nat, p: seq<Slot>, cs: seq<Pins>)
    decreases |cs|
  {
    cs != [] ==> Flowing(n, cs[0]) && Safe(p, cs[0]) && SafeRun(n, Advance(p, cs[0]), cs[1..])
  }

  lemma {:induction false} SafeRunSized(n: nat, p: seq<Slot>, cs: seq<Pins>)
    requires SafeRun(n, p, cs)
    ensures forall c | c in cs :: |c.x| == n
    decreases |cs|
  {
    if cs != [] { SafeRunSized(n, Advance(p, cs[0]), cs[1..]); }
  }

  /** The rows, not the beats, offered on clocks whose ready_out was high, oldest first. */
  function RowsTaken(n: nat, s: Core, cs: seq<Pins>): (xs: seq<seq<int>>)
    requires forall c | c in cs :: |c.x| == n
    decreases |cs|
  {
    if cs == [] then []
    else (if cs[0].valid && !cs[0].mode && ReadyOut(n, s, cs[0]) then [cs[0].x] else []) + RowsTaken(n, Step(n, s, cs[0]), cs[1..])
  }

  /** What has been delivered and is in flight after a run are the products of what was in flight and has been taken. */
  ghost predicate Balanced(n: nat, s: Core, p: seq<Slot>, w: Matrix, cs: seq<Pins>, taken: seq<seq<int>>)
    requires Square(w, n) && forall c | c in cs :: |c.x| == n
  {
    var left := InFlight(PipelineAfter(p, cs), 0);
    && (forall x | x in left :: |x| == n) && (forall x | x in InFlight(p, 0) + taken :: |x| == n)
    && Delivered(n, s, cs) + WrappedRows(left, w) == WrappedRows(InFlight(p, 0) + taken, w)
  }

  /**
   * Rows and beats in any order, any valid and any ready, as long as no beat
   * stands where it would not wait: the rows delivered, followed by the
   * products of the rows still in flight, are the products of the rows that
   * were in flight before and of the rows taken since, in order.
   */
  lemma {:induction false} RowsSurvive(n: nat, s: Core, p: seq<Slot>, w: Matrix, cs: seq<Pins>)
    requires WellSized(n, p) && Square(w, n) && Carries(n, s, p, w) && SafeRun(n, p, cs)
    ensures forall c | c in cs :: |c.x| == n
    ensures WellSized(n, PipelineAfter(p, cs)) && Carries(n, After(n, s, cs), PipelineAfter(p, cs), w)
    ensures Balanced(n, s, p, w, cs, RowsTaken(n, s, cs))
    decreases |cs|
  {
    SafeRunSized(n, p, cs);
    InFlightSized(n, p, 0);
    if cs == [] {
      assert InFlight(p, 0) + [] == InFlight(p, 0);
    } else {
      var c, rest := cs[0], cs[1..];
      var s1, p1 := Step(n, s, c), Advance(p, c);
      ClockRefines(n, s, p, w, c);
      RowsSurvive(n, s1, p1, w, rest);
      ClockConserves(n, s, p, w, c);
      var taken := if c.valid && !c.mode && ReadyOut(n, s, c) then [c.x] else [];
      PrependClock(n, Moved(p, c, |p|), InFlight(p1, 0), InFlight(p, 0), taken, RowsTaken(n, s1, rest),
                   Delivered(n, s1, rest), InFlight(PipelineAfter(p1, rest), 0), w);
    }
  }

  /** Without beats every clock is safe and every offer a row. */
  lemma {:induction false} MultiplyingIsSafe(n: nat, s: Core, p: seq<Slot>, cs: seq<Pins>)
    requires NoBeats(p) && AllMultiplying(n, cs)
    ensures SafeRun(n, p, cs) && NoBeats(PipelineAfter(p, cs))
    ensures RowsTaken(n, s, cs) == Accepted(n, s, cs)
    decreases |cs|
  {
    if cs != [] {
      assert Multiplying(n, cs[0]);
      NoBeatsIsSafe(n, p, cs[0]);
      MultiplyingIsSafe(n, Step(n, s, cs[0]), Advance(p, cs[0]), cs[1..]);
    }
  }

  /** A consumer that stays ready makes every run safe. */
  lemma {:induction false} ReadyRunIsSafe(n: nat, p: seq<Slot>, cs: seq<Pins>)
    requires forall c | c in cs :: Flowing(n, c) && c.ready
    ensures SafeRun(n, p, cs)
    decreases |cs|
  {
    if cs != [] {
      ReadyIsSafe(p, cs[0]);
      ReadyRunIsSafe(n, Advance(p, cs[0]), cs[1..]);
    }
  }

  /** In particular for rows alone, under every pattern of valid and ready. */
  lemma NothingLostOrRepeated(n: nat, s: Core, p: seq<Slot>, w: Matrix, cs: seq<Pins>)
    requires WellSized(n, p) && Square(w, n) && Carries(n, s, p, w) && NoBeats(p) && AllMultiplying(n, cs)
    ensures var p' := PipelineAfter(p, cs);
            && WellSized(n, p') && NoBeats(p') && Carries(n, After(n, s, cs), p', w)
            && (forall x | x in InFlight(p', 0) :: |x| == n)
            && (forall x | x in InFlight(p, 0) + Accepted(n, s, cs) :: |x| == n)
            && Delivered(n, s, cs) + WrappedRows(InFlight(p', 0), w) == WrappedRows(InFlight(p, 0) + Accepted(n, s, cs), w)
  {
    MultiplyingIsSafe(n, s, p, cs);
    RowsSurvive(n, s, p, w, cs);
  }

  lemma PrependClock(n: nat, out: seq<seq<int>>, next: seq<seq<int>>, now: seq<seq<int>>, taken: seq<seq<int>>,
                     more: seq<seq<int>>, ys: seq<seq<int>>, left: seq<seq<int>>, w: Matrix)
    requires Square(w, n)
    requires forall x | x in out :: |x| == n
    requires forall x | x in next + more :: |x| == n
    requires forall x | x in left :: |x| == n
    requires out + next == now + taken
    requires ys + WrappedRows(left, w) == WrappedRows(next + more, w)
    ensures forall x | x in now + (taken + more) :: |x| == n
    ensures (WrappedRows(out, w) + ys) + WrappedRows(left, w) == WrappedRows(now + (taken + more), w)
  {
    assert now + (taken + more) == (now + taken) + more == out + (next + more);
    forall x | x in out + (next + more) ensures |x| == n { assert x in out || x in next + more; }
    WrappedRowsAppend(out, next + more, w);
    assert (WrappedRows(out, w) + ys) + WrappedRows(left, w) == WrappedRows(out, w) + (ys + WrappedRows(left, w));
  }

  lemma ClockConserves(n: nat, s: Core, p: seq<Slot>, w: Matrix, c: Pins)
    requires WellSized(n, p) && Square(w, n) && Carries(n, s, p, w) && Flowing(n, c) && Safe(p, c)
    ensures var out := Moved(p, c, |p|);
            && (forall x | x in out :: |x| == n)
            && (if ValidOut(n, s) && c.ready then [YOut(n, s)] else []) == WrappedRows(out, w)
            && out + InFlight(Advance(p, c), 0)
               == InFlight(p, 0) + (if c.valid && !c.mode && ReadyOut(n, s, c) then [c.x] else [])
  {
    HandedOver(n, s, p, w, c);
    PlacesConserve(p, c, 0);
    TakenNow(n, s, p, w, c);
  }

  lemma TakenNow(n: nat, s: Core, p: seq<Slot>, w: Matrix, c: Pins)
    requires WellSized(n, p) && Square(w, n) && Carries(n, s, p, w) && Flowing(n, c) && Safe(p, c)
    ensures Moved(p, c, 0) == if c.valid && !c.mode && ReadyOut(n, s, c) then [c.x] else []
  {
    if c.valid { OfferTakenIff(n, s, p, w, c); }
  }

  /** The row that leaves is the product of the row that crosses into the consumer. */
  lemma HandedOver(n: nat, s: Core, p: seq<Slot>, w: Matrix, c: Pins)
    requires WellSized(n, p) && Square(w, n) && Carries(n, s, p, w)
    ensures forall x | x in Moved(p, c, |p|) :: |x| == n
    ensures (if ValidOut(n, s) && c.ready then [YOut(n, s)] else []) == WrappedRows(Moved(p, c, |p|), w)
  {
    OutputOf(n, s, p, w);
  }

  /** Nothing stays behind: 2n - 1 clocks with a ready consumer and no new row empty the pipeline. */
  lemma {:induction false} DrainEmpties(p: seq<Slot>, cs: seq<Pins>, k: nat)
    requires forall c | c in cs :: c.ready && !c.valid
    requires forall q | 0 <= q < k && q < |p| :: p[q] == Bubble
    requires |p| <= k + |cs|
    ensures InFlight(PipelineAfter(p, cs), 0) == []
    decreases |cs|
  {
    if cs == [] {
      NoneInFlight(p, 0);
    } else {
      forall q: nat | q <= |p| ensures !Stalled(p, q, true) { NeverStalled(p, q); }
      DrainEmpties(Advance(p, cs[0]), cs[1..], k + 1);
    }
  }

  lemma {:induction false} NeverStalled(p: seq<Slot>, q: nat)
    requires q <= |p|
    ensures !Stalled(p, q, true)
    decreases |p| - q
  {
    if q < |p| { NeverStalled(p, q + 1); }
  }

  lemma {:induction false} NoneInFlight(p: seq<Slot>, q: nat)
    requires q <= |p| && forall i | 0 <= i < |p| :: p[i] == Bubble
    ensures InFlight(p, q) == []
    decreases |p| - q
  {
    if q < |p| { NoneInFlight(p, q + 1); }
  }
}
