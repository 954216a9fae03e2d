/**
 * What happens when weight beats follow rows that still wait: a run from a
 * ready unit in which a row that was accepted never comes out.
 */
module BeatBehindRow {
  import opened Matrices
  import opened NpuUnit
  import opened Seqs
  import Core = ElasticCore
  import Multiply = ElasticMultiply
  import Load = ElasticLoad
  import Ctrl = StreamCtrl

  /** Ten rows, a weight beat, then nothing; the consumer is never ready. */
  function Clock(x: seq<int>, t: nat): (c: Pins) {
    Pins(t <= 10, x, t == 10, false, false, 1)
  }

  /** What was offered at clock t. */
  function Offer(x: seq<int>, t: nat): (slot: Multiply.Slot) {
    if t < 10 then Multiply.Row(x) else if t == 10 then Multiply.Beat(x) else Multiply.Bubble
  }

  /** The pipeline before clock t: nothing has stalled. */
  function Pipeline(x: seq<int>, t: nat): (p: seq<Multiply.Slot>)
    requires |x| == N
    ensures Multiply.WellSized(N, p)
    ensures forall q | 0 <= q < 15 :: p[q] == if q < t then Offer(x, t - 1 - q) else Multiply.Bubble
  {
    seq(15, q requires 0 <= q < 15 => if q < t then Offer(x, t - 1 - q) else Multiply.Bubble)
  }

  /** Nine rows leave the core at clocks 15 to 23; one of them goes on to the shift register, eight fill the FIFO. */
  ghost predicate Filling(u: Unit, w: Matrix, x: seq<int>, t: nat)
    requires Square(w, N) && |x| == N
  {
    && Ctrl.Valid(u.ctrl) && Multiply.Carries(N, u.core, Pipeline(x, t), w)
    && u.ctrl.count == (if t <= 15 then 0 else if t == 16 then 1 else t - 16)
    && u.ctrl.active == (t >= 17)
  }

  lemma ReadyFills(u: Unit, w: Matrix, x: seq<int>)
    requires Square(w, N) && |x| == N && Ready(u, w)
    ensures Filling(u, w, x, 0)
  {
    assert Ctrl.Unsent(u.ctrl) == [] && Ctrl.AllFlits(Ctrl.Queue(u.ctrl)) == [];
    assert Pipeline(x, 0) == Load.Bubbles(N);
  }

  lemma Shifts(x: seq<int>, t: nat, c: Core.Pins)
    requires |x| == N && c.ready && Multiply.Offered(c) == Offer(x, t)
    ensures Multiply.Safe(Pipeline(x, t), c) && Multiply.Advance(Pipeline(x, t), c) == Pipeline(x, t + 1)
    ensures !Multiply.Stalled(Pipeline(x, t), 0, true)
  {
    var p := Pipeline(x, t);
    Multiply.ReadyIsSafe(p, c);
    Multiply.NeverStalled(p, 0);
    forall q: nat | q < |p| ensures Multiply.Advance(p, c)[q] == Pipeline(x, t + 1)[q] {
      Multiply.NeverStalled(p, q);
    }
  }

  lemma FillingGoesOn(u: Unit, w: Matrix, x: seq<int>, t: nat)
    requires Square(w, N) && |x| == N && t < 24 && Filling(u, w, x, t)
    ensures Filling(Step(u, Clock(x, t)), w, x, t + 1)
    ensures Multiply.Safe(Pipeline(x, t), CorePins(u, Clock(x, t)))
    ensures |TakenNow(u, Clock(x, t))| == if t < 10 then 1 else 0
    ensures |PushedNow(u, Clock(x, t))| == if t >= 15 then 1 else 0
  {
    var c, p := Clock(x, t), Pipeline(x, t);
    var cc := CorePins(u, c);
    Shifts(x, t, cc);
    Multiply.ClockRefines(N, u.core, p, w, cc);
    Multiply.OutputOf(N, u.core, p, w);
    assert p[2 * N - 2] == if t >= 15 then Offer(x, t - 15) else Multiply.Bubble;
    if c.valid { Multiply.OfferTakenIff(N, u.core, p, w, cc); }
  }

  /** The run from clock t up to clock 24. */
  function From(x: seq<int>, t: nat): (cs: seq<Pins>)
    requires |x| == N && t <= 24
    ensures Sized(cs)
    decreases 24 - t
  {
    if t == 24 then [] else [Clock(x, t)] + From(x, t + 1)
  }

  lemma {:induction false} FillingRun(u: Unit, w: Matrix, x: seq<int>, t: nat)
    requires Square(w, N) && |x| == N && t <= 24 && Filling(u, w, x, t)
    ensures Filling(After(u, From(x, t)), w, x, 24)
    decreases 24 - t
  {
    if t < 24 {
      var u1 := Step(u, Clock(x, t));
      FillingGoesOn(u, w, x, t);
      FillingRun(u1, w, x, t + 1);
      assert From(x, t)[1..] == From(x, t + 1);
      assert After(u, From(x, t)) == After(u1, From(x, t + 1));
    }
  }

  lemma {:induction false} TakenRun(u: Unit, w: Matrix, x: seq<int>, t: nat)
    requires Square(w, N) && |x| == N && t <= 24 && Filling(u, w, x, t)
    ensures |RowsTaken(u, From(x, t))| == if t < 10 then 10 - t else 0
    decreases 24 - t
  {
    if t < 24 {
      FillingGoesOn(u, w, x, t);
      TakenRun(Step(u, Clock(x, t)), w, x, t + 1);
      TakenHead(u, From(x, t));
    }
  }

  lemma {:induction false} PushedRun(u: Unit, w: Matrix, x: seq<int>, t: nat)
    requires Square(w, N) && |x| == N && t <= 24 && Filling(u, w, x, t)
    ensures |Pushed(u, From(x, t))| == if t < 15 then 9 else 24 - t
    decreases 24 - t
  {
    if t < 24 {
      FillingGoesOn(u, w, x, t);
      PushedRun(Step(u, Clock(x, t)), w, x, t + 1);
      PushedHead(u, From(x, t));
    }
  }

  /** The rows taken on this clock. */
  function TakenNow(u: Unit, c: Pins): (xs: seq<seq<int>>) {
    if c.valid && !c.mode && Core.ReadyOut(N, u.core, CorePins(u, c)) then [c.data] else []
  }

  lemma TakenHead(u: Unit, cs: seq<Pins>)
    requires Ctrl.Valid(u.ctrl) && Sized(cs) && cs != []
    ensures RowsTaken(u, cs) == TakenNow(u, cs[0]) + RowsTaken(Step(u, cs[0]), cs[1..])
  {
    var c, ps := cs[0], CoreTrace(u, cs);
    CoreTraceSized(u, cs);
    CoreTraceSized(Step(u, c), cs[1..]);
    assert ps[0] == CorePins(u, c) && ps[1..] == CoreTrace(Step(u, c), cs[1..]);
  }

  lemma PushedHead(u: Unit, cs: seq<Pins>)
    requires Ctrl.Valid(u.ctrl) && Sized(cs) && cs != []
    ensures Pushed(u, cs) == PushedNow(u, cs[0]) + Pushed(Step(u, cs[0]), cs[1..])
  {
    var c, ps := cs[0], CtrlTrace(u, cs);
    assert ps[0] == CtrlPins(u, c) && ps[1..] == CtrlTrace(Step(u, c), cs[1..]);
  }

  /** The rows that leave the core in a run, and on one clock. */
  function Pushed(u: Unit, cs: seq<Pins>): (rows: seq<seq<int>>)
    requires Ctrl.Valid(u.ctrl) && Sized(cs)
  {
    Ctrl.Pushed(u.ctrl, CtrlTrace(u, cs))
  }

  function PushedNow(u: Unit, c: Pins): (rows: seq<seq<int>>) {
    Ctrl.PushedNow(u.ctrl, CtrlPins(u, c))
  }

  // ----- the row is lost

  /** Nothing moves towards the last PE of the last row any more, and it holds no sum. */
  ghost predicate Dead(s: Core.Core) {
    && (forall i, k | 0 <= k < i < N :: !s.skew(i, k).v)
    && (forall i, j | 0 <= i < N && 0 <= j < N - 1 :: !s.pe(i, j).vx)
    && !s.pe(N - 1, N - 1).vy
  }

  predicate Silent(cs: seq<Pins>) {
    Sized(cs) && forall k | 0 <= k < |cs| :: !cs[k].valid
  }

  lemma DeadStays(s: Core.Core, c: Core.Pins)
    requires Dead(s) && |c.x| == N && !c.valid
    ensures Dead(Core.Step(N, s, c)) && !Core.ValidOut(N, s)
  {
    assert !Core.ColumnValid(N, s, N - 1);
    var s' := Core.Step(N, s, c);
    forall i, k | 0 <= k < i < N ensures !s'.skew(i, k).v {
      assert !s.skew(i, k).v;
      if k > 0 { assert !s.skew(i, k - 1).v; }
    }
    forall i, j | 0 <= i < N && 0 <= j < N ensures !Core.XValid(s, c, i, j) {
      if j > 0 { assert !s.pe(i, j - 1).vx; } else if i > 0 { assert !s.skew(i, i - 1).v; }
    }
    forall i, j | 0 <= i < N && 0 <= j < N - 1 ensures !s'.pe(i, j).vx {
      assert !Core.XValid(s, c, i, j) && !s.pe(i, j).vx;
    }
    assert !Core.XValid(s, c, N - 1, N - 1);
  }

  lemma {:induction false} DeadForGood(u: Unit, cs: seq<Pins>)
    requires Ctrl.Valid(u.ctrl) && Dead(u.core) && Silent(cs)
    ensures Pushed(u, cs) == [] && RowsTaken(u, cs) == []
    decreases |cs|
  {
    if cs != [] {
      var u1 := Step(u, cs[0]);
      assert !cs[0].valid;
      DeadStays(u.core, CorePins(u, cs[0]));
      DeadForGood(u1, cs[1..]);
      TakenHead(u, cs);
      PushedHead(u, cs);
    }
  }

  /** One clock more and the beat clears the last column's sum of the tenth row, which waits for the full FIFO. */
  lemma LastClock(u: Unit, w: Matrix, x: seq<int>, c: Pins)
    requires Square(w, N) && |x| == N && Filling(u, w, x, 24)
    requires |c.data| == N && !c.latch && !c.valid
    ensures Dead(Step(u, c).core) && PushedNow(u, c) == []
    ensures !Multiply.Safe(Pipeline(x, 24), CorePins(u, c))
  {
    var p, cc := Pipeline(x, 24), CorePins(u, c);
    assert !cc.ready && p[2 * N - 2] == Multiply.Row(x) && p[2 * N - 3] == Multiply.Beat(x);
    assert Multiply.Stalled(p, 2 * N - 2, cc.ready);
    Multiply.BeatClearsRow(N, u.core, p, w, cc, 2 * N - 2);
    BehindTheBeat(u.core, w, x, cc);
  }

  lemma BehindTheBeat(s: Core.Core, w: Matrix, x: seq<int>, c: Core.Pins)
    requires Square(w, N) && |x| == N && Multiply.Carries(N, s, Pipeline(x, 24), w)
    requires |c.x| == N && !c.valid && !Core.Step(N, s, c).pe(N - 1, N - 1).vy
    requires Core.FireLoad(N, s, c, N - 1, N - 1)
    ensures Dead(Core.Step(N, s, c))
  {
    var p, s' := Pipeline(x, 24), Core.Step(N, s, c);
    assert forall q | 0 <= q < 13 :: p[q] == Multiply.Bubble;
    forall i, k | 0 <= k < i < N ensures !s'.skew(i, k).v {
      assert Multiply.SkewCarries(s.skew(i, k), p[k], i);
      if k > 0 { assert Multiply.SkewCarries(s.skew(i, k - 1), p[k - 1], i); }
    }
    forall i, j | 0 <= i < N && 0 <= j < N - 1 ensures !s'.pe(i, j).vx {
      assert Multiply.PeCarries(N, s.pe(i, j), p[i + j], w, i, j);
      if j > 0 { assert Multiply.PeCarries(N, s.pe(i, j - 1), p[i + (j - 1)], w, i, j - 1); }
      else if i > 0 { assert Multiply.SkewCarries(s.skew(i, i - 1), p[i - 1], i); }
    }
  }

  /**
   * From any ready unit: ten rows and a beat are taken and the consumer is not
   * ready for 24 clocks. However long one waits then and however ready the
   * consumer is, only nine rows ever leave the core.
   */
  lemma RowIsLost(u: Unit, w: Matrix, x: seq<int>, later: seq<Pins>)
    requires Square(w, N) && |x| == N && Ready(u, w) && Silent(later) && |later| >= 1 && !later[0].latch
    ensures var cs := From(x, 0);
            Sized(cs + later) && |RowsTaken(u, cs + later)| == 10 && |Pushed(u, cs + later)| == 9
  {
    var cs := From(x, 0);
    var u24 := After(u, cs);
    ReadyFills(u, w, x);
    FillingRun(u, w, x, 0);
    TakenRun(u, w, x, 0);
    PushedRun(u, w, x, 0);
    NothingMore(u24, w, x, later);
    TakenJoin(u, cs, later);
    PushedJoin(u, cs, later);
  }

  lemma NothingMore(u: Unit, w: Matrix, x: seq<int>, later: seq<Pins>)
    requires Square(w, N) && |x| == N && Filling(u, w, x, 24) && Silent(later) && |later| >= 1 && !later[0].latch
    ensures Pushed(u, later) == [] && RowsTaken(u, later) == []
  {
    assert !later[0].valid;
    LastClock(u, w, x, later[0]);
    DeadForGood(Step(u, later[0]), later[1..]);
    TakenHead(u, later);
    PushedHead(u, later);
  }

  lemma {:induction false} TakenJoin(u: Unit, a: seq<Pins>, b: seq<Pins>)
    requires Ctrl.Valid(u.ctrl) && Sized(a) && Sized(b)
    ensures Sized(a + b) && RowsTaken(u, a + b) == RowsTaken(u, a) + RowsTaken(After(u, a), b)
    decreases |a|
  {
    if a == [] {
      assert a + b == b;
    } else {
      var u1 := Step(u, a[0]);
      assert (a + b)[1..] == a[1..] + b && (a + b)[0] == a[0];
      TakenJoin(u1, a[1..], b);
      TakenHead(u, a);
      TakenHead(u, a + b);
      Assoc(TakenNow(u, a[0]), RowsTaken(u1, a[1..]), RowsTaken(After(u, a), b));
    }
  }

  lemma {:induction false} PushedJoin(u: Unit, a: seq<Pins>, b: seq<Pins>)
    requires Ctrl.Valid(u.ctrl) && Sized(a) && Sized(b)
    ensures Sized(a + b) && Pushed(u, a + b) == Pushed(u, a) + Pushed(After(u, a), b)
    decreases |a|
  {
    if a == [] {
      assert a + b == b;
    } else {
      var u1 := Step(u, a[0]);
      assert (a + b)[1..] == a[1..] + b && (a + b)[0] == a[0];
      PushedJoin(u1, a[1..], b);
      PushedHead(u, a);
      PushedHead(u, a + b);
      Assoc(PushedNow(u, a[0]), Pushed(u1, a[1..]), Pushed(After(u, a), b));
    }
  }
}
