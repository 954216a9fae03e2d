/** npu_unit: the elastic core feeding the stream controller, clock by clock. */
module NpuUnit {
  import opened Matrices
  import opened Seqs
  import Core = ElasticCore
  import Multiply = ElasticMultiply
  import Load = ElasticLoad
  import Ctrl = StreamCtrl

  const N: nat := 8

  datatype Unit = Unit(core: Core.Core, ctrl: Ctrl.Ctrl)

  /** st_sink valid and data (eight lanes), seq_mode[0], weight_latch_en, st_source_ready, seq_total_rows. */
  datatype Pins = Pins(valid: bool, data: seq<int>, mode: bool, latch: bool, ready: bool, total: nat)

  predicate Sized(cs: seq<Pins>) {
    forall k | 0 <= k < |cs| :: |cs[k].data| == N
  }

  function CorePins(u: Unit, c: Pins): (r: Core.Pins) {
    Core.Pins(c.valid, c.mode, c.data, c.latch, !Ctrl.Full(u.ctrl))
  }

  function CtrlPins(u: Unit, c: Pins): (p: Ctrl.Pins)
    ensures |p.dout| == N
  {
    Ctrl.Pins(Core.ValidOut(N, u.core), Core.YOut(N, u.core), c.ready, c.total)
  }

  function Step(u: Unit, c: Pins): (u': Unit)
    requires Ctrl.Valid(u.ctrl) && |c.data| == N
    ensures Ctrl.Valid(u'.ctrl)
  {
    Unit(Core.Step(N, u.core, CorePins(u, c)), Ctrl.Step(u.ctrl, CtrlPins(u, c)))
  }

  function After(u: Unit, cs: seq<Pins>): (u': Unit)
    requires Ctrl.Valid(u.ctrl) && Sized(cs)
    ensures Ctrl.Valid(u'.ctrl)
    decreases |cs|
  {
    if cs == [] then u else After(Step(u, cs[0]), cs[1..])
  }

  /** What the core sees on its pins, clock by clock. */
  function CoreTrace(u: Unit, cs: seq<Pins>): (ps: seq<Core.Pins>)
    requires Ctrl.Valid(u.ctrl) && Sized(cs)
    ensures |ps| == |cs| && forall k | 0 <= k < |ps| ::
              ps[k].valid == cs[k].valid && ps[k].mode == cs[k].mode && ps[k].x == cs[k].data && ps[k].latch == cs[k].latch
    decreases |cs|
  {
    if cs == [] then [] else [CorePins(u, cs[0])] + CoreTrace(Step(u, cs[0]), cs[1..])
  }

  function CtrlTrace(u: Unit, cs: seq<Pins>): (ps: seq<Ctrl.Pins>)
    requires Ctrl.Valid(u.ctrl) && Sized(cs)
    ensures |ps| == |cs| && Ctrl.EightWide(ps) && forall k | 0 <= k < |ps| :: ps[k].total == cs[k].total
    decreases |cs|
  {
    if cs == [] then [] else [CtrlPins(u, cs[0])] + CtrlTrace(Step(u, cs[0]), cs[1..])
  }

  lemma CoreTraceSized(u: Unit, cs: seq<Pins>)
    requires Ctrl.Valid(u.ctrl) && Sized(cs)
    ensures forall p | p in CoreTrace(u, cs) :: |p.x| == N
  {
  }

  /** Every row the core hands over finds room in the FIFO, and no other row enters it. */
  lemma {:induction false} RowsCross(u: Unit, cs: seq<Pins>)
    requires Ctrl.Valid(u.ctrl) && Sized(cs)
    ensures forall p | p in CoreTrace(u, cs) :: |p.x| == N
    ensures Multiply.Delivered(N, u.core, CoreTrace(u, cs)) == Ctrl.Pushed(u.ctrl, CtrlTrace(u, cs))
    ensures Multiply.After(N, u.core, CoreTrace(u, cs)) == After(u, cs).core
    ensures Ctrl.After(u.ctrl, CtrlTrace(u, cs)) == After(u, cs).ctrl
    decreases |cs|
  {
    CoreTraceSized(u, cs);
    if cs != [] {
      var u1 := Step(u, cs[0]);
      RowsCross(u1, cs[1..]);
      assert CoreTrace(u, cs)[1..] == CoreTrace(u1, cs[1..]);
      assert CtrlTrace(u, cs)[1..] == CtrlTrace(u1, cs[1..]);
    }
  }

  /** The sink beats that were accepted. */
  function Accepted(u: Unit, cs: seq<Pins>): (xs: seq<seq<int>>)
    requires Ctrl.Valid(u.ctrl) && Sized(cs)
  {
    CoreTraceSized(u, cs);
    Multiply.Accepted(N, u.core, CoreTrace(u, cs))
  }

  function Sent(u: Unit, cs: seq<Pins>): (bs: seq<Ctrl.Beat>)
    requires Ctrl.Valid(u.ctrl) && Sized(cs)
  {
    Ctrl.Sent(u.ctrl, CtrlTrace(u, cs))
  }

  /** Weights loaded, latched and nothing on its way. */
  ghost predicate Ready(u: Unit, w: Matrix)
    requires Square(w, N)
  {
    Ctrl.Valid(u.ctrl) && Ctrl.Pending(u.ctrl) == [] && Multiply.Carries(N, u.core, Load.Bubbles(N), w)
  }

  predicate Multiplying(cs: seq<Pins>) {
    Sized(cs) && forall k | 0 <= k < |cs| :: !cs[k].latch && !(cs[k].mode && cs[k].valid)
  }

  lemma TraceMultiplies(u: Unit, cs: seq<Pins>)
    requires Ctrl.Valid(u.ctrl) && Multiplying(cs)
    ensures Multiply.AllMultiplying(N, CoreTrace(u, cs))
  {
    var ps := CoreTrace(u, cs);
    CoreTraceSized(u, cs);
    forall q | q in ps ensures Multiply.Multiplying(N, q) {
      var k :| 0 <= k < |ps| && ps[k] == q;
      assert !cs[k].latch;
    }
  }

  /** The accepted rows that have not come out of the core yet. */
  function Inside(u: Unit, cs: seq<Pins>): (r: seq<seq<int>>)
    requires Ctrl.Valid(u.ctrl) && Sized(cs)
  {
    Multiply.InFlight(Multiply.PipelineAfter(Load.Bubbles(N), CoreTrace(u, cs)), 0)
  }

  /** The rows, not the weight beats, that were accepted. */
  function RowsTaken(u: Unit, cs: seq<Pins>): (xs: seq<seq<int>>)
    requires Ctrl.Valid(u.ctrl) && Sized(cs)
  {
    CoreTraceSized(u, cs);
    Multiply.RowsTaken(N, u.core, CoreTrace(u, cs))
  }

  /** No clock latches, and no weight beat catches up with a row that waits in the last column. */
  ghost predicate SafeRun(u: Unit, cs: seq<Pins>)
    requires Ctrl.Valid(u.ctrl) && Sized(cs)
  {
    Multiply.SafeRun(N, Load.Bubbles(N), CoreTrace(u, cs))
  }

  /** Rows alone are safe. */
  lemma MultiplyingIsSafe(u: Unit, cs: seq<Pins>)
    requires Ctrl.Valid(u.ctrl) && Multiplying(cs)
    ensures SafeRun(u, cs) && RowsTaken(u, cs) == Accepted(u, cs)
  {
    CoreTraceSized(u, cs);
    TraceMultiplies(u, cs);
    Multiply.MultiplyingIsSafe(N, u.core, Load.Bubbles(N), CoreTrace(u, cs));
  }

  /** The rows that enter the FIFO, then those still inside the core, are the rows taken times w. */
  lemma RowsAreProducts(u: Unit, w: Matrix, cs: seq<Pins>)
    requires Square(w, N) && Ready(u, w) && Sized(cs) && SafeRun(u, cs)
    ensures forall x | x in RowsTaken(u, cs) :: |x| == N
    ensures forall x | x in Inside(u, cs) :: |x| == N
    ensures Ctrl.Pushed(u.ctrl, CtrlTrace(u, cs)) + Multiply.WrappedRows(Inside(u, cs), w)
         == Multiply.WrappedRows(RowsTaken(u, cs), w)
  {
    var p := Load.Bubbles(N);
    RowsCross(u, cs);
    Multiply.RowsSurvive(N, u.core, p, w, CoreTrace(u, cs));
    Multiply.NoneInFlight(p, 0);
    assert [] + RowsTaken(u, cs) == RowsTaken(u, cs);
  }

  /**
   * For every pattern of sink valid and source ready, weight beats between
   * and behind the rows included as long as none catches up with a waiting
   * row: the flits sent, then those waiting in the controller, then the rows
   * still inside the core, are the products of the rows taken cut in four, in
   * order.
   */
  lemma StreamComputesProduct(u: Unit, w: Matrix, cs: seq<Pins>)
    requires Square(w, N) && Ready(u, w) && Sized(cs) && SafeRun(u, cs)
    ensures forall x | x in RowsTaken(u, cs) :: |x| == N
    ensures forall x | x in Inside(u, cs) :: |x| == N
    ensures Ctrl.FlitsOf(Sent(u, cs))
            + (Ctrl.Pending(After(u, cs).ctrl) + Ctrl.AllFlits(Multiply.WrappedRows(Inside(u, cs), w)))
         == Ctrl.AllFlits(Multiply.WrappedRows(RowsTaken(u, cs), w))
  {
    RowsAreProducts(u, w, cs);
    RowsCross(u, cs);
    Ctrl.NoFlitLost(u.ctrl, CtrlTrace(u, cs));
    CutInFour(Ctrl.FlitsOf(Sent(u, cs)), Ctrl.Pending(After(u, cs).ctrl), Ctrl.Pushed(u.ctrl, CtrlTrace(u, cs)),
              Multiply.WrappedRows(Inside(u, cs), w));
  }

  lemma CutInFour(sent: seq<Ctrl.Flit>, pending: seq<Ctrl.Flit>, pushed: seq<seq<int>>, left: seq<seq<int>>)
    requires forall k | 0 <= k < |pushed| :: |pushed[k]| == N
    requires forall k | 0 <= k < |left| :: |left[k]| == N
    requires Ctrl.Balanced(sent, pending, [], Ctrl.AllFlits(pushed))
    ensures sent + (pending + Ctrl.AllFlits(left)) == Ctrl.AllFlits(pushed + left)
  {
    Ctrl.AllFlitsAppend(pushed, left);
    Assoc(sent, pending, Ctrl.AllFlits(left));
    assert [] + Ctrl.AllFlits(pushed) == Ctrl.AllFlits(pushed);
  }

  predicate Loading(cs: seq<Pins>) {
    Sized(cs) && forall k | 0 <= k < |cs| :: cs[k].valid ==> cs[k].mode
  }

  /** Silence on the sink for the last d clocks. */
  predicate QuietFor(cs: seq<Pins>, d: nat) {
    |cs| >= d && forall k | |cs| - d <= k < |cs| :: !cs[k].valid
  }

  predicate EndsQuiet(cs: seq<Pins>) {
    QuietFor(cs, 2 * N - 2)
  }

  lemma TraceLoads(u: Unit, cs: seq<Pins>, d: nat)
    requires Ctrl.Valid(u.ctrl) && Loading(cs) && QuietFor(cs, d)
    ensures Load.AllLoading(N, CoreTrace(u, cs)) && Load.QuietFor(Load.Offers(CoreTrace(u, cs)), d)
  {
    var ps := CoreTrace(u, cs);
    CoreTraceSized(u, cs);
    forall q | q in ps ensures Load.Loading(N, q) {
      var k :| 0 <= k < |ps| && ps[k] == q;
      assert cs[k].valid ==> cs[k].mode;
    }
    var h := Load.Offers(ps);
    Load.OffersAt(ps);
    forall t | |h| - d <= t < |h| ensures h[t] == Multiply.Bubble { assert !cs[t].valid; }
  }

  /** Loading hands nothing to the controller, and the latch pulse makes w active. */
  lemma CoreLoads(u: Unit, w: Matrix, cs: seq<Pins>, latch: Pins)
    requires Ctrl.Valid(u.ctrl) && Load.Idle(N, u.core) && Square(w, N)
    requires Loading(cs) && EndsQuiet(cs) && Load.LastBeatsAre(N, Accepted(u, cs), w)
    requires |latch.data| == N && latch.latch && !latch.valid
    ensures Ctrl.Pushed(u.ctrl, CtrlTrace(u, cs)) == []
    ensures !Core.ValidOut(N, After(u, cs).core)
    ensures Multiply.Carries(N, Step(After(u, cs), latch).core, Load.Bubbles(N), w)
  {
    var ps, u1 := CoreTrace(u, cs), After(u, cs);
    RowsCross(u, cs);
    TraceLoads(u, cs, 2 * N - 2);
    var h := Load.Offers(ps);
    Load.IdleLoadsNothing(N, u.core);
    Load.LoadRun(N, u.core, [], ps);
    assert [] + h == h && [] + Accepted(u, cs) == Accepted(u, cs);
    var c := CorePins(u1, latch);
    Load.LatchActivates(N, u1.core, h, w, c, Load.Bubbles(N));
    Load.LoadClock(N, u1.core, h, c);
  }

  /**
   * From an idle unit: load beats with any gaps, silence, one latch pulse.
   * Whatever the consumer does meanwhile, nothing is sent and w is active.
   */
  lemma LoadMakesReady(u: Unit, w: Matrix, cs: seq<Pins>, latch: Pins)
    requires Ctrl.Valid(u.ctrl) && Ctrl.Pending(u.ctrl) == [] && Load.Idle(N, u.core) && Square(w, N)
    requires Loading(cs) && EndsQuiet(cs) && Load.LastBeatsAre(N, Accepted(u, cs), w)
    requires |latch.data| == N && latch.latch && !latch.valid
    ensures Sized(cs + [latch]) && Sent(u, cs + [latch]) == []
    ensures Ready(After(u, cs + [latch]), w)
  {
    CoreLoads(u, w, cs, latch);
    IdleLatch(u, cs, latch);
  }

  /** The unit as rst_n leaves it. */
  const RESET := Unit(Core.CLEARED, Ctrl.RESET)

  lemma ResetIsIdle()
    ensures Ctrl.Valid(RESET.ctrl) && Ctrl.Pending(RESET.ctrl) == [] && Load.Idle(N, RESET.core)
  {
  }

  /** While loading and latching, the controller neither takes nor sends anything. */
  lemma IdleLatch(u: Unit, cs: seq<Pins>, latch: Pins)
    requires Ctrl.Valid(u.ctrl) && Ctrl.Pending(u.ctrl) == [] && Sized(cs) && |latch.data| == N
    requires Ctrl.Pushed(u.ctrl, CtrlTrace(u, cs)) == []
    requires !Core.ValidOut(N, After(u, cs).core)
    ensures Sent(u, cs + [latch]) == []
    ensures Ctrl.Pending(After(u, cs + [latch]).ctrl) == []
    ensures After(u, cs + [latch]) == Step(After(u, cs), latch)
  {
    RowsCross(u, cs + [latch]);
    TraceAppend(u, cs, latch);
    Ctrl.NoFlitLost(u.ctrl, CtrlTrace(u, cs + [latch]));
  }

  lemma {:induction false} TraceAppend(u: Unit, cs: seq<Pins>, c: Pins)
    requires Ctrl.Valid(u.ctrl) && Sized(cs) && |c.data| == N && Sized(cs + [c])
    ensures After(u, cs + [c]) == Step(After(u, cs), c)
    ensures Ctrl.Pushed(u.ctrl, CtrlTrace(u, cs + [c]))
         == Ctrl.Pushed(u.ctrl, CtrlTrace(u, cs)) + Ctrl.PushedNow(After(u, cs).ctrl, CtrlPins(After(u, cs), c))
    decreases |cs|
  {
    var all := cs + [c];
    if cs == [] {
      assert all[1..] == [];
    } else {
      var u1 := Step(u, cs[0]);
      assert all[1..] == cs[1..] + [c];
      TraceAppend(u1, cs[1..], c);
      assert CtrlTrace(u, all)[1..] == CtrlTrace(u1, all[1..]);
      assert CtrlTrace(u, cs)[1..] == CtrlTrace(u1, cs[1..]);
      var now := Ctrl.PushedNow(u.ctrl, CtrlPins(u, cs[0]));
      Assoc(now, Ctrl.Pushed(u1.ctrl, CtrlTrace(u1, cs[1..])),
            Ctrl.PushedNow(After(u, cs).ctrl, CtrlPins(After(u, cs), c)));
    }
  }
}
