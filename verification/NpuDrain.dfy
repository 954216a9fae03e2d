/**
 * Progress of npu_unit: no accepted row stays inside. From any reachable
 * state, 239 clocks with a ready consumer and no new beat send everything.
 */
module NpuDrain {
  import opened Matrices
  import opened NpuUnit
  import Core = ElasticCore
  import Multiply = ElasticMultiply
  import Load = ElasticLoad
  import Ctrl = StreamCtrl

  /** Clocks that suffice for the rows in places q and beyond: one per place, one to leave the FIFO, four flits. */
  function Weight(p: seq<Multiply.Slot>, q: nat): (v: nat)
    requires q <= |p|
    decreases |p| - q
  {
    if q == |p| then 0 else Weight(p, q + 1) + if p[q].Row? then |p| - q + 5 else 0
  }

  lemma {:induction false} WeightIsBounded(p: seq<Multiply.Slot>, q: nat)
    requires |p| == 2 * N - 1 && q <= |p|
    ensures 2 * Weight(p, q) <= (|p| - q) * (|p| - q + 11)
    decreases |p| - q
  {
    if q < |p| {
      WeightIsBounded(p, q + 1);
      var d := |p| - q;
      assert (d - 1) * (d + 10) + 2 * (d + 5) == d * (d + 11);
    }
  }

  lemma {:induction false} NoWeightNoRows(p: seq<Multiply.Slot>, q: nat)
    requires q <= |p|
    ensures Weight(p, q) == 0 <==> Multiply.InFlight(p, q) == []
    decreases |p| - q
  {
    if q < |p| { NoWeightNoRows(p, q + 1); }
  }

  /** One clock of the pipeline never adds weight, and takes one off every row when the consumer is ready. */
  lemma {:induction false} WeightStep(p: seq<Multiply.Slot>, c: Core.Pins, q: nat)
    requires q <= |p|
    ensures var left := Weight(Multiply.Advance(p, c), q) + 5 * |Multiply.Moved(p, c, |p|)|;
            var had := Weight(p, q) + if Multiply.Moved(p, c, q) == [] then 0 else |p| - q + 5;
            left <= had && (c.ready ==> left + |Multiply.InFlight(p, q)| == had)
    decreases |p| - q
  {
    if q < |p| {
      WeightStep(p, c, q + 1);
      if c.ready { Multiply.NeverStalled(p, q); Multiply.NeverStalled(p, q + 1); }
      var next, here := Multiply.Moved(p, c, q + 1), Multiply.Moved(p, c, q);
      assert |next| + |Multiply.Contents(Multiply.Advance(p, c)[q])| == |Multiply.Contents(p[q])| + |here|;
    }
  }

  /** Clocks that suffice to empty the whole unit. */
  function Remaining(u: Unit, p: seq<Multiply.Slot>): (v: nat)
    requires Ctrl.Valid(u.ctrl)
  {
    Weight(p, 0) + 5 * u.ctrl.count + |Ctrl.Unsent(u.ctrl)|
  }

  const ENOUGH: nat := 239

  lemma RemainingIsBounded(u: Unit, p: seq<Multiply.Slot>)
    requires Ctrl.Valid(u.ctrl) && |p| == 2 * N - 1
    ensures Remaining(u, p) <= ENOUGH
  {
    WeightIsBounded(p, 0);
  }

  /** The consumer is ready and the sink is silent. */
  predicate Draining(cs: seq<Pins>) {
    Sized(cs) && forall k | 0 <= k < |cs| :: cs[k].ready && !cs[k].valid && !cs[k].latch
  }

  lemma DrainClock(u: Unit, w: Matrix, p: seq<Multiply.Slot>, c: Pins)
    requires Ctrl.Valid(u.ctrl) && Square(w, N) && Multiply.WellSized(N, p) && Multiply.Carries(N, u.core, p, w)
    requires Multiply.NoBeats(p)
    requires |c.data| == N && c.ready && !c.valid && !c.latch
    ensures var p' := Multiply.Advance(p, CorePins(u, c));
            && Multiply.WellSized(N, p') && Multiply.NoBeats(p') && Multiply.Carries(N, Step(u, c).core, p', w)
            && (Remaining(u, p) > 0 ==> Remaining(Step(u, c), p') < Remaining(u, p))
            && (Remaining(u, p) == 0 ==> Remaining(Step(u, c), p') == 0)
  {
    var cc, ct := CorePins(u, c), CtrlPins(u, c);
    Multiply.NoBeatsIsSafe(N, p, cc);
    Multiply.ClockRefines(N, u.core, p, w, cc);
    Multiply.OutputOf(N, u.core, p, w);
    WeightStep(p, cc, 0);
    NoWeightNoRows(p, 0);
    ControllerClock(u.ctrl, ct);
  }

  lemma ControllerClock(s: Ctrl.Ctrl, c: Ctrl.Pins)
    requires Ctrl.Valid(s) && |c.dout| == N && c.ready
    ensures var s', pushed := Ctrl.Step(s, c), if Ctrl.Pushes(s, c) then 1 else 0;
            var before, after := 5 * s.count + |Ctrl.Unsent(s)|, 5 * s'.count + |Ctrl.Unsent(s')|;
            && after <= before + 5 * pushed
            && (before > 0 ==> after < before + 5 * pushed)
  {
    Ctrl.UnsentStep(s, c);
    Ctrl.QueueStep(s, c);
    var s' := Ctrl.Step(s, c);
    assert |Ctrl.SentNow(s, c)| + |Ctrl.Unsent(s')| == |Ctrl.Unsent(s)| + if Ctrl.Pops(s, c) then 4 else 0;
  }

  lemma PipelineHead(u: Unit, p: seq<Multiply.Slot>, cs: seq<Pins>)
    requires Ctrl.Valid(u.ctrl) && Sized(cs) && cs != []
    ensures Multiply.PipelineAfter(p, CoreTrace(u, cs))
         == Multiply.PipelineAfter(Multiply.Advance(p, CorePins(u, cs[0])), CoreTrace(Step(u, cs[0]), cs[1..]))
  {
    assert CoreTrace(u, cs)[1..] == CoreTrace(Step(u, cs[0]), cs[1..]);
  }

  lemma {:induction false} DrainRun(u: Unit, w: Matrix, p: seq<Multiply.Slot>, cs: seq<Pins>)
    requires Ctrl.Valid(u.ctrl) && Square(w, N) && Multiply.WellSized(N, p) && Multiply.Carries(N, u.core, p, w)
    requires Multiply.NoBeats(p)
    requires Draining(cs) && |cs| >= Remaining(u, p)
    ensures Multiply.InFlight(Multiply.PipelineAfter(p, CoreTrace(u, cs)), 0) == []
    ensures Ctrl.Pending(After(u, cs).ctrl) == []
    decreases |cs|
  {
    if cs == [] {
      NoWeightNoRows(p, 0);
    } else {
      assert cs[0].ready;
      DrainClock(u, w, p, cs[0]);
      PipelineHead(u, p, cs);
      DrainRun(Step(u, cs[0]), w, Multiply.Advance(p, CorePins(u, cs[0])), cs[1..]);
    }
  }

  /** A draining unit takes no row in. */
  lemma {:induction false} DrainAcceptsNothing(u: Unit, cs: seq<Pins>)
    requires Ctrl.Valid(u.ctrl) && Draining(cs)
    ensures Accepted(u, cs) == []
    decreases |cs|
  {
    CoreTraceSized(u, cs);
    if cs != [] {
      var u1 := Step(u, cs[0]);
      assert !cs[0].valid;
      DrainAcceptsNothing(u1, cs[1..]);
      assert CoreTrace(u, cs)[1..] == CoreTrace(u1, cs[1..]);
    }
  }

  /**
   * After any run of rows, ENOUGH clocks with a ready consumer: every flit of
   * every accepted row's product has been sent, once, in order, nothing else.
   */
  lemma EveryRowComesOut(u: Unit, w: Matrix, cs: seq<Pins>, drain: seq<Pins>)
    requires Square(w, N) && Ready(u, w) && Multiplying(cs)
    requires Draining(drain) && |drain| >= ENOUGH
    ensures forall x | x in Accepted(u, cs) :: |x| == N
    ensures Ctrl.FlitsOf(Sent(u, cs)) + Ctrl.FlitsOf(Sent(After(u, cs), drain))
         == Ctrl.AllFlits(Multiply.WrappedRows(Accepted(u, cs), w))
  {
    MultiplyingIsSafe(u, cs);
    StreamComputesProduct(u, w, cs);
    var u1, p1 := After(u, cs), Multiply.PipelineAfter(Load.Bubbles(N), CoreTrace(u, cs));
    StillCarries(u, w, cs);
    RemainingIsBounded(u1, p1);
    DrainRun(u1, w, p1, drain);
    DrainAcceptsNothing(u1, drain);
    DrainSendsRest(u1, w, p1, drain);
  }

  /** And the unit is as it was: idle, the weights still active, ready for another batch or another load. */
  lemma ReadyAgain(u: Unit, w: Matrix, cs: seq<Pins>, drain: seq<Pins>)
    requires Square(w, N) && Ready(u, w) && Multiplying(cs)
    requires Draining(drain) && |drain| >= ENOUGH
    ensures var after := After(After(u, cs), drain);
            Ready(after, w) && Load.Idle(N, after.core)
  {
    var u1, p1 := After(u, cs), Multiply.PipelineAfter(Load.Bubbles(N), CoreTrace(u, cs));
    StillCarries(u, w, cs);
    RemainingIsBounded(u1, p1);
    DrainRun(u1, w, p1, drain);
    RowsCross(u1, drain);
    TraceMultiplies(u1, drain);
    Multiply.NothingLostOrRepeated(N, u1.core, p1, w, CoreTrace(u1, drain));
    var p2 := Multiply.PipelineAfter(p1, CoreTrace(u1, drain));
    AllBubbles(p2, 0);
    assert p2 == Load.Bubbles(N);
    EmptyIsIdle(After(u1, drain).core, w);
  }

  lemma {:induction false} AllBubbles(p: seq<Multiply.Slot>, q: nat)
    requires q <= |p| && Multiply.InFlight(p, q) == [] && Multiply.NoBeats(p)
    ensures forall i | q <= i < |p| :: p[i] == Multiply.Bubble
    decreases |p| - q
  {
    if q < |p| { AllBubbles(p, q + 1); }
  }

  lemma EmptyIsIdle(s: Core.Core, w: Matrix)
    requires Square(w, N) && Multiply.Carries(N, s, Load.Bubbles(N), w)
    ensures Load.Idle(N, s)
  {
    var p := Load.Bubbles(N);
    forall i, k | 0 <= k < i < N ensures !s.skew(i, k).v { assert Multiply.SkewCarries(s.skew(i, k), p[k], i); }
    forall i, j | 0 <= i < N && 0 <= j < N ensures !s.pe(i, j).vy && (j < N - 1 ==> !s.pe(i, j).vx) {
      assert Multiply.PeCarries(N, s.pe(i, j), p[i + j], w, i, j);
    }
    forall j, k | 0 <= j < N && 0 <= k < N - 1 - j ensures !s.deskew(j, k).v {
      assert Multiply.DeskewCarries(N, s.deskew(j, k), p[N + j + k], w, j);
    }
  }

  lemma StillCarries(u: Unit, w: Matrix, cs: seq<Pins>)
    requires Square(w, N) && Ready(u, w) && Multiplying(cs)
    ensures var p1 := Multiply.PipelineAfter(Load.Bubbles(N), CoreTrace(u, cs));
            Multiply.WellSized(N, p1) && Multiply.NoBeats(p1) && Multiply.Carries(N, After(u, cs).core, p1, w)
  {
    RowsCross(u, cs);
    TraceMultiplies(u, cs);
    Multiply.NothingLostOrRepeated(N, u.core, Load.Bubbles(N), w, CoreTrace(u, cs));
  }

  lemma DrainSendsRest(u: Unit, w: Matrix, p: seq<Multiply.Slot>, cs: seq<Pins>)
    requires Ctrl.Valid(u.ctrl) && Square(w, N) && Multiply.WellSized(N, p) && Multiply.Carries(N, u.core, p, w)
    requires Multiply.NoBeats(p)
    requires Draining(cs) && Accepted(u, cs) == []
    requires Multiply.InFlight(Multiply.PipelineAfter(p, CoreTrace(u, cs)), 0) == []
    requires Ctrl.Pending(After(u, cs).ctrl) == []
    ensures forall x | x in Multiply.InFlight(p, 0) :: |x| == N
    ensures Ctrl.FlitsOf(Sent(u, cs))
         == Ctrl.Pending(u.ctrl) + Ctrl.AllFlits(Multiply.WrappedRows(Multiply.InFlight(p, 0), w))
  {
    RowsCross(u, cs);
    assert Multiplying(cs);
    TraceMultiplies(u, cs);
    Multiply.NothingLostOrRepeated(N, u.core, p, w, CoreTrace(u, cs));
    var pushed := Ctrl.Pushed(u.ctrl, CtrlTrace(u, cs));
    assert pushed + [] == pushed && Multiply.InFlight(p, 0) + [] == Multiply.InFlight(p, 0);
    Ctrl.NoFlitLost(u.ctrl, CtrlTrace(u, cs));
    assert Ctrl.FlitsOf(Sent(u, cs)) + [] == Ctrl.FlitsOf(Sent(u, cs));
  }

  // ----- an offered row is taken

  /** Clocks within which a ready consumer makes room: what the shift register still holds, and the clock after. */
  function ClocksToRoom(u: Unit): (v: nat)
    requires Ctrl.Valid(u.ctrl)
    ensures 1 <= v <= 5
  {
    if !Ctrl.Full(u.ctrl) then 1 else if u.ctrl.active then |Ctrl.Unsent(u.ctrl)| + 1 else 2
  }

  predicate Offering(cs: seq<Pins>) {
    Multiplying(cs) && forall k | 0 <= k < |cs| :: cs[k].valid && cs[k].ready
  }

  /** A refused offer means a full FIFO and nothing pushed; the serializer works on. */
  lemma RefusedClock(u: Unit, w: Matrix, p: seq<Multiply.Slot>, c: Pins)
    requires Ctrl.Valid(u.ctrl) && Square(w, N) && Multiply.WellSized(N, p) && Multiply.Carries(N, u.core, p, w)
    requires Multiply.NoBeats(p)
    requires Multiply.Multiplying(N, CorePins(u, c)) && c.valid && c.ready
    requires !Core.ReadyOut(N, u.core, CorePins(u, c))
    ensures ClocksToRoom(Step(u, c)) < ClocksToRoom(u)
  {
    var cc := CorePins(u, c);
    Multiply.NoBeatsIsSafe(N, p, cc);
    Multiply.OfferTakenIff(N, u.core, p, w, cc);
    if cc.ready { Multiply.NeverStalled(p, 0); }
  }

  /** Whatever the unit holds, with a ready consumer a row that is offered on five clocks is taken on one of them. */
  lemma {:induction false} OfferIsTaken(u: Unit, w: Matrix, p: seq<Multiply.Slot>, cs: seq<Pins>)
    requires Ctrl.Valid(u.ctrl) && Square(w, N) && Multiply.WellSized(N, p) && Multiply.Carries(N, u.core, p, w)
    requires Multiply.NoBeats(p)
    requires Offering(cs) && |cs| >= ClocksToRoom(u)
    ensures Accepted(u, cs) != []
    decreases |cs|
  {
    var c, cc := cs[0], CorePins(u, cs[0]);
    assert c.valid && c.ready && !c.latch && !c.mode;
    CoreTraceSized(u, cs);
    if !Core.ReadyOut(N, u.core, cc) {
      RefusedClock(u, w, p, c);
      Multiply.NoBeatsIsSafe(N, p, cc);
      Multiply.ClockRefines(N, u.core, p, w, cc);
      OfferIsTaken(Step(u, c), w, Multiply.Advance(p, cc), cs[1..]);
      assert CoreTrace(u, cs)[1..] == CoreTrace(Step(u, c), cs[1..]);
    }
  }

  /** So after any run of rows, however full the unit, the next row is in within five clocks. */
  lemma NextRowIsTaken(u: Unit, w: Matrix, before: seq<Pins>, cs: seq<Pins>)
    requires Square(w, N) && Ready(u, w) && Multiplying(before)
    requires Offering(cs) && |cs| >= 5
    ensures Accepted(After(u, before), cs) != []
  {
    StillCarries(u, w, before);
    OfferIsTaken(After(u, before), w, Multiply.PipelineAfter(Load.Bubbles(N), CoreTrace(u, before)), cs);
  }
}
