/**
 * How long the host has to wait between the last weight beat and the latch
 * pulse. The unit does not enforce it: seq_busy has no driver.
 */
module LatchDelay {
  import opened Matrices
  import opened ElasticCore
  import opened ElasticMultiply
  import opened ElasticLoad
  import Unit = NpuUnit
  import Ctrl = StreamCtrl

  ghost predicate Activated(n: nat, s: Core, w: Matrix)
    requires Square(w, n)
  {
    forall i, j | 0 <= i < n && 0 <= j < n :: s.pe(i, j).active == w[i][j]
  }

  lemma CarryingIsActivated(n: nat, s: Core, p: seq<Slot>, w: Matrix)
    requires WellSized(n, p) && Square(w, n) && Carries(n, s, p, w)
    ensures Activated(n, s, w)
  {
    forall i, j | 0 <= i < n && 0 <= j < n ensures s.pe(i, j).active == w[i][j] {
      assert PeCarries(n, s.pe(i, j), p[i + j], w, i, j);
    }
  }

  /** From an idle core, w is loaded, d silent clocks pass, and latch pulses. */
  ghost predicate Latches(n: nat, s: Core, w: Matrix, load: seq<Pins>, latch: Pins, d: nat)
    requires Square(w, n)
  {
    && Idle(n, s) && AllLoading(n, load) && QuietFor(Offers(load), d)
    && LastBeatsAre(n, Accepted(n, s, load), w)
    && |latch.x| == n && latch.latch && !latch.valid
  }

  lemma LateEnough(n: nat, s: Core, w: Matrix, load: seq<Pins>, latch: Pins, d: nat)
    requires n >= 1 && Square(w, n) && Latches(n, s, w, load, latch, d) && d >= 2 * n - 2
    ensures Activated(n, Step(n, After(n, s, load), latch), w)
  {
    var h, s1 := Offers(load), After(n, s, load);
    IdleLoadsNothing(n, s);
    LoadRun(n, s, [], load);
    assert [] + h == h && [] + Accepted(n, s, load) == Accepted(n, s, load);
    LatchActivates(n, s1, h, w, latch, Bubbles(n));
    CarryingIsActivated(n, Step(n, s1, latch), Bubbles(n), w);
  }

  // ----- too soon

  function Ones(n: nat): (w: Matrix)
    ensures Square(w, n)
  {
    seq(n, i => seq(n, j => 1))
  }

  /** 2n beats of zeros and n beats of ones without a gap, then d silent clocks. */
  ghost predicate ZerosThenOnes(n: nat, load: seq<Pins>, d: nat) {
    && |load| == 3 * n + d
    && (forall t | 0 <= t < |load| :: |load[t].x| == n && load[t].valid == (t < 3 * n) && (t < 3 * n ==> load[t].mode))
    && (forall t, i | 0 <= t < 3 * n && 0 <= i < n :: load[t].x[i] == if t < 2 * n then 0 else 1)
  }

  lemma {:induction false} BeatsOfBeats(h: seq<Slot>)
    requires forall t | 0 <= t < |h| :: h[t].Beat?
    ensures |BeatsOf(h)| == |h| && forall t | 0 <= t < |h| :: BeatsOf(h)[t] == h[t].x
    decreases |h|
  {
    if h != [] { BeatsOfBeats(h[..|h| - 1]); }
  }

  lemma BeatsOffered(n: nat, load: seq<Pins>, d: nat)
    requires ZerosThenOnes(n, load, d)
    ensures AllLoading(n, load) && QuietFor(Offers(load), d)
    ensures forall t | 0 <= t < 3 * n :: Offers(load)[t] == Beat(load[t].x)
  {
    OffersAt(load);
    forall c | c in load ensures Loading(n, c) { var t :| 0 <= t < |load| && load[t] == c; }
  }

  /** What has come to place q of that load's history. */
  lemma BeatsReached(n: nat, load: seq<Pins>, d: nat, q: nat)
    requires ZerosThenOnes(n, load, d) && d <= q <= 3 * n + d
    ensures var xs := Reached(Offers(load), q);
            |xs| == 3 * n + d - q && forall t | 0 <= t < |xs| :: xs[t] == load[t].x
  {
    BeatsOffered(n, load, d);
    BeatsOfBeats(Offers(load)[..3 * n + d - q]);
  }

  /** The last PE has not seen the last beats when the latch comes. */
  lemma TooSoon(n: nat, s: Core, load: seq<Pins>, latch: Pins, d: nat)
    requires n >= 1 && Idle(n, s) && ZerosThenOnes(n, load, d) && d < 2 * n - 2
    requires |latch.x| == n && latch.latch && !latch.valid
    ensures AllLoading(n, load) && Latches(n, s, Ones(n), load, latch, d)
    ensures Step(n, After(n, s, load), latch).pe(n - 1, n - 1).active == 0
  {
    var h, xs := Offers(load), Accepted(n, s, load);
    BeatsOffered(n, load, d);
    BeatsReached(n, load, d, d);
    QuietReached(h, d, d);
    IdleLoadsNothing(n, s);
    LoadRun(n, s, [], load);
    assert [] + h == h && [] + xs == xs;
    LastAreOnes(n, load, d, xs);
    LastPe(n, After(n, s, load), load, latch, d);
  }

  lemma LastAreOnes(n: nat, load: seq<Pins>, d: nat, xs: seq<seq<int>>)
    requires n >= 1 && ZerosThenOnes(n, load, d)
    requires |xs| == 3 * n && forall t | 0 <= t < |xs| :: xs[t] == load[t].x
    ensures LastBeatsAre(n, xs, Ones(n))
  {
  }

  lemma LastPe(n: nat, s: Core, load: seq<Pins>, latch: Pins, d: nat)
    requires n >= 1 && ZerosThenOnes(n, load, d) && d < 2 * n - 2
    requires SizedHistory(n, Offers(load)) && Loads(n, s, Offers(load))
    requires |latch.x| == n && latch.latch && !latch.valid
    ensures Step(n, s, latch).pe(n - 1, n - 1).active == 0
  {
    LastReached(n, load, d);
    LatchTakes(n, s, Offers(load), latch, n - 1, n - 1);
  }

  lemma LastReached(n: nat, load: seq<Pins>, d: nat)
    requires n >= 1 && ZerosThenOnes(n, load, d) && d < 2 * n - 2
    ensures var xs := Reached(Offers(load), (n - 1) + (n - 1));
            |xs| > n - 1 && Lane(xs[|xs| - 1 - (n - 1)], n - 1) == 0
  {
    BeatsReached(n, load, d, 2 * n - 2);
    ZeroLane(n, load, d, Reached(Offers(load), 2 * n - 2));
  }

  lemma ZeroLane(n: nat, load: seq<Pins>, d: nat, xs: seq<seq<int>>)
    requires n >= 1 && ZerosThenOnes(n, load, d) && d < 2 * n - 2
    requires |xs| == n + d + 2 && forall t | 0 <= t < |xs| :: xs[t] == load[t].x
    ensures Lane(xs[|xs| - 1 - (n - 1)], n - 1) == 0
  {
    assert xs[d + 2] == load[d + 2].x;
  }

  /** One clock of that load. */
  function Clock(n: nat, t: nat): (c: Pins)
    ensures |c.x| == n && c.valid == (t < 3 * n) && c.mode && !c.latch
    ensures forall i | 0 <= i < n :: c.x[i] == if t < 2 * n then 0 else 1
  {
    Pins(t < 3 * n, true, seq(n, i => if t < 2 * n then 0 else 1), false, true)
  }

  function Clocks(n: nat, d: nat): (load: seq<Pins>)
    ensures ZerosThenOnes(n, load, d)
  {
    seq(3 * n + d, t requires 0 <= t < 3 * n + d => Clock(n, t))
  }

  /** A latch after d silent clocks makes every loaded matrix active if and only if d is at least 2n - 2. */
  lemma DelayIff(n: nat, d: nat)
    requires n >= 1
    ensures d >= 2 * n - 2 <==>
              forall s, w, load, latch | Square(w, n) && Latches(n, s, w, load, latch, d) ::
                Activated(n, Step(n, After(n, s, load), latch), w)
  {
    if d >= 2 * n - 2 {
      forall s, w, load, latch | Square(w, n) && Latches(n, s, w, load, latch, d)
        ensures Activated(n, Step(n, After(n, s, load), latch), w)
      {
        LateEnough(n, s, w, load, latch, d);
      }
    } else {
      var load, latch := Clocks(n, d), Clock(n, 3 * n).(latch := true);
      TooSoon(n, CLEARED, load, latch, d);
      assert Ones(n)[n - 1][n - 1] == 1;
      assert !Activated(n, Step(n, After(n, CLEARED, load), latch), Ones(n));
    }
  }

  // ----- the same for the whole unit

  /** From an idle unit, w is loaded, d silent clocks pass, and npu_ctrl pulses the latch. */
  ghost predicate UnitLatches(u: Unit.Unit, w: Matrix, load: seq<Unit.Pins>, latch: Unit.Pins, d: nat)
    requires Square(w, Unit.N)
  {
    && Ctrl.Valid(u.ctrl) && Ctrl.Pending(u.ctrl) == [] && Idle(Unit.N, u.core)
    && Unit.Loading(load) && Unit.QuietFor(load, d)
    && LastBeatsAre(Unit.N, Unit.Accepted(u, load), w)
    && |latch.data| == Unit.N && latch.latch && !latch.valid
  }

  /** What the core inside has active after the pulse. */
  ghost predicate UnitActivated(u: Unit.Unit, w: Matrix, load: seq<Unit.Pins>, latch: Unit.Pins)
    requires Square(w, Unit.N) && Ctrl.Valid(u.ctrl) && Unit.Sized(load) && |latch.data| == Unit.N
  {
    Activated(Unit.N, Unit.Step(Unit.After(u, load), latch).core, w)
  }

  lemma UnitLateEnough(u: Unit.Unit, w: Matrix, load: seq<Unit.Pins>, latch: Unit.Pins, d: nat)
    requires Square(w, Unit.N) && UnitLatches(u, w, load, latch, d) && d >= 2 * Unit.N - 2
    ensures UnitActivated(u, w, load, latch)
  {
    Unit.RowsCross(u, load);
    Unit.TraceLoads(u, load, d);
    LateEnough(Unit.N, u.core, w, Unit.CoreTrace(u, load), Unit.CorePins(Unit.After(u, load), latch), d);
  }

  function UnitClocks(d: nat): (load: seq<Unit.Pins>)
    ensures |load| == 3 * Unit.N + d && Unit.Loading(load) && Unit.QuietFor(load, d)
    ensures forall t | 0 <= t < |load| :: load[t].valid == Clock(Unit.N, t).valid && load[t].data == Clock(Unit.N, t).x
  {
    seq(3 * Unit.N + d, t requires 0 <= t < 3 * Unit.N + d =>
      Unit.Pins(Clock(Unit.N, t).valid, Clock(Unit.N, t).x, true, false, true, 1))
  }

  /** From reset, with at most 13 silent clocks, the last PE of the unit multiplies by a weight that was not loaded. */
  lemma UnitTooSoon(d: nat, latch: Unit.Pins)
    requires d < 2 * Unit.N - 2 && |latch.data| == Unit.N && latch.latch && !latch.valid
    ensures UnitLatches(Unit.RESET, Ones(Unit.N), UnitClocks(d), latch, d)
    ensures !UnitActivated(Unit.RESET, Ones(Unit.N), UnitClocks(d), latch)
  {
    var u, load := Unit.RESET, UnitClocks(d);
    var ps := Unit.CoreTrace(u, load);
    Unit.ResetIsIdle();
    Unit.RowsCross(u, load);
    assert ZerosThenOnes(Unit.N, ps, d);
    TooSoon(Unit.N, u.core, ps, Unit.CorePins(Unit.After(u, load), latch), d);
    assert Ones(Unit.N)[Unit.N - 1][Unit.N - 1] == 1;
  }

  /** The unit multiplies by the matrix that was loaded, whatever it is, if and only if the host waits 2N - 2 clocks. */
  lemma UnitDelayIff(d: nat)
    ensures d >= 2 * Unit.N - 2 <==>
              forall u, w, load, latch | Square(w, Unit.N) && UnitLatches(u, w, load, latch, d) ::
                UnitActivated(u, w, load, latch)
  {
    if d >= 2 * Unit.N - 2 {
      forall u, w, load, latch | Square(w, Unit.N) && UnitLatches(u, w, load, latch, d)
        ensures UnitActivated(u, w, load, latch)
      {
        UnitLateEnough(u, w, load, latch, d);
      }
    } else {
      UnitTooSoon(d, Unit.Pins(false, Clock(Unit.N, 0).x, false, true, true, 1));
    }
  }
}
