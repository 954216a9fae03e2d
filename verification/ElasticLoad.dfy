/**
 * Loading weights into the elastic core: each row of PEs is a shift register
 * behind the input skew. Load tokens never stall, so bubbles between beats
 * change nothing; after the pipeline drains, one latch pulse makes the last n
 * accepted beats the active weights, last beat in column 0.
 */
module ElasticLoad {
  import opened Matrices
  import opened ElasticCore
  import opened ElasticMultiply
  import opened Seqs

  /** A clock that offers a load beat or nothing. */
  predicate Loading(n: nat, c: Pins) {
    |c.x| == n && (c.valid ==> c.mode)
  }

  ghost predicate AllLoading(n: nat, cs: seq<Pins>) {
    forall c | c in cs :: Loading(n, c)
  }

  /** What each clock since the start of loading offered, oldest first. */
  function Offers(cs: seq<Pins>): (h: seq<Slot>)
    ensures |h| == |cs|
  {
    if cs == [] then [] else [Offered(cs[0])] + Offers(cs[1..])
  }

  function BeatOf(slot: Slot): (xs: seq<seq<int>>) {
    if slot.Beat? then [slot.x] else []
  }

  /** The beats of a history, oldest first. */
  function BeatsOf(h: seq<Slot>): (xs: seq<seq<int>>) {
    if h == [] then [] else BeatsOf(h[..|h| - 1]) + BeatOf(h[|h| - 1])
  }

  /** What stands q places from the input. */
  function SlotAt(h: seq<Slot>, q: nat): (r: Slot) {
    if q < |h| then h[|h| - 1 - q] else Bubble
  }

  /** The beats that have come at least as far as place q. */
  function Reached(h: seq<Slot>, q: nat): (xs: seq<seq<int>>) {
    if q <= |h| then BeatsOf(h[..|h| - q]) else []
  }

  lemma ReachedShift(h: seq<Slot>, o: Slot, q: nat)
    ensures SlotAt(h + [o], q + 1) == SlotAt(h, q)
    ensures Reached(h + [o], q + 1) == Reached(h, q)
    ensures Reached(h, q) == Reached(h, q + 1) + BeatOf(SlotAt(h, q))
    ensures Reached(h + [o], 0) == Reached(h, 0) + BeatOf(o)
  {
    var h' := h + [o];
    assert h'[..|h'|] == h' && h'[..|h'| - 1] == h && h[..|h|] == h;
    if q <= |h| { assert h'[..|h'| - (q + 1)] == h[..|h| - q]; }
    if q < |h| { assert h[..|h| - q][..|h| - q - 1] == h[..|h| - (q + 1)]; }
  }

  predicate SizedHistory(n: nat, h: seq<Slot>) {
    n >= 1 && forall t | 0 <= t < |h| :: h[t].Beat? ==> |h[t].x| == n
  }

  /** Element i of a row; rows always have one per lane where this matters. */
  function Lane(x: seq<int>, i: nat): (r: int) {
    if i < |x| then x[i] else 0
  }

  // ----- what the registers hold while history h is being loaded

  ghost predicate SkewLoads(r: SkewReg, slot: Slot, i: nat) {
    r.v == slot.Beat? && (slot.Beat? ==> r.lw && r.x == Lane(slot.x, i))
  }

  /** Rows xs have shifted into row i as far as this PE, the last of them still at its output if slot is a row. */
  ghost predicate PeLoads(n: nat, r: MacPe, slot: Slot, xs: seq<seq<int>>, i: nat, j: nat) {
    && !r.vy
    && (j < n - 1 ==> r.vx == slot.Beat?)
    && (|xs| > j ==> r.shadow == Lane(xs[|xs| - 1 - j], i))
    && (j < n - 1 && slot.Beat? ==> r.lw && (|xs| > j + 1 ==> r.x == Lane(xs[|xs| - 2 - j], i)))
  }

  ghost predicate PeLoadsAt(n: nat, s: Core, h: seq<Slot>, i: nat, j: nat) {
    PeLoads(n, s.pe(i, j), SlotAt(h, i + j), Reached(h, i + j), i, j)
  }

  ghost predicate Loads(n: nat, s: Core, h: seq<Slot>)
    requires SizedHistory(n, h)
  {
    && (forall i, k | 0 <= k < i < n :: SkewLoads(s.skew(i, k), SlotAt(h, k), i))
    && (forall i, j | 0 <= i < n && 0 <= j < n :: PeLoadsAt(n, s, h, i, j))
    && (forall j, k | 0 <= j < n && 0 <= k < n - 1 - j :: !s.deskew(j, k).v)
  }

  /** Nothing is on its way anywhere that could still have an effect. */
  ghost predicate Idle(n: nat, s: Core) {
    && (forall i, k | 0 <= k < i < n :: !s.skew(i, k).v)
    && (forall i, j | 0 <= i < n && 0 <= j < n :: !s.pe(i, j).vy && (j < n - 1 ==> !s.pe(i, j).vx))
    && (forall j, k | 0 <= j < n && 0 <= k < n - 1 - j :: !s.deskew(j, k).v)
  }

  lemma IdleLoadsNothing(n: nat, s: Core)
    requires n >= 1 && Idle(n, s)
    ensures Loads(n, s, [])
  {
    forall q: nat ensures Reached([], q) == [] {}
  }

  // ----- one clock of loading

  function EnteringLoad(h: seq<Slot>, c: Pins, q: nat): (r: Slot) {
    if q == 0 then Offered(c) else SlotAt(h, q - 1)
  }

  lemma {:induction false} LoadFires(n: nat, s: Core, h: seq<Slot>, c: Pins, i: nat, j: nat)
    requires SizedHistory(n, h) && Loads(n, s, h) && Loading(n, c) && i < n && j < n
    ensures !FireCalc(n, s, c, i, j)
    ensures FireLoad(n, s, c, i, j) == EnteringLoad(h, c, i + j).Beat?
    ensures j < n - 1 && s.pe(i, j).vx ==> ReadyX(n, s, c, i, j + 1)
    decreases n - j
  {
    assert PeLoadsAt(n, s, h, i, j);
    if j > 0 { assert PeLoadsAt(n, s, h, i, j - 1); }
    else if i > 0 { assert SkewLoads(s.skew(i, i - 1), SlotAt(h, i - 1), i); }
    if j < n - 1 { LoadFires(n, s, h, c, i, j + 1); }
    assert CanFireX(n, s, c, i, j);
  }

  lemma {:induction false} LoadSkewReady(n: nat, s: Core, h: seq<Slot>, c: Pins, i: nat, k: nat)
    requires SizedHistory(n, h) && Loads(n, s, h) && Loading(n, c) && k <= i < n
    ensures k < i || EnteringLoad(h, c, k).Beat? ==> SkewReady(n, s, c, i, k)
    decreases i - k
  {
    if k == i {
      LoadFires(n, s, h, c, i, 0);
    } else {
      assert SkewLoads(s.skew(i, k), SlotAt(h, k), i);
      LoadSkewReady(n, s, h, c, i, k + 1);
    }
  }

  lemma LoadSkewStep(n: nat, s: Core, h: seq<Slot>, c: Pins, i: nat, k: nat)
    requires SizedHistory(n, h) && Loads(n, s, h) && Loading(n, c) && k < i < n
    ensures SkewLoads(NextSkew(n, s, c, i, k), SlotAt(h + [Offered(c)], k), i)
  {
    LoadSkewReady(n, s, h, c, i, k);
    LoadSkewReady(n, s, h, c, i, k + 1);
    assert SkewLoads(s.skew(i, k), SlotAt(h, k), i);
    if k > 0 {
      assert SkewLoads(s.skew(i, k - 1), SlotAt(h, k - 1), i);
      ReachedShift(h, Offered(c), k - 1);
    }
  }

  /** What has come to place q after this clock is what had come there before, and what enters now. */
  lemma ReachedNext(h: seq<Slot>, c: Pins, q: nat)
    ensures Reached(h + [Offered(c)], q) == Reached(h, q) + BeatOf(EnteringLoad(h, c, q))
    ensures SlotAt(h + [Offered(c)], q) == EnteringLoad(h, c, q)
    ensures q > 0 ==> Reached(h + [Offered(c)], q) == Reached(h, q - 1)
  {
    if q > 0 { ReachedShift(h, Offered(c), q - 1); } else { ReachedShift(h, Offered(c), 0); }
  }

  /** The element PE (i, j) shifts in is j beats older than the one that enters row i. */
  lemma LoadInput(n: nat, s: Core, h: seq<Slot>, c: Pins, i: nat, j: nat, xs: seq<seq<int>>)
    requires SizedHistory(n, h) && Loads(n, s, h) && Loading(n, c) && i < n && j < n
    requires xs == Reached(h + [Offered(c)], i + j) && EnteringLoad(h, c, i + j).Beat? && |xs| > j
    ensures XData(s, c, i, j) == Lane(xs[|xs| - 1 - j], i)
  {
    ReachedNext(h, c, i + j);
    if j > 0 {
      assert PeLoadsAt(n, s, h, i, j - 1);
    } else {
      assert xs[|xs| - 1] == EnteringLoad(h, c, i).x;
      if i > 0 { assert SkewLoads(s.skew(i, i - 1), SlotAt(h, i - 1), i); }
    }
  }

  lemma LoadPeStep(n: nat, s: Core, h: seq<Slot>, c: Pins, i: nat, j: nat)
    requires SizedHistory(n, h) && Loads(n, s, h) && Loading(n, c) && i < n && j < n
    ensures PeLoads(n, NextPe(n, s, c, i, j), SlotAt(h + [Offered(c)], i + j), Reached(h + [Offered(c)], i + j), i, j)
  {
    var e, xs, xs' := EnteringLoad(h, c, i + j), Reached(h, i + j), Reached(h + [Offered(c)], i + j);
    LoadFires(n, s, h, c, i, j);
    ReachedNext(h, c, i + j);
    assert PeLoadsAt(n, s, h, i, j);
    if e.Beat? {
      if |xs'| > j { LoadInput(n, s, h, c, i, j, xs'); }
      PeTakes(n, s, c, i, j);
      PeShifts(n, s.pe(i, j), NextPe(n, s, c, i, j), SlotAt(h, i + j), e, xs, i, j);
    } else {
      PeRests(n, s, c, i, j);
      PeWaits(n, s.pe(i, j), NextPe(n, s, c, i, j), SlotAt(h, i + j), e, xs, i, j);
    }
  }

  lemma PeTakes(n: nat, s: Core, c: Pins, i: nat, j: nat)
    requires i < n && j < n && |c.x| == n && FireLoad(n, s, c, i, j)
    ensures var r, r' := s.pe(i, j), NextPe(n, s, c, i, j);
            !r'.vy && r'.vx && r'.lw && r'.x == r.shadow && r'.shadow == XData(s, c, i, j)
  {
  }

  lemma PeRests(n: nat, s: Core, c: Pins, i: nat, j: nat)
    requires i < n && j < n && |c.x| == n && !FireLoad(n, s, c, i, j) && !FireCalc(n, s, c, i, j)
    ensures var r, r' := s.pe(i, j), NextPe(n, s, c, i, j);
            && r'.shadow == r.shadow && r'.x == r.x && r'.lw == r.lw
            && r'.vx == (r.vx && !ReadyX(n, s, c, i, j + 1)) && (!r.vy ==> !r'.vy)
  {
  }

  lemma PeWaits(n: nat, r: MacPe, r': MacPe, slot: Slot, e: Slot, xs: seq<seq<int>>, i: nat, j: nat)
    requires PeLoads(n, r, slot, xs, i, j) && !e.Beat?
    requires r'.shadow == r.shadow && !r'.vy && (j < n - 1 ==> !r'.vx)
    ensures PeLoads(n, r', e, xs, i, j)
  {
  }

  lemma PeShifts(n: nat, r: MacPe, r': MacPe, slot: Slot, e: Slot, xs: seq<seq<int>>, i: nat, j: nat)
    requires PeLoads(n, r, slot, xs, i, j) && e.Beat?
    requires !r'.vy && r'.vx && r'.lw && r'.x == r.shadow
    requires |xs| + 1 > j ==> r'.shadow == Lane((xs + [e.x])[|xs| - j], i)
    ensures PeLoads(n, r', e, xs + [e.x], i, j)
  {
  }

  lemma LoadDeskewStep(n: nat, s: Core, h: seq<Slot>, c: Pins, j: nat, k: nat)
    requires SizedHistory(n, h) && Loads(n, s, h) && j < n && k < n - 1 - j
    ensures !NextDeskew(n, s, c, j, k).v
  {
    if k == 0 { assert PeLoadsAt(n, s, h, n - 1, j); } else { assert !s.deskew(j, k - 1).v; }
    assert !s.deskew(j, k).v;
  }

  lemma LoadClock(n: nat, s: Core, h: seq<Slot>, c: Pins)
    requires SizedHistory(n, h) && Loads(n, s, h) && Loading(n, c)
    ensures SizedHistory(n, h + [Offered(c)]) && Loads(n, Step(n, s, c), h + [Offered(c)])
    ensures !ValidOut(n, s) && (c.valid ==> ReadyOut(n, s, c))
  {
    var s', h' := Step(n, s, c), h + [Offered(c)];
    forall i, k | 0 <= k < i < n ensures SkewLoads(s'.skew(i, k), SlotAt(h', k), i) {
      LoadSkewStep(n, s, h, c, i, k);
    }
    assert SizedHistory(n, h');
    forall i, j | 0 <= i < n && 0 <= j < n ensures PeLoadsAt(n, s', h', i, j) {
      LoadPeStep(n, s, h, c, i, j);
    }
    forall j, k | 0 <= j < n && 0 <= k < n - 1 - j ensures !s'.deskew(j, k).v {
      LoadDeskewStep(n, s, h, c, j, k);
    }
    assert PeLoadsAt(n, s, h, n - 1, n - 1);
    assert !ColumnValid(n, s, n - 1);
    if c.valid {
      forall i | 0 <= i < n ensures SkewReady(n, s, c, i, 0) { LoadSkewReady(n, s, h, c, i, 0); }
    }
  }

  // ----- whole loads

  lemma {:induction false} OffersAt(cs: seq<Pins>)
    ensures forall t | 0 <= t < |cs| :: Offers(cs)[t] == Offered(cs[t])
  {
    if cs != [] { OffersAt(cs[1..]); }
  }

  /** Every offered beat is accepted at once, nothing comes out, and the history is what was offered. */
  lemma {:induction false} LoadRun(n: nat, s: Core, h: seq<Slot>, cs: seq<Pins>)
    requires SizedHistory(n, h) && Loads(n, s, h) && AllLoading(n, cs)
    ensures SizedHistory(n, h + Offers(cs)) && Loads(n, After(n, s, cs), h + Offers(cs))
    ensures BeatsOf(h + Offers(cs)) == BeatsOf(h) + Accepted(n, s, cs)
    ensures Delivered(n, s, cs) == []
    decreases |cs|
  {
    if cs == [] {
      assert h + Offers(cs) == h;
    } else {
      var c, rest := cs[0], cs[1..];
      assert Loading(n, c);
      LoadClock(n, s, h, c);
      var s1, h1 := Step(n, s, c), h + [Offered(c)];
      LoadRun(n, s1, h1, rest);
      LoadRunStep(h, Offered(c), Offers(rest), Accepted(n, s1, rest));
      assert Accepted(n, s, cs) == BeatOf(Offered(c)) + Accepted(n, s1, rest);
    }
  }

  lemma BeatsOfAppend(h: seq<Slot>, o: Slot)
    ensures BeatsOf(h + [o]) == BeatsOf(h) + BeatOf(o)
  {
    assert (h + [o])[..|h|] == h;
  }

  lemma LoadRunStep(h: seq<Slot>, o: Slot, later: seq<Slot>, more: seq<seq<int>>)
    requires BeatsOf((h + [o]) + later) == BeatsOf(h + [o]) + more
    ensures (h + [o]) + later == h + ([o] + later)
    ensures BeatsOf(h + ([o] + later)) == BeatsOf(h) + (BeatOf(o) + more)
  {
    Assoc(h, [o], later);
    BeatsOfAppend(h, o);
    Assoc(BeatsOf(h), BeatOf(o), more);
  }

  /** The last d clocks offered nothing. */
  predicate QuietFor(h: seq<Slot>, d: nat) {
    |h| >= d && forall t | |h| - d <= t < |h| :: h[t] == Bubble
  }

  /** Long enough for the last beat to reach PE (n - 1, n - 1). */
  predicate Drained(n: nat, h: seq<Slot>) {
    n >= 1 && QuietFor(h, 2 * n - 2)
  }

  lemma {:induction false} QuietReached(h: seq<Slot>, d: nat, q: nat)
    requires QuietFor(h, d) && q <= d
    ensures Reached(h, q) == BeatsOf(h) && (q < d ==> SlotAt(h, q) == Bubble)
  {
    if q == 0 {
      assert h[..|h|] == h;
    } else {
      QuietReached(h, d, q - 1);
      ReachedShift(h, Bubble, q - 1);
    }
  }

  /** The last n rows of xs are the columns of w, column 0 last. */
  predicate LastBeatsAre(n: nat, xs: seq<seq<int>>, w: Matrix)
    requires Square(w, n)
  {
    |xs| >= n && forall i, j | 0 <= i < n && 0 <= j < n :: Lane(xs[|xs| - 1 - j], i) == w[i][j]
  }

  lemma DrainedPe(n: nat, s: Core, h: seq<Slot>, w: Matrix, i: nat, j: nat)
    requires SizedHistory(n, h) && Loads(n, s, h) && Drained(n, h) && Square(w, n)
    requires LastBeatsAre(n, BeatsOf(h), w) && i < n && j < n
    ensures s.pe(i, j).shadow == w[i][j] && !s.pe(i, j).vy && (j < n - 1 ==> !s.pe(i, j).vx)
  {
    QuietReached(h, 2 * n - 2, i + j);
    assert PeLoadsAt(n, s, h, i, j);
    ShadowIsWeight(n, s.pe(i, j), SlotAt(h, i + j), BeatsOf(h), w, i, j);
  }

  lemma ShadowIsWeight(n: nat, r: MacPe, slot: Slot, xs: seq<seq<int>>, w: Matrix, i: nat, j: nat)
    requires Square(w, n) && i < n && j < n && LastBeatsAre(n, xs, w)
    requires PeLoads(n, r, slot, xs, i, j) && (j < n - 1 ==> slot == Bubble)
    ensures r.shadow == w[i][j] && !r.vy && (j < n - 1 ==> !r.vx)
  {
    assert Lane(xs[|xs| - 1 - j], i) == w[i][j];
  }

  lemma LatchPe(n: nat, s: Core, h: seq<Slot>, w: Matrix, c: Pins, i: nat, j: nat)
    requires SizedHistory(n, h) && Loads(n, s, h) && Drained(n, h) && Square(w, n)
    requires LastBeatsAre(n, BeatsOf(h), w)
    requires |c.x| == n && c.latch && !c.valid && i < n && j < n
    ensures PeCarries(n, NextPe(n, s, c, i, j), Bubble, w, i, j)
  {
    DrainedPe(n, s, h, w, i, j);
    if i + j > 0 { QuietReached(h, 2 * n - 2, i + j - 1); }
    LoadFires(n, s, h, c, i, j);
  }

  lemma LatchSkew(n: nat, s: Core, h: seq<Slot>, c: Pins, i: nat, k: nat)
    requires SizedHistory(n, h) && Loads(n, s, h) && Drained(n, h)
    requires |c.x| == n && !c.valid && k < i < n
    ensures SkewCarries(NextSkew(n, s, c, i, k), Bubble, i)
  {
    QuietReached(h, 2 * n - 2, k);
    assert SkewLoads(s.skew(i, k), SlotAt(h, k), i);
    if k > 0 {
      QuietReached(h, 2 * n - 2, k - 1);
      assert SkewLoads(s.skew(i, k - 1), SlotAt(h, k - 1), i);
    }
  }

  /** What a latch makes active in PE (i, j), drained or not: its share of the beat j behind the last to come so far. */
  lemma LatchTakes(n: nat, s: Core, h: seq<Slot>, c: Pins, i: nat, j: nat)
    requires SizedHistory(n, h) && Loads(n, s, h) && |c.x| == n && c.latch && i < n && j < n
    requires |Reached(h, i + j)| > j
    ensures var xs := Reached(h, i + j);
            Step(n, s, c).pe(i, j).active == Lane(xs[|xs| - 1 - j], i)
  {
    assert PeLoadsAt(n, s, h, i, j);
  }

  /** The latch pulse on a drained core makes w active everywhere and leaves the pipeline empty. */
  lemma LatchActivates(n: nat, s: Core, h: seq<Slot>, w: Matrix, c: Pins, p: seq<Slot>)
    requires SizedHistory(n, h) && Loads(n, s, h) && Drained(n, h) && Square(w, n)
    requires LastBeatsAre(n, BeatsOf(h), w)
    requires |c.x| == n && c.latch && !c.valid
    requires WellSized(n, p) && forall q | 0 <= q < |p| :: p[q] == Bubble
    ensures Carries(n, Step(n, s, c), p, w)
  {
    var s' := Step(n, s, c);
    forall i, k | 0 <= k < i < n ensures SkewCarries(s'.skew(i, k), p[k], i) {
      LatchSkew(n, s, h, c, i, k);
    }
    forall i, j | 0 <= i < n && 0 <= j < n ensures PeCarries(n, s'.pe(i, j), p[i + j], w, i, j) {
      LatchPe(n, s, h, w, c, i, j);
    }
    forall j, k | 0 <= j < n && 0 <= k < n - 1 - j ensures DeskewCarries(n, s'.deskew(j, k), p[n + j + k], w, j) {
      LoadDeskewStep(n, s, h, c, j, k);
    }
  }

  function Bubbles(n: nat): (p: seq<Slot>)
    requires n >= 1
    ensures WellSized(n, p) && forall q | 0 <= q < |p| :: p[q] == Bubble
  {
    seq(2 * n - 1, q => Bubble)
  }

  /**
   * The whole protocol. Load beats with any bubbles between them, at least
   * 2n - 2 clocks of silence, a latch pulse, then rows under any valid and any
   * ready: what is delivered is, row for row and in order, the product of the
   * accepted rows with w, short only of the rows still in flight.
   */
  lemma LoadLatchMultiply(n: nat, s: Core, w: Matrix, load: seq<Pins>, latch: Pins, cs: seq<Pins>)
    requires n >= 1 && Idle(n, s) && Square(w, n)
    requires AllLoading(n, load)
    requires Drained(n, Offers(load))
    requires LastBeatsAre(n, Accepted(n, s, load), w)
    requires |latch.x| == n && latch.latch && !latch.valid
    requires AllMultiplying(n, cs)
    ensures var ready := Step(n, After(n, s, load), latch);
            var left := InFlight(PipelineAfter(Bubbles(n), cs), 0);
            && (forall x | x in left :: |x| == n)
            && (forall x | x in Accepted(n, ready, cs) :: |x| == n)
            && Delivered(n, s, load) == []
            && Delivered(n, ready, cs) + WrappedRows(left, w) == WrappedRows(Accepted(n, ready, cs), w)
  {
    IdleLoadsNothing(n, s);
    LoadRun(n, s, [], load);
    assert [] + Offers(load) == Offers(load);
    assert [] + Accepted(n, s, load) == Accepted(n, s, load);
    var p := Bubbles(n);
    LatchActivates(n, After(n, s, load), Offers(load), w, latch, p);
    var ready := Step(n, After(n, s, load), latch);
    NothingLostOrRepeated(n, ready, p, w, cs);
    NoneInFlight(p, 0);
    assert [] + Accepted(n, ready, cs) == Accepted(n, ready, cs);
  }
}
