/**
 * Runs of the emitted netlist, for every size n and every input stream.
 *
 * A trace gives each signal a value at each clock. Assignments hold at every
 * clock, registers one clock later. The body of mac_pe with this port list is
 * not part of the repository; Holds states what is assumed of it.
 */
module SystolicRun {
  import opened Matrices
  import opened SystolicNetlist

  type Trace = (Signal, nat) -> int

  /**
   * The meaning of one line at clock t; m is 2^ACC_WIDTH. The Pe case is the
   * assumption about mac_pe: x and valid pass through a register, the sum
   * output takes y_in + weight * x_in, and the weight takes x_in under load.
   */
  predicate Holds(l: Line, tr: Trace, t: nat, m: int)
    requires m > 0
  {
    match l
    case Assign(d, s) => tr(d, t) == tr(s, t)
    case Reg(d, s) => tr(d, t + 1) == tr(s, t)
    case Pe(load, vIn, xIn, yIn, xOut, yOut, vOut, weight) =>
      && tr(xOut, t + 1) == tr(xIn, t)
      && tr(vOut, t + 1) == tr(vIn, t)
      && tr(yOut, t + 1) == Wrap(tr(yIn, t) + tr(weight, t) * tr(xIn, t), m)
      && tr(weight, t + 1) == if tr(load, t) != 0 then tr(xIn, t) else tr(weight, t)
  }

  ghost predicate Run(n: nat, m: int, tr: Trace)
    requires m > 0
  {
    forall l, t: nat :: ArrayLine(n, l) || CoreLine(n, l) ==> Holds(l, tr, t, m)
  }

  /** The row that enters the core at clock t. */
  function InputRow(n: nat, tr: Trace, t: nat): (x: seq<int>)
    ensures |x| == n
  {
    seq(n, i requires 0 <= i < n => tr(XIn(i), t))
  }

  // ----- one line at a time

  lemma ArrayWire(n: nat, m: int, tr: Trace, d: Signal, s: Signal, t: nat)
    requires m > 0 && Run(n, m, tr) && ArraySource(n, d) == Wire(s)
    ensures tr(d, t) == tr(s, t)
  {
    assert Holds(Assign(d, s), tr, t, m);
  }

  lemma CoreWire(n: nat, m: int, tr: Trace, d: Signal, s: Signal, t: nat)
    requires m > 0 && Run(n, m, tr) && CoreSource(n, d) == Wire(s)
    ensures tr(d, t) == tr(s, t)
  {
    assert Holds(Assign(d, s), tr, t, m);
  }

  lemma CoreReg(n: nat, m: int, tr: Trace, d: Signal, s: Signal, t: nat)
    requires m > 0 && Run(n, m, tr) && CoreSource(n, d) == Clocked(s)
    ensures tr(d, t + 1) == tr(s, t)
  {
    assert Holds(Reg(d, s), tr, t, m);
  }

  lemma PeStep(n: nat, m: int, tr: Trace, i: nat, j: nat, t: nat)
    requires m > 0 && Run(n, m, tr) && i < n && j < n
    ensures tr(XWire(i, j + 1), t + 1) == tr(XWire(i, j), t)
    ensures tr(VWire(i, j + 1), t + 1) == tr(VWire(i, j), t)
    ensures tr(YWire(i + 1, j), t + 1) == Wrap(tr(YWire(i, j), t) + tr(Weight(i, j), t) * tr(XWire(i, j), t), m)
    ensures tr(Weight(i, j), t + 1) == if tr(ArrLoad(i), t) != 0 then tr(XWire(i, j), t) else tr(Weight(i, j), t)
  {
    assert Holds(PeAt(i, j), tr, t, m);
  }

  // ----- input skew: row i is delayed by i clocks

  lemma {:induction false} SkewDelay(n: nat, m: int, tr: Trace, i: nat, k: nat, t: nat)
    requires m > 0 && Run(n, m, tr) && k < i < n
    ensures tr(XDelay(i, k), t + k + 1) == tr(XIn(i), t)
    ensures tr(VDelay(i, k), t + k + 1) == tr(ValidIn(i), t)
    ensures tr(LwDelay(i, k), t + k + 1) == tr(LoadIn(i), t)
  {
    if k > 0 { SkewDelay(n, m, tr, i, k - 1, t); }
    CoreReg(n, m, tr, XDelay(i, k), if k == 0 then XIn(i) else XDelay(i, k - 1), t + k);
    CoreReg(n, m, tr, VDelay(i, k), if k == 0 then ValidIn(i) else VDelay(i, k - 1), t + k);
    CoreReg(n, m, tr, LwDelay(i, k), if k == 0 then LoadIn(i) else LwDelay(i, k - 1), t + k);
  }

  lemma SkewExit(n: nat, m: int, tr: Trace, i: nat, t: nat)
    requires m > 0 && Run(n, m, tr) && i < n
    ensures tr(XSkewed(i), t + i) == tr(XIn(i), t)
    ensures tr(VSkewed(i), t + i) == tr(ValidIn(i), t)
    ensures tr(LwSkewed(i), t + i) == tr(LoadIn(i), t)
  {
    if i == 0 {
      CoreWire(n, m, tr, XSkewed(0), XIn(0), t);
      CoreWire(n, m, tr, VSkewed(0), ValidIn(0), t);
      CoreWire(n, m, tr, LwSkewed(0), LoadIn(0), t);
    } else {
      SkewDelay(n, m, tr, i, i - 1, t);
      CoreWire(n, m, tr, XSkewed(i), XDelay(i, i - 1), t + i);
      CoreWire(n, m, tr, VSkewed(i), VDelay(i, i - 1), t + i);
      CoreWire(n, m, tr, LwSkewed(i), LwDelay(i, i - 1), t + i);
    }
  }

  lemma RowEntry(n: nat, m: int, tr: Trace, i: nat, t: nat)
    requires m > 0 && Run(n, m, tr) && i < n
    ensures tr(XWire(i, 0), t + i) == tr(XIn(i), t)
    ensures tr(VWire(i, 0), t + i) == tr(ValidIn(i), t)
    ensures tr(ArrLoad(i), t + i) == tr(LoadIn(i), t)
  {
    SkewExit(n, m, tr, i, t);
    CoreWire(n, m, tr, ArrXIn(i), XSkewed(i), t + i);
    CoreWire(n, m, tr, ArrValidIn(i), VSkewed(i), t + i);
    CoreWire(n, m, tr, ArrLoad(i), LwSkewed(i), t + i);
    ArrayWire(n, m, tr, XWire(i, 0), ArrXIn(i), t + i);
    ArrayWire(n, m, tr, VWire(i, 0), ArrValidIn(i), t + i);
  }

  // ----- the mesh: PE (i, j) works on row t's element i at clock t + i + j

  lemma {:induction false} RowShift(n: nat, m: int, tr: Trace, i: nat, j: nat, t: nat)
    requires m > 0 && Run(n, m, tr) && i < n && j <= n
    ensures tr(XWire(i, j), t + i + j) == tr(XIn(i), t)
    ensures tr(VWire(i, j), t + i + j) == tr(ValidIn(i), t)
  {
    if j == 0 {
      RowEntry(n, m, tr, i, t);
    } else {
      RowShift(n, m, tr, i, j - 1, t);
      PeStep(n, m, tr, i, j - 1, t + i + j - 1);
    }
  }

  /** PE (i, j) holds w[i][j] on the one clock at which it meets the row of clock t. */
  ghost predicate WeightsMeet(n: nat, tr: Trace, w: Matrix, t: nat)
    requires Square(w, n)
  {
    forall i, j | 0 <= i < n && 0 <= j < n :: tr(Weight(i, j), t + i + j) == w[i][j]
  }

  lemma {:induction false} ColumnSum(n: nat, m: int, tr: Trace, w: Matrix, i: nat, j: nat, t: nat)
    requires m > 0 && Run(n, m, tr) && i <= n && j < n
    requires Square(w, n) && WeightsMeet(n, tr, w, t)
    ensures var total := tr(YIn(j), t + j) + Dot(InputRow(n, tr, t), w, j, i);
            tr(YWire(i, j), t + i + j) == if i == 0 then total else Wrap(total, m)
  {
    if i == 0 {
      ArrayWire(n, m, tr, YWire(0, j), ArrYIn(j), t + j);
      CoreWire(n, m, tr, ArrYIn(j), YIn(j), t + j);
    } else {
      ColumnSum(n, m, tr, w, i - 1, j, t);
      RowShift(n, m, tr, i - 1, j, t);
      var now := t + (i - 1) + j;
      PeStep(n, m, tr, i - 1, j, now);
      assert tr(Weight(i - 1, j), now) == w[i - 1][j];
      NextTerm(InputRow(n, tr, t), w, i, j, tr(YIn(j), t + j), tr(YWire(i - 1, j), now), m);
    }
  }

  /** One PE's term added to the partial sum above it, wrapped or, in row 0, not yet. */
  lemma NextTerm(x: seq<int>, w: Matrix, i: nat, j: nat, y: int, above: int, m: int)
    requires m > 0 && Square(w, |x|) && 0 < i <= |x| && j < |x|
    requires above == if i == 1 then y + Dot(x, w, j, i - 1) else Wrap(y + Dot(x, w, j, i - 1), m)
    ensures Wrap(above + w[i - 1][j] * x[i - 1], m) == Wrap(y + Dot(x, w, j, i), m)
  {
    WrapAdd(y + Dot(x, w, j, i - 1), w[i - 1][j] * x[i - 1], m);
  }

  // ----- output de-skew: column j is delayed by n - 1 - j clocks

  lemma {:induction false} DeskewDelay(n: nat, m: int, tr: Trace, j: nat, k: nat, t: nat)
    requires m > 0 && Run(n, m, tr) && j < n && k < n - 1 - j
    ensures tr(YDelay(j, k), t + k + 1) == tr(YNotSkewed(j), t)
    ensures tr(VOutDelay(j, k), t + k + 1) == tr(VNotSkewed(j), t)
  {
    if k > 0 { DeskewDelay(n, m, tr, j, k - 1, t); }
    CoreReg(n, m, tr, YDelay(j, k), if k == 0 then YNotSkewed(j) else YDelay(j, k - 1), t + k);
    CoreReg(n, m, tr, VOutDelay(j, k), if k == 0 then VNotSkewed(j) else VOutDelay(j, k - 1), t + k);
  }

  lemma ColumnExit(n: nat, m: int, tr: Trace, j: nat, t: nat)
    requires m > 0 && Run(n, m, tr) && j < n
    ensures tr(YOut(j), t + 2 * n - 1) == tr(YWire(n, j), t + n + j)
    ensures tr(ValidOut(j), t + 2 * n - 1) == tr(VWire(j, n), t + n + j)
  {
    var s := t + n + j;
    ArrayWire(n, m, tr, ArrYOut(j), YWire(n, j), s);
    CoreWire(n, m, tr, YNotSkewed(j), ArrYOut(j), s);
    ArrayWire(n, m, tr, ArrValidOut(j), VWire(j, n), s);
    CoreWire(n, m, tr, VNotSkewed(j), ArrValidOut(j), s);
    if j < n - 1 { DeskewDelay(n, m, tr, j, n - 2 - j, s); }
    CoreWire(n, m, tr, YOut(j), if j == n - 1 then YNotSkewed(j) else YDelay(j, n - 2 - j), t + 2 * n - 1);
    CoreWire(n, m, tr, ValidOut(j), if j == n - 1 then VNotSkewed(j) else VOutDelay(j, n - 2 - j), t + 2 * n - 1);
  }

  // ----- main results

  /**
   * All columns of the row that enters at clock t leave together, 2n - 1
   * clocks later: column j is its y_in, sampled at t + j, plus the dot product
   * of the row with column j of the weights, wrapped to the accumulator.
   */
  lemma ProductAtFixedLatency(n: nat, m: int, tr: Trace, w: Matrix, t: nat)
    requires n >= 1 && m > 0 && Run(n, m, tr)
    requires Square(w, n) && WeightsMeet(n, tr, w, t)
    ensures forall j :: 0 <= j < n ==>
              tr(YOut(j), t + 2 * n - 1) == Wrap(tr(YIn(j), t + j) + RowProduct(InputRow(n, tr, t), w)[j], m)
  {
    forall j | 0 <= j < n
      ensures tr(YOut(j), t + 2 * n - 1) == Wrap(tr(YIn(j), t + j) + RowProduct(InputRow(n, tr, t), w)[j], m)
    {
      ColumnSum(n, m, tr, w, n, j, t);
      ColumnExit(n, m, tr, j, t);
    }
  }

  /**
   * valid leaves the array by rows and the data by columns, yet valid_out[j]
   * marks exactly the y_out[j] of the row whose valid_in[j] it was.
   */
  lemma ValidMarksItsRow(n: nat, m: int, tr: Trace, t: nat)
    requires n >= 1 && m > 0 && Run(n, m, tr)
    ensures forall j :: 0 <= j < n ==> tr(ValidOut(j), t + 2 * n - 1) == tr(ValidIn(j), t)
  {
    forall j | 0 <= j < n ensures tr(ValidOut(j), t + 2 * n - 1) == tr(ValidIn(j), t) {
      RowShift(n, m, tr, j, n, t);
      ColumnExit(n, m, tr, j, t);
    }
  }

  /** load_weight is high on every row for the n clocks from t0, and low ever after. */
  ghost predicate LoadPulse(n: nat, tr: Trace, t0: nat) {
    forall i: nat, s: nat | i < n && t0 <= s :: tr(LoadIn(i), s) != 0 <==> s < t0 + n
  }

  /** Beat n - 1 - j of the pulse is what PE (i, j) keeps, although load reaches the whole row at once. */
  lemma {:induction false} LoadedWeight(n: nat, m: int, tr: Trace, t0: nat, i: nat, j: nat, s: nat)
    requires m > 0 && Run(n, m, tr) && i < n && j < n
    requires LoadPulse(n, tr, t0) && s >= t0 + n + i
    ensures tr(Weight(i, j), s) == tr(XIn(i), t0 + (n - 1 - j))
    decreases s
  {
    PeStep(n, m, tr, i, j, s - 1);
    RowEntry(n, m, tr, i, s - 1 - i);
    if s == t0 + n + i {
      RowShift(n, m, tr, i, j, t0 + (n - 1 - j));
    } else {
      LoadedWeight(n, m, tr, t0, i, j, s - 1);
    }
  }

  /** n beats carry the columns of w, last column first. */
  ghost predicate BeatsCarry(n: nat, tr: Trace, w: Matrix, t0: nat)
    requires Square(w, n)
  {
    forall i, j | 0 <= i < n && 0 <= j < n :: tr(XIn(i), t0 + (n - 1 - j)) == w[i][j]
  }

  /**
   * Weights streamed column-reversed under load_weight, then rows: every row
   * from the first clock after the last weight beat is multiplied by w.
   */
  lemma LoadThenMultiply(n: nat, m: int, tr: Trace, w: Matrix, t0: nat, t: nat)
    requires n >= 1 && m > 0 && Run(n, m, tr) && Square(w, n)
    requires LoadPulse(n, tr, t0) && BeatsCarry(n, tr, w, t0)
    requires t >= t0 + n
    ensures forall j :: 0 <= j < n ==>
              tr(YOut(j), t + 2 * n - 1) == Wrap(tr(YIn(j), t + j) + RowProduct(InputRow(n, tr, t), w)[j], m)
  {
    forall i, j | 0 <= i < n && 0 <= j < n ensures tr(Weight(i, j), t + i + j) == w[i][j] {
      LoadedWeight(n, m, tr, t0, i, j, t + i + j);
    }
    ProductAtFixedLatency(n, m, tr, w, t);
  }

  // ----- runs exist

  /** How many wires lie between s and the registers and inputs it depends on. */
  function WireDepth(s: Signal): (r: nat) {
    match s
    case XSkewed(_) => 1 case VSkewed(_) => 1 case LwSkewed(_) => 1
    case ArrLoad(_) => 2 case ArrValidIn(_) => 2 case ArrXIn(_) => 2 case ArrYIn(_) => 1
    case XWire(_, _) => 3 case VWire(_, _) => 3 case YWire(_, _) => 2
    case ArrXOut(_) => 4 case ArrValidOut(_) => 4 case ArrYOut(_) => 3
    case YNotSkewed(_) => 4 case VNotSkewed(_) => 5
    case YOut(_) => 5 case ValidOut(_) => 6
    case _ => 0
  }

  /** The value of s at clock t, from all-zero registers and the given input stream. */
  function Evaluate(n: nat, m: int, inputs: Trace, s: Signal, t: nat): (r: int)
    requires m > 0
    decreases t, WireDepth(s)
  {
    var a, c := ArraySource(n, s), CoreSource(n, s);
    if a.Wire? then Evaluate(n, m, inputs, a.src, t)
    else if c.Wire? then Evaluate(n, m, inputs, c.src, t)
    else if c.Clocked? then if t == 0 then 0 else Evaluate(n, m, inputs, c.src, t - 1)
    else if a.PeOutput? then
      if t == 0 then 0
      else
        var x := Evaluate(n, m, inputs, XWire(a.i, a.j), t - 1);
        match s
        case XWire(_, _) => x
        case VWire(_, _) => Evaluate(n, m, inputs, VWire(a.i, a.j), t - 1)
        case YWire(_, _) =>
          Wrap(Evaluate(n, m, inputs, YWire(a.i, a.j), t - 1) + Evaluate(n, m, inputs, Weight(a.i, a.j), t - 1) * x, m)
        case _ =>
          if Evaluate(n, m, inputs, ArrLoad(a.i), t - 1) != 0 then x
          else Evaluate(n, m, inputs, Weight(a.i, a.j), t - 1)
    else inputs(s, t)
  }

  lemma EvaluatePe(n: nat, m: int, inputs: Trace, i: nat, j: nat, t: nat)
    requires m > 0 && i < n && j < n
    ensures Holds(PeAt(i, j), (s: Signal, t: nat) => Evaluate(n, m, inputs, s, t), t, m)
  {
    assert ArraySource(n, XWire(i, j + 1)) == PeOutput(i, j);
    assert ArraySource(n, VWire(i, j + 1)) == PeOutput(i, j);
    assert ArraySource(n, YWire(i + 1, j)) == PeOutput(i, j);
    assert ArraySource(n, Weight(i, j)) == PeOutput(i, j);
  }

  /** Whatever is fed in, the netlist has a run: the results above are about something. */
  lemma RunExists(n: nat, m: int, inputs: Trace)
    requires n >= 1 && m > 0
    ensures var tr := (s: Signal, t: nat) => Evaluate(n, m, inputs, s, t);
            && Run(n, m, tr)
            && forall s, t: nat :: !Driven(n, s) ==> tr(s, t) == inputs(s, t)
  {
    var tr := (s: Signal, t: nat) => Evaluate(n, m, inputs, s, t);
    forall l, t: nat | ArrayLine(n, l) || CoreLine(n, l) ensures Holds(l, tr, t, m) {
      if l.Pe? {
        EvaluatePe(n, m, inputs, l.weight.i, l.weight.j, t);
      }
    }
  }
}
