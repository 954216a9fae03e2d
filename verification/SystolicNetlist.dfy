/**
 * The Verilog that the generator emits, as data.
 *
 * A Line is one structural fact of the emitted text: a continuous assignment,
 * a register that takes its source at each clock edge, or one mac_pe instance
 * with its pins. The two Gen methods emit lines in the generator's own loops;
 * ArraySource and CoreSource say what drives a signal.
 */
module SystolicNetlist {
  import opened Seqs

  datatype Signal =
      // ports of systolic_core
    | XIn(i: nat) | LoadIn(i: nat) | ValidIn(i: nat) | YIn(j: nat) | YOut(j: nat) | ValidOut(j: nat)
      // wires and registers of systolic_core
    | XSkewed(i: nat) | VSkewed(i: nat) | LwSkewed(i: nat)
    | XDelay(i: nat, k: nat) | VDelay(i: nat, k: nat) | LwDelay(i: nat, k: nat)
    | YNotSkewed(j: nat) | VNotSkewed(i: nat)
    | YDelay(j: nat, k: nat) | VOutDelay(j: nat, k: nat)
      // ports of systolic_array
    | ArrLoad(i: nat) | ArrValidIn(i: nat) | ArrXIn(i: nat) | ArrYIn(j: nat)
    | ArrXOut(i: nat) | ArrYOut(j: nat) | ArrValidOut(i: nat)
      // wires of systolic_array, and the weight held in each mac_pe
    | XWire(i: nat, j: nat) | YWire(i: nat, j: nat) | VWire(i: nat, j: nat)
    | Weight(i: nat, j: nat)

  datatype Line =
    | Assign(dst: Signal, src: Signal)
    | Reg(dst: Signal, src: Signal)
    | Pe(load: Signal, vIn: Signal, xIn: Signal, yIn: Signal,
         xOut: Signal, yOut: Signal, vOut: Signal, weight: Signal)

  function Targets(l: Line): (r: set<Signal>) {
    match l
    case Assign(d, _) => {d}
    case Reg(d, _) => {d}
    case Pe(_, _, _, _, x, y, v, w) => {x, y, v, w}
  }

  datatype Source = Undriven | Wire(src: Signal) | Clocked(src: Signal) | PeOutput(i: nat, j: nat)

  function PeAt(i: nat, j: nat): (r: Line) {
    Pe(ArrLoad(i), VWire(i, j), XWire(i, j), YWire(i, j),
       XWire(i, j + 1), YWire(i + 1, j), VWire(i, j + 1), Weight(i, j))
  }

  /** What drives s inside systolic_array. */
  function ArraySource(n: nat, s: Signal): (r: Source) {
    match s
    case XWire(i, j) => if i >= n || j > n then Undriven else if j == 0 then Wire(ArrXIn(i)) else PeOutput(i, j - 1)
    case VWire(i, j) => if i >= n || j > n then Undriven else if j == 0 then Wire(ArrValidIn(i)) else PeOutput(i, j - 1)
    case YWire(i, j) => if j >= n || i > n then Undriven else if i == 0 then Wire(ArrYIn(j)) else PeOutput(i - 1, j)
    case Weight(i, j) => if i < n && j < n then PeOutput(i, j) else Undriven
    case ArrXOut(i) => if i < n then Wire(XWire(i, n)) else Undriven
    case ArrValidOut(i) => if i < n then Wire(VWire(i, n)) else Undriven
    case ArrYOut(j) => if j < n then Wire(YWire(n, j)) else Undriven
    case _ => Undriven
  }

  /** What drives s in systolic_core, outside the array instance. */
  function CoreSource(n: nat, s: Signal): (r: Source) {
    match s
    case XDelay(i, k) => if i < n && k < i then Clocked(if k == 0 then XIn(i) else XDelay(i, k - 1)) else Undriven
    case VDelay(i, k) => if i < n && k < i then Clocked(if k == 0 then ValidIn(i) else VDelay(i, k - 1)) else Undriven
    case LwDelay(i, k) => if i < n && k < i then Clocked(if k == 0 then LoadIn(i) else LwDelay(i, k - 1)) else Undriven
    case XSkewed(i) => if i < n then Wire(if i == 0 then XIn(0) else XDelay(i, i - 1)) else Undriven
    case VSkewed(i) => if i < n then Wire(if i == 0 then ValidIn(0) else VDelay(i, i - 1)) else Undriven
    case LwSkewed(i) => if i < n then Wire(if i == 0 then LoadIn(0) else LwDelay(i, i - 1)) else Undriven
    case ArrLoad(i) => if i < n then Wire(LwSkewed(i)) else Undriven
    case ArrValidIn(i) => if i < n then Wire(VSkewed(i)) else Undriven
    case ArrXIn(i) => if i < n then Wire(XSkewed(i)) else Undriven
    case ArrYIn(j) => if j < n then Wire(YIn(j)) else Undriven
    case YNotSkewed(j) => if j < n then Wire(ArrYOut(j)) else Undriven
    case VNotSkewed(i) => if i < n then Wire(ArrValidOut(i)) else Undriven
    case YDelay(j, k) =>
      if j < n && k < n - 1 - j then Clocked(if k == 0 then YNotSkewed(j) else YDelay(j, k - 1)) else Undriven
    case VOutDelay(j, k) =>
      if j < n && k < n - 1 - j then Clocked(if k == 0 then VNotSkewed(j) else VOutDelay(j, k - 1)) else Undriven
    case YOut(j) => if j >= n then Undriven else Wire(if j == n - 1 then YNotSkewed(j) else YDelay(j, n - 2 - j))
    case ValidOut(j) => if j >= n then Undriven else Wire(if j == n - 1 then VNotSkewed(j) else VOutDelay(j, n - 2 - j))
    case _ => Undriven
  }

  predicate ArrayLine(n: nat, l: Line) {
    match l
    case Assign(d, s) => ArraySource(n, d) == Wire(s)
    case Reg(d, s) => false
    case Pe(_, _, _, _, _, _, _, w) => w.Weight? && w.i < n && w.j < n && l == PeAt(w.i, w.j)
  }

  predicate CoreLine(n: nat, l: Line) {
    match l
    case Assign(d, s) => CoreSource(n, d) == Wire(s)
    case Reg(d, s) => CoreSource(n, d) == Clocked(s)
    case Pe(_, _, _, _, _, _, _, _) => false
  }

  lemma AppendDistinct(ls: seq<Line>, ms: seq<Line>)
    requires Distinct(ls) && Distinct(ms) && forall l | l in ls :: l !in ms
    ensures Distinct(ls + ms)
  {
    forall a, b | 0 <= a < b < |ls + ms| ensures (ls + ms)[a] != (ls + ms)[b] {
      if a < |ls| <= b { assert ls[a] in ls && ms[b - |ls|] in ms; }
    }
  }

  /** Where the generator's loops emit an array line: which loop, outer index, inner index. */
  function ArrayLoop(l: Line): (r: nat) {
    match l
    case Assign(d, _) => if d.YWire? || d.ArrYOut? then 2 else 1
    case Reg(_, _) => 0
    case Pe(_, _, _, _, _, _, _, _) => 3
  }

  function ArrayOuter(l: Line): (r: nat) {
    match l
    case Assign(XWire(i, _), _) => i
    case Assign(VWire(i, _), _) => i
    case Assign(ArrXOut(i), _) => i
    case Assign(ArrValidOut(i), _) => i
    case Assign(YWire(_, j), _) => j
    case Assign(ArrYOut(j), _) => j
    case Pe(_, _, _, _, _, _, _, Weight(i, _)) => i
    case _ => 0
  }

  function ArrayInner(l: Line): (r: nat) {
    match l
    case Pe(_, _, _, _, _, _, _, Weight(_, j)) => j
    case _ => 0
  }

  /** The body of gen_systolic_array: exactly the array's lines, each once. */
  method GenSystolicArray(n: nat) returns (lines: seq<Line>)
    requires n >= 1
    ensures forall l :: l in lines <==> ArrayLine(n, l)
    ensures Distinct(lines)
  {
    lines := [];
    for i := 0 to n
      invariant forall l :: l in lines <==> ArrayLine(n, l) && ArrayLoop(l) == 1 && ArrayOuter(l) < i
      invariant Distinct(lines)
    {
      AppendDistinct(lines, RowPorts(n, i));
      lines := lines + RowPorts(n, i);
    }
    for j := 0 to n
      invariant forall l :: l in lines <==>
                  ArrayLine(n, l) && (ArrayLoop(l) == 1 || (ArrayLoop(l) == 2 && ArrayOuter(l) < j))
      invariant Distinct(lines)
    {
      AppendDistinct(lines, ColumnPorts(n, j));
      lines := lines + ColumnPorts(n, j);
    }
    for i := 0 to n
      invariant forall l :: l in lines <==> ArrayLine(n, l) && (ArrayLoop(l) <= 2 || ArrayOuter(l) < i)
      invariant Distinct(lines)
    {
      var row := GenPeRow(n, i);
      AppendDistinct(lines, row);
      lines := lines + row;
    }
  }

  /** The wires that join row i, and column j, of the mesh to the ports. */
  function RowPorts(n: nat, i: nat): (lines: seq<Line>)
    requires i < n
    ensures forall l :: l in lines <==> ArrayLine(n, l) && ArrayLoop(l) == 1 && ArrayOuter(l) == i
    ensures Distinct(lines)
  {
    [Assign(XWire(i, 0), ArrXIn(i)), Assign(VWire(i, 0), ArrValidIn(i)),
     Assign(ArrXOut(i), XWire(i, n)), Assign(ArrValidOut(i), VWire(i, n))]
  }

  function ColumnPorts(n: nat, j: nat): (lines: seq<Line>)
    requires 0 < n && j < n
    ensures forall l :: l in lines <==> ArrayLine(n, l) && ArrayLoop(l) == 2 && ArrayOuter(l) == j
    ensures Distinct(lines)
  {
    [Assign(YWire(0, j), ArrYIn(j)), Assign(ArrYOut(j), YWire(n, j))]
  }

  /** One pass of the generator's outer PE loop. */
  method GenPeRow(n: nat, i: nat) returns (lines: seq<Line>)
    requires i < n
    ensures forall l :: l in lines <==> ArrayLine(n, l) && ArrayLoop(l) == 3 && ArrayOuter(l) == i
    ensures Distinct(lines)
  {
    lines := [];
    for j := 0 to n
      invariant forall l :: l in lines <==>
                  ArrayLine(n, l) && ArrayLoop(l) == 3 && ArrayOuter(l) == i && ArrayInner(l) < j
      invariant Distinct(lines)
    {
      var pe := Pe(ArrLoad(i), VWire(i, j), XWire(i, j), YWire(i, j),
                   XWire(i, j + 1), YWire(i + 1, j), VWire(i, j + 1), Weight(i, j));
      AppendDistinct(lines, [pe]);
      lines := lines + [pe];
    }
  }

  /** Where the generator's loops emit a core line: section, row or column, place within it. */
  function CoreSection(l: Line): (r: nat) {
    match l
    case Pe(_, _, _, _, _, _, _, _) => 0
    case _ =>
      if l.dst.ArrLoad? || l.dst.ArrValidIn? || l.dst.ArrXIn? || l.dst.ArrYIn? || l.dst.YNotSkewed? || l.dst.VNotSkewed? then 2
      else if l.dst.YDelay? || l.dst.VOutDelay? || l.dst.YOut? || l.dst.ValidOut? then 3
      else 1
  }

  function IndexOf(s: Signal): (r: nat) {
    match s
    case XSkewed(i) => i case VSkewed(i) => i case LwSkewed(i) => i
    case XDelay(i, _) => i case VDelay(i, _) => i case LwDelay(i, _) => i
    case ArrLoad(i) => i case ArrValidIn(i) => i case ArrXIn(i) => i case ArrYIn(j) => j
    case YNotSkewed(j) => j case VNotSkewed(i) => i
    case YDelay(j, _) => j case VOutDelay(j, _) => j case YOut(j) => j case ValidOut(j) => j
    case _ => 0
  }

  function CoreOuter(l: Line): (r: nat) {
    if l.Pe? then 0 else IndexOf(l.dst)
  }

  function CoreInner(n: nat, l: Line): (r: int) {
    match l
    case Reg(XDelay(_, k), _) => k
    case Reg(VDelay(_, k), _) => k
    case Reg(LwDelay(_, k), _) => k
    case Reg(YDelay(_, k), _) => k
    case Reg(VOutDelay(_, k), _) => k
    case _ => if CoreSection(l) == 1 then CoreOuter(l) else if CoreSection(l) == 3 then n - 1 - CoreOuter(l) else 0
  }

  /** The body of gen_systolic_core: exactly the core's lines, each once. */
  method GenSystolicCore(n: nat) returns (lines: seq<Line>)
    requires n >= 1
    ensures forall l :: l in lines <==> CoreLine(n, l)
    ensures Distinct(lines)
  {
    lines := [Assign(XSkewed(0), XIn(0)), Assign(VSkewed(0), ValidIn(0)), Assign(LwSkewed(0), LoadIn(0))];
    for i := 1 to n
      invariant forall l :: l in lines <==> CoreLine(n, l) && CoreSection(l) == 1 && CoreOuter(l) < i
      invariant Distinct(lines)
    {
      var row := GenSkewRow(n, i);
      AppendDistinct(lines, row);
      lines := lines + row;
    }
    lines := ConnectArray(n, lines);
    for j := 0 to n
      invariant forall l :: l in lines <==>
                  CoreLine(n, l) && (CoreSection(l) <= 2 || CoreOuter(l) < j)
      invariant Distinct(lines)
    {
      var column := GenDeskewColumn(n, j);
      AppendDistinct(lines, column);
      lines := lines + column;
    }
  }

  /** One pass of the generator's input skew loop. */
  method GenSkewRow(n: nat, i: nat) returns (lines: seq<Line>)
    requires 1 <= i < n
    ensures forall l :: l in lines <==> CoreLine(n, l) && CoreSection(l) == 1 && CoreOuter(l) == i
    ensures Distinct(lines)
  {
    lines := SkewStage(n, i, 0);
    for k := 1 to i
      invariant forall l :: l in lines <==>
                  CoreLine(n, l) && CoreSection(l) == 1 && CoreOuter(l) == i && CoreInner(n, l) < k
      invariant Distinct(lines)
    {
      AppendDistinct(lines, SkewStage(n, i, k));
      lines := lines + SkewStage(n, i, k);
    }
    AppendDistinct(lines, SkewStage(n, i, i));
    lines := lines + SkewStage(n, i, i);
  }

  /** The k-th registers of the three chains of a row; behind the last the chains' exits. */
  function SkewStage(n: nat, i: nat, k: nat): (lines: seq<Line>)
    requires 1 <= i < n && k <= i
    ensures forall l :: l in lines <==> CoreLine(n, l) && CoreSection(l) == 1 && CoreOuter(l) == i && CoreInner(n, l) == k
    ensures Distinct(lines)
  {
    if k == 0 then [Reg(XDelay(i, 0), XIn(i)), Reg(VDelay(i, 0), ValidIn(i)), Reg(LwDelay(i, 0), LoadIn(i))]
    else if k < i then
      [Reg(XDelay(i, k), XDelay(i, k - 1)), Reg(VDelay(i, k), VDelay(i, k - 1)), Reg(LwDelay(i, k), LwDelay(i, k - 1))]
    else
      [Assign(XSkewed(i), XDelay(i, i - 1)), Assign(VSkewed(i), VDelay(i, i - 1)), Assign(LwSkewed(i), LwDelay(i, i - 1))]
  }

  /** The lines that connect index i of every port vector of the array instance. */
  function ArrayPins(n: nat, i: nat): (slice: seq<Line>)
    requires i < n
    ensures forall l :: l in slice <==> CoreLine(n, l) && CoreSection(l) == 2 && CoreOuter(l) == i
    ensures Distinct(slice)
  {
    [Assign(ArrLoad(i), LwSkewed(i)), Assign(ArrValidIn(i), VSkewed(i)),
     Assign(ArrXIn(i), XSkewed(i)), Assign(ArrYIn(i), YIn(i)),
     Assign(YNotSkewed(i), ArrYOut(i)), Assign(VNotSkewed(i), ArrValidOut(i))]
  }

  /** The port connections of the array instance, one line per bit-slice of each vector. */
  method ConnectArray(n: nat, before: seq<Line>) returns (lines: seq<Line>)
    requires forall l :: l in before <==> CoreLine(n, l) && CoreSection(l) == 1
    requires Distinct(before)
    ensures forall l :: l in lines <==> CoreLine(n, l) && CoreSection(l) <= 2
    ensures Distinct(lines)
  {
    lines := before;
    for i := 0 to n
      invariant forall l :: l in lines <==>
                  CoreLine(n, l) && (CoreSection(l) == 1 || (CoreSection(l) == 2 && CoreOuter(l) < i))
      invariant Distinct(lines)
    {
      var slice := ArrayPins(n, i);
      AppendDistinct(lines, slice);
      lines := lines + slice;
    }
  }

  /** One pass of the generator's de-skew loop. */
  method GenDeskewColumn(n: nat, j: nat) returns (lines: seq<Line>)
    requires j < n
    ensures forall l :: l in lines <==> CoreLine(n, l) && CoreSection(l) == 3 && CoreOuter(l) == j
    ensures Distinct(lines)
  {
    var delay := (n - 1) - j;
    lines := DeskewStage(n, j, 0);
    if delay > 0 {
      for k := 1 to delay
        invariant forall l :: l in lines <==>
                    CoreLine(n, l) && CoreSection(l) == 3 && CoreOuter(l) == j && CoreInner(n, l) < k
        invariant Distinct(lines)
      {
        AppendDistinct(lines, DeskewStage(n, j, k));
        lines := lines + DeskewStage(n, j, k);
      }
      AppendDistinct(lines, DeskewStage(n, j, delay));
      lines := lines + DeskewStage(n, j, delay);
    }
  }

  /** The k-th registers of the two chains of a column; behind the last the chains' exits. */
  function DeskewStage(n: nat, j: nat, k: nat): (lines: seq<Line>)
    requires j < n && k <= n - 1 - j
    ensures forall l :: l in lines <==> CoreLine(n, l) && CoreSection(l) == 3 && CoreOuter(l) == j && CoreInner(n, l) == k
    ensures Distinct(lines)
  {
    if k < n - 1 - j then
      if k == 0 then [Reg(YDelay(j, 0), YNotSkewed(j)), Reg(VOutDelay(j, 0), VNotSkewed(j))]
      else [Reg(YDelay(j, k), YDelay(j, k - 1)), Reg(VOutDelay(j, k), VOutDelay(j, k - 1))]
    else if k == 0 then [Assign(YOut(j), YNotSkewed(j)), Assign(ValidOut(j), VNotSkewed(j))]
    else [Assign(YOut(j), YDelay(j, k - 1)), Assign(ValidOut(j), VOutDelay(j, k - 1))]
  }

  /** Signals that the two modules must drive: everything but the core's input ports. */
  predicate Driven(n: nat, s: Signal) {
    ArraySource(n, s) != Undriven || CoreSource(n, s) != Undriven
  }

  /** No two lines of the netlist drive the same signal, in either module or across them. */
  lemma DriversAreUnique(n: nat, l: Line, l': Line, s: Signal)
    requires ArrayLine(n, l) || CoreLine(n, l)
    requires ArrayLine(n, l') || CoreLine(n, l')
    requires s in Targets(l) && s in Targets(l')
    ensures l == l' && Driven(n, s)
  {
  }

  /** The line that drives s. */
  function DriverOf(n: nat, s: Signal): (l: Line)
    requires Driven(n, s)
    ensures s in Targets(l) && (ArrayLine(n, l) || CoreLine(n, l))
  {
    var source := if ArraySource(n, s) != Undriven then ArraySource(n, s) else CoreSource(n, s);
    if source.Wire? then Assign(s, source.src)
    else if source.Clocked? then Reg(s, source.src)
    else PeAt(source.i, source.j)
  }

  /** Every internal wire, register and output slice is driven by exactly one emitted line. */
  lemma DrivenExactlyOnce(n: nat, arr: seq<Line>, core: seq<Line>, s: Signal)
    requires n >= 1 && Distinct(arr) && Distinct(core)
    requires forall l :: l in arr <==> ArrayLine(n, l)
    requires forall l :: l in core <==> CoreLine(n, l)
    requires Driven(n, s)
    ensures exists k :: 0 <= k < |arr + core| && s in Targets((arr + core)[k]) &&
                        forall k' :: 0 <= k' < |arr + core| && s in Targets((arr + core)[k']) ==> k' == k
  {
    var all := arr + core;
    var d := DriverOf(n, s);
    assert d in all;
    var k :| 0 <= k < |all| && all[k] == d;
    forall k' | 0 <= k' < |all| && s in Targets(all[k']) ensures k' == k {
      var l := all[k'];
      assert l in arr || l in core;
      DriversAreUnique(n, d, l, s);
      ModulesDisjoint(n, d);
      if k < |arr| { assert d in arr; } else { assert d in core; }
      if k' < |arr| { assert l == arr[k']; } else { assert l == core[k' - |arr|]; }
    }
  }

  lemma ModulesDisjoint(n: nat, l: Line)
    ensures !(ArrayLine(n, l) && CoreLine(n, l))
  {
  }
}
