/**
 * The committed RTL core: mac_pe, systolic_array and systolic_core with their
 * valid/ready handshakes, as one state stepped once per clock.
 *
 * n is the parameter N. Sums are kept modulo 2^32 (ACC_WIDTH is 32 in
 * npu_unit, which also ties y_in to zero). Activations and weights are the
 * signed values of their 8-bit wires, whose products fit the 16-bit mult_out.
 */
module ElasticCore {
  import opened Integers
  import opened Matrices

  type Grid<T> = (nat, nat) -> T

  datatype SkewReg = SkewReg(v: bool, lw: bool, x: int)
  datatype MacPe = MacPe(shadow: int, active: int, vx: bool, vy: bool, lw: bool, x: int, y: int)
  datatype DeskewReg = DeskewReg(v: bool, y: int)

  /** All registers: skew(i, k) for k < i, pe(i, j), and deskew(j, k) for k < n - 1 - j. */
  datatype Core = Core(skew: Grid<SkewReg>, pe: Grid<MacPe>, deskew: Grid<DeskewReg>)

  /** The core's registers after reset. */
  const CLEARED := Core((i, k) => SkewReg(false, false, 0),
                        (i, j) => MacPe(0, 0, false, false, false, 0, 0),
                        (j, k) => DeskewReg(false, 0))

  /** The core's input ports during one clock; mode is seq_mode[0]. */
  datatype Pins = Pins(valid: bool, mode: bool, x: seq<int>, latch: bool, ready: bool)

  // ----- what each PE sees on its inputs

  function XValid(s: Core, c: Pins, i: nat, j: nat): (r: bool) {
    if j > 0 then s.pe(i, j - 1).vx else if i > 0 then s.skew(i, i - 1).v else c.valid
  }

  function XLoad(s: Core, c: Pins, i: nat, j: nat): (r: bool) {
    if j > 0 then s.pe(i, j - 1).lw else if i > 0 then s.skew(i, i - 1).lw else c.mode && c.valid
  }

  function XData(s: Core, c: Pins, i: nat, j: nat): (r: int)
    requires i < |c.x|
  {
    if j > 0 then s.pe(i, j - 1).x else if i > 0 then s.skew(i, i - 1).x else c.x[0]
  }

  function YValid(s: Core, i: nat, j: nat): (r: bool) {
    i == 0 || s.pe(i - 1, j).vy
  }

  function YData(s: Core, i: nat, j: nat): (r: int) {
    if i == 0 then 0 else s.pe(i - 1, j).y
  }

  // ----- de-skew pipelines: stage k of column j, counting the array's output as stage 0

  function StageValid(n: nat, s: Core, j: nat, k: nat): (r: bool)
    requires j < n
  {
    if k == 0 then s.pe(n - 1, j).vy else s.deskew(j, k - 1).v
  }

  function StageData(n: nat, s: Core, j: nat, k: nat): (r: int)
    requires j < n
  {
    if k == 0 then s.pe(n - 1, j).y else s.deskew(j, k - 1).y
  }

  predicate ColumnValid(n: nat, s: Core, j: nat)
    requires j < n
  {
    StageValid(n, s, j, n - 1 - j)
  }

  predicate ValidOut(n: nat, s: Core) {
    forall j | 0 <= j < n :: ColumnValid(n, s, j)
  }

  function YOut(n: nat, s: Core): (y: seq<int>)
    ensures |y| == n
  {
    seq(n, j requires 0 <= j < n => StageData(n, s, j, n - 1 - j))
  }

  predicate StageReady(n: nat, s: Core, c: Pins, j: nat, k: nat)
    requires j < n && k <= n - 1 - j
    decreases n - 1 - j - k
  {
    if k == n - 1 - j then (c.ready && ValidOut(n, s)) || !StageValid(n, s, j, k)
    else StageReady(n, s, c, j, k + 1) || !s.deskew(j, k).v
  }

  // ----- handshake of PE (i, j)

  predicate ReadyX(n: nat, s: Core, c: Pins, i: nat, j: nat)
    requires i < n && j <= n
    decreases 2 * n - i - j, 1
  {
    j == n || FireLoad(n, s, c, i, j) || FireCalc(n, s, c, i, j)
  }

  predicate ReadyY(n: nat, s: Core, c: Pins, i: nat, j: nat)
    requires i <= n && j < n
    decreases 2 * n - i - j, 1
  {
    if i == n then StageReady(n, s, c, j, 0) else FireCalc(n, s, c, i, j)
  }

  predicate CanFireX(n: nat, s: Core, c: Pins, i: nat, j: nat)
    requires i < n && j < n
    decreases 2 * n - i - j - 1, 2
  {
    !(s.pe(i, j).vx && !ReadyX(n, s, c, i, j + 1))
  }

  predicate CanFireY(n: nat, s: Core, c: Pins, i: nat, j: nat)
    requires i < n && j < n
    decreases 2 * n - i - j - 1, 2
  {
    !(s.pe(i, j).vy && !ReadyY(n, s, c, i + 1, j))
  }

  predicate FireLoad(n: nat, s: Core, c: Pins, i: nat, j: nat)
    requires i < n && j < n
    decreases 2 * n - i - j, 0
  {
    XValid(s, c, i, j) && XLoad(s, c, i, j) && CanFireX(n, s, c, i, j)
  }

  predicate FireCalc(n: nat, s: Core, c: Pins, i: nat, j: nat)
    requires i < n && j < n
    decreases 2 * n - i - j, 0
  {
    XValid(s, c, i, j) && YValid(s, i, j) && !XLoad(s, c, i, j) && CanFireX(n, s, c, i, j) && CanFireY(n, s, c, i, j)
  }

  // ----- skew pipelines: stage k of row i, counting the input port as stage 0

  function SkewValid(s: Core, c: Pins, i: nat, k: nat): (r: bool) {
    if k == 0 then c.valid else s.skew(i, k - 1).v
  }

  function SkewLoad(s: Core, c: Pins, i: nat, k: nat): (r: bool) {
    if k == 0 then c.mode && c.valid else s.skew(i, k - 1).lw
  }

  function SkewData(s: Core, c: Pins, i: nat, k: nat): (r: int)
    requires i < |c.x|
  {
    if k == 0 then c.x[i] else s.skew(i, k - 1).x
  }

  predicate SkewReady(n: nat, s: Core, c: Pins, i: nat, k: nat)
    requires k <= i < n
    decreases i - k
  {
    if k == i then ReadyX(n, s, c, i, 0) else SkewReady(n, s, c, i, k + 1) || !s.skew(i, k).v
  }

  predicate ReadyOut(n: nat, s: Core, c: Pins) {
    forall i | 0 <= i < n :: SkewReady(n, s, c, i, 0)
  }

  // ----- the clock edge

  function NextSkew(n: nat, s: Core, c: Pins, i: nat, k: nat): (r: SkewReg)
    requires k < i < n && |c.x| == n
  {
    var r := s.skew(i, k);
    if SkewReady(n, s, c, i, k) && SkewValid(s, c, i, k) then
      SkewReg(true, SkewLoad(s, c, i, k), SkewData(s, c, i, k))
    else if SkewReady(n, s, c, i, k + 1) then r.(v := false)
    else r
  }

  function NextPe(n: nat, s: Core, c: Pins, i: nat, j: nat): (r: MacPe)
    requires i < n && j < n && |c.x| == n
  {
    var r := s.pe(i, j).(active := if c.latch then s.pe(i, j).shadow else s.pe(i, j).active);
    if FireLoad(n, s, c, i, j) then
      r.(shadow := XData(s, c, i, j), x := r.shadow, vx := true, vy := false, lw := true)
    else if FireCalc(n, s, c, i, j) then
      r.(x := XData(s, c, i, j), y := Wrap(YData(s, i, j) + s.pe(i, j).active * XData(s, c, i, j), WORD),
         vx := true, vy := true, lw := false)
    else
      r.(vx := r.vx && !ReadyX(n, s, c, i, j + 1), vy := r.vy && !ReadyY(n, s, c, i + 1, j))
  }

  function NextDeskew(n: nat, s: Core, c: Pins, j: nat, k: nat): (r: DeskewReg)
    requires j < n && k < n - 1 - j
  {
    var r := s.deskew(j, k);
    if StageReady(n, s, c, j, k) && StageValid(n, s, j, k) then DeskewReg(true, StageData(n, s, j, k))
    else if StageReady(n, s, c, j, k + 1) then r.(v := false)
    else r
  }

  function Step(n: nat, s: Core, c: Pins): (r: Core)
    requires |c.x| == n
  {
    Core((i: nat, k: nat) => if k < i < n then NextSkew(n, s, c, i, k) else s.skew(i, k),
         (i: nat, j: nat) => if i < n && j < n then NextPe(n, s, c, i, j) else s.pe(i, j),
         (j: nat, k: nat) => if j < n && k < n - 1 - j then NextDeskew(n, s, c, j, k) else s.deskew(j, k))
  }
}
