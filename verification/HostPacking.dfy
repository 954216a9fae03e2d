/**
 * The host side: packing int8 matrices into 64-bit beats, reading 32-bit
 * results back, and the CPU's own 8x8 product. Words are unsigned 32-bit
 * values; Or is C's bitwise or on them.
 */
module HostPacking {
  import opened Integers
  import opened Matrices

  // ----- bytes, words, bitwise or

  function U8(v: int): (b: int)
    ensures 0 <= b < 256
  {
    v % 256
  }

  function S8(b: int): (r: int) {
    if b < 128 then b else b - 256
  }

  predicate SignedChar(v: int) { -128 <= v < 128 }

  predicate CharMatrix(m: Matrix) {
    Square(m, 8) && forall r, c | 0 <= r < 8 && 0 <= c < 8 :: SignedChar(m[r][c])
  }

  type Word = w: int | 0 <= w < WORD

  /** b << (8 * k) */
  function Shl8(b: nat, k: nat): (r: nat)
    requires k < 4
  {
    if k == 0 then b else if k == 1 then 0x100 * b else if k == 2 then 0x1_0000 * b else 0x100_0000 * b
  }

  function Byte(w: Word, k: nat): (b: int)
    requires k < 4
    ensures 0 <= b < 256
  {
    if k == 0 then w % 0x100 else if k == 1 then w / 0x100 % 0x100 else if k == 2 then w / 0x1_0000 % 0x100 else w / 0x100_0000
  }

  predicate Byte4(bs: seq<int>) {
    |bs| == 4 && forall i | 0 <= i < 4 :: 0 <= bs[i] < 256
  }

  /** The word whose bytes, least significant first, are those of bs. */
  function WordOf(bs: seq<int>): (w: Word)
    requires Byte4(bs)
  {
    bs[0] + 0x100 * bs[1] + 0x1_0000 * bs[2] + 0x100_0000 * bs[3]
  }

  lemma WordBytes(bs: seq<int>)
    requires Byte4(bs)
    ensures forall k | 0 <= k < 4 :: Byte(WordOf(bs), k) == bs[k]
  {
    var a, b, c, d, w := bs[0], bs[1], bs[2], bs[3], WordOf(bs);
    QuotientUnique(w, b + 0x100 * c + 0x1_0000 * d, a, 0x100);
    QuotientUnique(w, c + 0x100 * d, a + 0x100 * b, 0x1_0000);
    QuotientUnique(w, d, a + 0x100 * b + 0x1_0000 * c, 0x100_0000);
    QuotientUnique(b + 0x100 * c + 0x1_0000 * d, c + 0x100 * d, b, 0x100);
    QuotientUnique(c + 0x100 * d, d, c, 0x100);
  }

  lemma BytesWord(w: Word)
    ensures Byte4([Byte(w, 0), Byte(w, 1), Byte(w, 2), Byte(w, 3)])
    ensures WordOf([Byte(w, 0), Byte(w, 1), Byte(w, 2), Byte(w, 3)]) == w
  {
    var w1, w2 := w / 0x100, w / 0x100 / 0x100;
    QuotientUnique(w, w2, w1 % 0x100 * 0x100 + w % 0x100, 0x1_0000);
    QuotientUnique(w, w2 / 0x100, w2 % 0x100 * 0x1_0000 + w1 % 0x100 * 0x100 + w % 0x100, 0x100_0000);
  }

  // ----- C's bitwise or, and the packing loop's use of it

  function Or(a: nat, b: nat): (r: nat) {
    if a == 0 then b else if b == 0 then a
    else 2 * Or(a / 2, b / 2) + (if a % 2 == 1 || b % 2 == 1 then 1 else 0)
  }

  /** The bits of a below 2^n and the bits of b * 2^n do not meet: or is sum. */
  lemma {:induction false} OrOfDisjoint(a: nat, b: nat, n: nat)
    requires a < Pow(2, n)
    ensures Or(a, b * Pow(2, n)) == a + b * Pow(2, n)
  {
    if n > 0 && a > 0 && b > 0 {
      var p := Pow(2, n - 1);
      assert b * Pow(2, n) == 2 * (b * p);
      OrOfDisjoint(a / 2, b, n - 1);
      assert b * p > 0;
    }
  }

  lemma PowersOfTwo()
    ensures Pow(2, 8) == 0x100 && Pow(2, 16) == 0x1_0000 && Pow(2, 24) == 0x100_0000
  {
    assert Pow(2, 4) == 16;
    assert Pow(2, 8) == 16 * Pow(2, 4);
    assert Pow(2, 12) == 16 * Pow(2, 8);
    assert Pow(2, 16) == 16 * Pow(2, 12);
    assert Pow(2, 20) == 16 * Pow(2, 16);
    assert Pow(2, 24) == 16 * Pow(2, 20);
  }

  /** The word as far as the first k bytes. */
  function Packed(bs: seq<int>, k: nat): (w: nat)
    requires Byte4(bs) && k <= 4
    ensures w < WORD && (k < 4 ==> w < Shl8(1, k))
  {
    if k == 0 then 0
    else if k == 1 then bs[0]
    else if k == 2 then bs[0] + 0x100 * bs[1]
    else if k == 3 then bs[0] + 0x100 * bs[1] + 0x1_0000 * bs[2]
    else WordOf(bs)
  }

  /** One turn of the packing loop. */
  lemma OrByte(bs: seq<int>, k: nat)
    requires Byte4(bs) && k < 4
    ensures Or(Packed(bs, k), Shl8(bs[k], k)) == Packed(bs, k + 1)
  {
    PowersOfTwo();
    OrOfDisjoint(Packed(bs, k), bs[k], 8 * k);
  }

  // ----- memory layout of a beat

  /** Lane k of beat b: byte k of the 64-bit word made of words 2b and 2b + 1. */
  function LaneByte(words: seq<Word>, b: nat, k: nat): (v: int)
    requires 2 * b + 1 < |words| && k < 8
    ensures 0 <= v < 256
  {
    if k < 4 then Byte(words[2 * b], k) else Byte(words[2 * b + 1], k - 4)
  }

  /** Beat b carries the eight values of lanes, as signed chars. */
  predicate BeatCarries(words: seq<Word>, b: nat, lanes: seq<int>)
    requires 2 * b + 1 < |words| && |lanes| == 8
  {
    forall k | 0 <= k < 8 :: S8(LaneByte(words, b, k)) == lanes[k]
  }

  function Column(m: Matrix, c: nat): (x: seq<int>)
    requires Square(m, 8) && c < 8
    ensures |x| == 8
  {
    seq(8, r requires 0 <= r < 8 => m[r][c])
  }

  /** Beat r carries row r of m, element c in lane c. */
  predicate PacksRows(words: seq<Word>, m: Matrix) {
    |words| == 2 * |m| && forall r | 0 <= r < |m| :: |m[r]| == 8 && BeatCarries(words, r, m[r])
  }

  /** Beat t carries column 7 - t of m, row r in lane r. */
  predicate PacksColumnsReversed(words: seq<Word>, m: Matrix) {
    |words| == 16 && Square(m, 8) && forall c | 0 <= c < 8 :: BeatCarries(words, 7 - c, Column(m, c))
  }

  /** The two words hold lanes, as signed chars, four bytes each. */
  predicate PairCarries(low: Word, high: Word, lanes: seq<int>)
    requires |lanes| == 8
  {
    forall k | 0 <= k < 8 :: S8(LaneByte([low, high], 0, k)) == lanes[k]
  }

  lemma PairOfWords(lanes: seq<int>, lows: seq<int>, highs: seq<int>)
    requires |lanes| == 8 && forall k | 0 <= k < 8 :: SignedChar(lanes[k])
    requires Byte4(lows) && forall k | 0 <= k < 4 :: lows[k] == U8(lanes[k])
    requires Byte4(highs) && forall k | 0 <= k < 4 :: highs[k] == U8(lanes[k + 4])
    ensures PairCarries(WordOf(lows), WordOf(highs), lanes)
  {
    WordBytes(lows);
    WordBytes(highs);
    forall k | 0 <= k < 8 ensures S8(LaneByte([WordOf(lows), WordOf(highs)], 0, k)) == lanes[k] {
      assert LaneByte([WordOf(lows), WordOf(highs)], 0, k) == if k < 4 then lows[k] else highs[k - 4];
    }
  }

  /** The inner loop of npu_format_inputs. */
  method PackRow(src: Matrix, r: nat) returns (low32: Word, high32: Word)
    requires CharMatrix(src) && r < 8
    ensures PairCarries(low32, high32, src[r])
  {
    ghost var lows := seq(4, k requires 0 <= k < 4 => U8(src[r][k]));
    ghost var highs := seq(4, k requires 0 <= k < 4 => U8(src[r][k + 4]));
    low32, high32 := 0, 0;
    for c := 0 to 4
      invariant low32 == Packed(lows, c) && high32 == Packed(highs, c)
    {
      OrByte(lows, c);
      OrByte(highs, c);
      var low, high := U8(src[r][c]), U8(src[r][c + 4]);
      assert low == lows[c] && high == highs[c];
      low32, high32 := Or(low32, Shl8(low, c)), Or(high32, Shl8(high, c));
    }
    PairOfWords(src[r], lows, highs);
  }

  /** The inner loop of npu_format_weights. */
  method PackColumn(src: Matrix, c: nat) returns (low32: Word, high32: Word)
    requires CharMatrix(src) && c < 8
    ensures PairCarries(low32, high32, Column(src, c))
  {
    ghost var lows := seq(4, k requires 0 <= k < 4 => U8(src[k][c]));
    ghost var highs := seq(4, k requires 0 <= k < 4 => U8(src[k + 4][c]));
    low32, high32 := 0, 0;
    for r := 0 to 4
      invariant low32 == Packed(lows, r) && high32 == Packed(highs, r)
    {
      OrByte(lows, r);
      OrByte(highs, r);
      var low, high := U8(src[r][c]), U8(src[r + 4][c]);
      assert low == lows[r] && high == highs[r];
      low32, high32 := Or(low32, Shl8(low, r)), Or(high32, Shl8(high, r));
    }
    PairOfWords(Column(src, c), lows, highs);
  }

  /** Writing beat b leaves the other beats as they were. */
  lemma BeatWritten(before: seq<Word>, words: seq<Word>, b: nat, lanes: seq<int>)
    requires |before| == 16 && |words| == 16 && b < 8 && |lanes| == 8
    requires forall k | 0 <= k < 16 && k != 2 * b && k != 2 * b + 1 :: words[k] == before[k]
    requires PairCarries(words[2 * b], words[2 * b + 1], lanes)
    ensures BeatCarries(words, b, lanes)
    ensures forall q, k | 0 <= q < 8 && q != b && 0 <= k < 8 :: LaneByte(words, q, k) == LaneByte(before, q, k)
  {
    forall k | 0 <= k < 8 ensures LaneByte(words, b, k) == LaneByte([words[2 * b], words[2 * b + 1]], 0, k) {}
  }

  method FormatInputs(mem: array<Word>, base: nat, src: Matrix)
    requires base + 16 <= mem.Length && CharMatrix(src)
    modifies mem
    ensures PacksRows(mem[base..base + 16], src)
    ensures forall k | 0 <= k < mem.Length && !(base <= k < base + 16) :: mem[k] == old(mem[k])
  {
    for r := 0 to 8
      invariant forall k | 0 <= k < mem.Length && !(base <= k < base + 16) :: mem[k] == old(mem[k])
      invariant forall q | 0 <= q < r :: BeatCarries(mem[base..base + 16], q, src[q])
    {
      var low32, high32 := PackRow(src, r);
      ghost var before := mem[base..base + 16];
      mem[base + 2 * r] := low32;
      mem[base + 2 * r + 1] := high32;
      BeatWritten(before, mem[base..base + 16], r, src[r]);
    }
  }

  method FormatWeights(mem: array<Word>, base: nat, src: Matrix)
    requires base + 16 <= mem.Length && CharMatrix(src)
    modifies mem
    ensures PacksColumnsReversed(mem[base..base + 16], src)
    ensures forall k | 0 <= k < mem.Length && !(base <= k < base + 16) :: mem[k] == old(mem[k])
  {
    for t := 0 to 8
      invariant forall k | 0 <= k < mem.Length && !(base <= k < base + 16) :: mem[k] == old(mem[k])
      invariant forall d | 7 - t < d < 8 :: BeatCarries(mem[base..base + 16], 7 - d, Column(src, d))
    {
      var c := 7 - t;
      var low32, high32 := PackColumn(src, c);
      ghost var before := mem[base..base + 16];
      mem[base + 2 * t] := low32;
      mem[base + 2 * t + 1] := high32;
      BeatWritten(before, mem[base..base + 16], t, Column(src, c));
    }
  }

  // ----- results

  /** __builtin_bswap32 */
  function Bswap(w: Word): (v: Word) {
    BytesWord(w);
    WordOf([Byte(w, 3), Byte(w, 2), Byte(w, 1), Byte(w, 0)])
  }

  lemma BswapTwice(w: Word)
    ensures Bswap(Bswap(w)) == w
  {
    BytesWord(w);
    WordBytes([Byte(w, 3), Byte(w, 2), Byte(w, 1), Byte(w, 0)]);
  }

  /** C's c ^ 1. */
  function FlipBit0(c: nat): (r: nat) {
    if c % 2 == 0 then c + 1 else c - 1
  }

  method ParseOutput(mem: array<Word>, base: nat, dst: array2<int>)
    requires base + 64 <= mem.Length
    requires dst.Length0 == 8 && dst.Length1 == 8
    modifies dst
    ensures forall r, c | 0 <= r < 8 && 0 <= c < 8 :: dst[r, c] == Bswap(mem[base + (8 * r + FlipBit0(c))])
  {
    for r := 0 to 8
      invariant forall q, c | 0 <= q < r && 0 <= c < 8 :: dst[q, c] == Bswap(mem[base + (8 * q + FlipBit0(c))])
    {
      for c := 0 to 8
        invariant forall q, d | 0 <= q < r && 0 <= d < 8 :: dst[q, d] == Bswap(mem[base + (8 * q + FlipBit0(d))])
        invariant forall d | 0 <= d < c :: dst[r, d] == Bswap(mem[base + (8 * r + FlipBit0(d))])
      {
        var hwC := FlipBit0(c);
        var raw := mem[base + (8 * r + hwC)];
        dst[r, c] := Bswap(raw);
      }
    }
  }

  method CpuMatmul(a: Matrix, b: Matrix, c: array2<int>)
    requires CharMatrix(a) && CharMatrix(b) && c.Length0 == 8 && c.Length1 == 8
    modifies c
    ensures forall i, j | 0 <= i < 8 && 0 <= j < 8 :: c[i, j] == Dot(a[i], b, j, 8)
  {
    for i := 0 to 8
      invariant forall p, j | 0 <= p < i && 0 <= j < 8 :: c[p, j] == Dot(a[p], b, j, 8)
    {
      for j := 0 to 8
        invariant forall p, q | 0 <= p < i && 0 <= q < 8 :: c[p, q] == Dot(a[p], b, q, 8)
        invariant forall q | 0 <= q < j :: c[i, q] == Dot(a[i], b, q, 8)
      {
        var sum := 0;
        for k := 0 to 8
          invariant sum == Dot(a[i], b, j, k)
        {
          sum := sum + a[i][k] * b[k][j];
        }
        c[i, j] := sum;
      }
    }
  }

  /** No partial sum leaves the signed 32-bit range, on the CPU or in an accumulator. */
  lemma {:induction false} SumsInRange(x: seq<int>, b: Matrix, j: nat, k: nat)
    requires |x| == 8 && (forall i | 0 <= i < 8 :: SignedChar(x[i])) && CharMatrix(b) && j < 8 && k <= 8
    ensures -16384 * k <= Dot(x, b, j, k) <= 16384 * k
    ensures -0x8000_0000 <= Dot(x, b, j, k) < 0x8000_0000
  {
    if k > 0 {
      SumsInRange(x, b, j, k - 1);
      ProductInRange(b[k - 1][j], x[k - 1]);
    }
  }

  lemma ProductInRange(u: int, v: int)
    requires SignedChar(u) && SignedChar(v)
    ensures -16384 <= u * v <= 16384
  {
    NonNegative(128 - u, 128 + v);
    NonNegative(128 + u, 128 - v);
    NonNegative(128 - u, 128 - v);
    NonNegative(128 + u, 128 + v);
  }

  lemma NonNegative(a: nat, b: nat)
    ensures a * b >= 0
  {
  }
}
