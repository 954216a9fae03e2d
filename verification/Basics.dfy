/** Small things that several models share. */
module Options {
  datatype Option<T> = None | Some(value: T)
}

module Integers {
  /** One more than the largest 32-bit word. */
  const WORD: nat := 0x1_0000_0000

  function Min(a: int, b: int): (r: int) {
    if a <= b then a else b
  }

  function Max(a: int, b: int): (r: int) {
    if a >= b then a else b
  }

  function Pow(b: nat, n: nat): (p: nat)
    requires b > 0
    ensures p > 0
  {
    if n == 0 then 1 else b * Pow(b, n - 1)
  }
}

/** Sequence facts the proofs use by name. */
module Seqs {
  ghost predicate Distinct<T>(s: seq<T>) {
    forall i, j | 0 <= i < j < |s| :: s[i] != s[j]
  }

  /** The index behind i on a ring of n. */
  function Succ(i: nat, n: nat): (j: nat)
    requires i < n
    ensures j < n
  {
    if i + 1 < n then i + 1 else 0
  }

  function Reverse<T>(s: seq<T>): (r: seq<T>)
    ensures |r| == |s| && forall k | 0 <= k < |s| :: r[k] == s[|s| - 1 - k]
  {
    seq(|s|, k requires 0 <= k < |s| => s[|s| - 1 - k])
  }

  lemma Assoc<T>(a: seq<T>, b: seq<T>, c: seq<T>)
    ensures (a + b) + c == a + (b + c)
  {
  }

  /** Two balances in a row: what the first leaves over is what the second starts with. */
  lemma Chain<T>(out: seq<T>, later: seq<T>, left: seq<T>, next: seq<T>, more: seq<T>, now: seq<T>, taken: seq<T>)
    requires later + left == next + more && out + next == now + taken
    ensures (out + later) + left == now + (taken + more)
  {
    Assoc(out, later, left);
    Assoc(out, next, more);
    Assoc(now, taken, more);
  }
}

/** Taking one element out of a sequence, wherever it stands. */
module Removal {
  import opened Seqs

  /** s without the first x in it. */
  ghost function Without<A>(s: seq<A>, x: A): (r: seq<A>)
    ensures |r| <= |s| && forall j | 0 <= j < |r| :: r[j] in s
  {
    if s == [] then [] else if s[0] == x then s[1..] else [s[0]] + Without(s[1..], x)
  }

  lemma DistinctTail<A>(s: seq<A>)
    requires Distinct(s) && s != []
    ensures Distinct(s[1..]) && s[0] !in s[1..]
  {
  }

  lemma {:induction false} WithoutAt<A>(s: seq<A>, i: nat)
    requires Distinct(s) && i < |s|
    ensures Without(s, s[i]) == s[..i] + s[i + 1..]
  {
    if i > 0 {
      WithoutAt(s[1..], i - 1);
      assert s[1..][..i - 1] == s[1..i] && s[1..][i..] == s[i + 1..];
      assert [s[0]] + s[1..i] == s[..i];
    }
  }

  lemma {:induction false} WithoutAbsent<A>(s: seq<A>, x: A)
    requires x !in s
    ensures Without(s, x) == s
  {
    if s != [] { WithoutAbsent(s[1..], x); }
  }

  /** Taking x out of two stretches laid end to end. */
  lemma {:induction false} WithoutParts<A>(a: seq<A>, b: seq<A>, x: A)
    requires Distinct(a + b)
    ensures Without(a + b, x) == Without(a, x) + Without(b, x)
  {
    if a == [] {
      assert a + b == b;
    } else {
      assert (a + b)[1..] == a[1..] + b;
      DistinctTail(a + b);
      if a[0] == x {
        assert (a + b)[0] == x;
        assert x !in b by { forall j | 0 <= j < |b| ensures b[j] != x { assert (a + b)[|a| + j] == b[j]; } }
        WithoutAbsent(b, x);
      } else {
        WithoutParts(a[1..], b, x);
        assert ([a[0]] + Without(a[1..], x)) + Without(b, x) == [a[0]] + (Without(a[1..], x) + Without(b, x));
      }
    }
  }

  lemma {:induction false} WithoutMembers<A>(s: seq<A>, x: A)
    requires Distinct(s)
    ensures Distinct(Without(s, x)) && x !in Without(s, x)
    ensures forall j | 0 <= j < |s| :: s[j] == x || s[j] in Without(s, x)
  {
    if s == [] {
    } else if s[0] == x {
      DistinctTail(s);
    } else {
      DistinctTail(s);
      WithoutMembers(s[1..], x);
      forall j | 0 < j < |s| && s[j] != x ensures s[j] in Without(s, x) { assert s[1..][j - 1] == s[j]; }
    }
  }

  /** Everything else stays. */
  lemma {:induction false} WithoutOther<A>(s: seq<A>, x: A, n: A)
    requires n != x
    ensures n in Without(s, x) <==> n in s
  {
    if s != [] && s[0] != x { WithoutOther(s[1..], x, n); }
  }

  lemma DistinctParts<A>(a: seq<A>, b: seq<A>)
    requires Distinct(a + b)
    ensures Distinct(a) && Distinct(b) && forall j | 0 <= j < |a| :: a[j] !in b
  {
    forall i, j | 0 <= i < j < |b| ensures b[i] != b[j] { assert (a + b)[|a| + i] == b[i] && (a + b)[|a| + j] == b[j]; }
    forall i, j | 0 <= i < j < |a| ensures a[i] != a[j] { assert (a + b)[i] == a[i] && (a + b)[j] == a[j]; }
    forall i | 0 <= i < |a| ensures a[i] !in b {
      forall j | 0 <= j < |b| ensures b[j] != a[i] { assert (a + b)[i] == a[i] && (a + b)[|a| + j] == b[j]; }
    }
  }
}
