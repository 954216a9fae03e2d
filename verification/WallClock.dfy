/**
 * gettimeofday and settimeofday over the tick counter, for tick rates that
 * divide a million. settimeofday multiplies in 32 bits, gettimeofday in 64.
 */
module WallClock {
  import opened Integers
  import opened Matrices

  const US: nat := 1000000
  /** US / gcd(US, 2^32) */
  const ODD_PART: nat := 15625

  datatype Timeval = Timeval(sec: int, usec: int)

  datatype Timezone = Timezone(minuteswest: int, dsttime: int)

  datatype Status = Done | NotSupported

  function Micros(t: Timeval): (r: int) {
    t.sec * US + t.usec
  }

  /** A moment at or after the epoch, in its only normal form. */
  function FromMicros(m: nat): (t: Timeval)
    ensures Micros(t) == m && 0 <= t.usec < US && t.sec >= 0
  {
    Timeval(m / US, m % US)
  }

  predicate Normal(t: Timeval) {
    0 <= t.sec && 0 <= t.usec < US
  }

  lemma NormalIsUnique(t: Timeval)
    requires Normal(t)
    ensures t == FromMicros(Micros(t))
  {
    QuotientUnique(Micros(t), t.sec, t.usec, US);
  }

  predicate Rate(rate: nat) {
    rate > 0 && US % rate == 0
  }

  /** Microseconds per tick. */
  function Tick(rate: nat): (u: nat)
    requires Rate(rate)
    ensures u * rate == US
  {
    US / rate
  }

  /** The global base that settimeofday leaves at tick n. */
  function Base(t: Timeval, n: nat, rate: nat): (r: Timeval)
    requires Rate(rate)
  {
    Timeval(t.sec - n / rate, t.usec - n * Tick(rate) % WORD % US)
  }

  /** What gettimeofday starts from at tick n. */
  function Raw(base: Timeval, n: nat, rate: nat): (r: Timeval)
    requires Rate(rate)
  {
    Timeval(base.sec + n / rate, base.usec + n * Tick(rate) % US)
  }

  /** The two normalising loops and the clamp. */
  function Normalised(t: Timeval): (r: Timeval)
    decreases if t.usec < 0 then -t.usec else t.usec
  {
    if t.usec < 0 then
      if t.sec <= 0 then Timeval(0, 0)
      else if t.usec + US >= 0 then Carried(Timeval(t.sec - 1, t.usec + US))
      else Normalised(Timeval(t.sec - 1, t.usec + US))
    else Carried(t)
  }

  function Carried(t: Timeval): (r: Timeval)
    decreases t.usec
  {
    if t.usec >= US then Carried(Timeval(t.sec + 1, t.usec - US)) else t
  }

  lemma {:induction false} CarriedKeeps(t: Timeval)
    requires t.usec >= 0
    ensures Micros(Carried(t)) == Micros(t) && 0 <= Carried(t).usec < US
    ensures t.sec >= 0 ==> Carried(t).sec >= 0
    decreases t.usec
  {
    if t.usec >= US { CarriedKeeps(Timeval(t.sec + 1, t.usec - US)); }
  }

  /** From the epoch on, normalising keeps the moment: the clamp is out of reach. */
  lemma {:induction false} NormalisedKeeps(t: Timeval)
    requires Micros(t) >= 0 && (t.sec >= 0 || t.usec >= 0)
    ensures Micros(Normalised(t)) == Micros(t) && 0 <= Normalised(t).usec < US
    decreases if t.usec < 0 then -t.usec else t.usec
  {
    if t.usec >= 0 {
      CarriedKeeps(t);
    } else {
      var t' := Timeval(t.sec - 1, t.usec + US);
      assert t.sec > 0 && Micros(t') == Micros(t);
      if t'.usec >= 0 { CarriedKeeps(t'); } else { NormalisedKeeps(t'); }
    }
  }

  /** A read with these numbers is the moment m. */
  lemma ReadIs(t: Timeval, m: nat)
    requires Micros(t) == m && (t.sec >= 0 || t.usec >= 0)
    ensures Normalised(t) == FromMicros(m)
  {
    NormalisedKeeps(t);
    NormalIsUnique(Normalised(t));
  }

  /** Seconds and leftover microseconds of n ticks add up to n tick lengths. */
  lemma Elapsed(n: nat, rate: nat)
    requires Rate(rate)
    ensures n / rate * US + n * Tick(rate) % US == n * Tick(rate)
  {
    var u, q, r := Tick(rate), n / rate, n % rate;
    assert n * u == q * (rate * u) + r * u by {
      assert n == q * rate + r;
      assert (q * rate + r) * u == q * (rate * u) + r * u;
    }
    assert 0 <= r * u < US by {
      assert r * u <= (rate - 1) * u;
      assert (rate - 1) * u == US - u;
    }
    QuotientUnique(n * u, q, r * u, US);
  }

  /** The 32-bit product loses k * 2^32; the loss is invisible modulo a second exactly when 15625 divides k. */
  lemma WrapIsHarmlessIff(x: nat)
    ensures x % WORD % US == x % US <==> x / WORD % ODD_PART == 0
  {
    var k, r := x / WORD, x % WORD;
    assert x == k * WORD + r;
    assert x == r + k * 4294 * US + k * 967296;
    WrapShift(r + k * 967296, k * 4294, US);
    assert x % US == (r + k * 967296) % US;
    if k % ODD_PART == 0 {
      var j := k / ODD_PART;
      assert k * 967296 == (j * 15114) * US;
      WrapShift(r, j * 15114, US);
    }
    if x % US == r % US {
      var a, b := (r + k * 967296) / US, r / US;
      assert k * 967296 == (a - b) * US;
      DividesOut(k, a - b);
    }
  }

  lemma DividesOut(k: nat, q: int)
    requires k * 967296 == q * US
    ensures k % ODD_PART == 0
  {
    assert k * 15114 == q * ODD_PART;
    assert k == (12659 * q - 12245 * k) * ODD_PART;
    QuotientUnique(k, 12659 * q - 12245 * k, 0, ODD_PART);
  }

  /** At tick n the product in settimeofday loses nothing that matters. */
  predicate Faithful(n: nat, rate: nat)
    requires Rate(rate)
  {
    n * Tick(rate) / WORD % ODD_PART == 0
  }

  /** What a read at tick n1 returns after time t was set at tick n0. */
  function Read(t: Timeval, n0: nat, n1: nat, rate: nat): (r: Timeval)
    requires Rate(rate)
  {
    Normalised(Raw(Base(t, n0, rate), n1, rate))
  }

  /** How far the read's raw value is off the true moment. */
  lemma RawIs(t: Timeval, n0: nat, n1: nat, rate: nat)
    requires Rate(rate)
    ensures var x := n0 * Tick(rate);
            Micros(Raw(Base(t, n0, rate), n1, rate)) == Micros(t) + n1 * Tick(rate) - x + (x % US - x % WORD % US)
  {
    Elapsed(n0, rate);
    Elapsed(n1, rate);
  }

  /** Set at n0, read at any later n1: exactly the time set plus the ticks since, normalised. */
  lemma SetThenGet(t: Timeval, n0: nat, n1: nat, rate: nat)
    requires Rate(rate) && Normal(t) && n0 <= n1 < WORD && Faithful(n0, rate)
    ensures Micros(t) + (n1 - n0) * Tick(rate) >= 0
    ensures Read(t, n0, n1, rate) == FromMicros(Micros(t) + (n1 - n0) * Tick(rate))
  {
    RawIsExact(t, n0, n1, rate);
    Multiples(n1 - n0, Tick(rate));
    RawIsLate(t, n0, n1, rate);
    ReadIs(Raw(Base(t, n0, rate), n1, rate), Micros(t) + (n1 - n0) * Tick(rate));
  }

  /** shown is time t and d ticks after it. */
  predicate IsLater(shown: Timeval, t: Timeval, d: nat, rate: nat)
    requires Rate(rate)
  {
    Micros(t) + d * Tick(rate) >= 0 && shown == FromMicros(Micros(t) + d * Tick(rate))
  }

  lemma ReadIsLater(t: Timeval, n0: nat, rate: nat)
    requires Rate(rate) && Normal(t) && Faithful(n0, rate)
    ensures forall n1 | n0 <= n1 < WORD :: IsLater(Read(t, n0, n1, rate), t, n1 - n0, rate)
  {
    forall n1 | n0 <= n1 < WORD ensures IsLater(Read(t, n0, n1, rate), t, n1 - n0, rate) {
      SetThenGet(t, n0, n1, rate);
    }
  }

  lemma RawIsExact(t: Timeval, n0: nat, n1: nat, rate: nat)
    requires Rate(rate) && n0 <= n1 && Faithful(n0, rate)
    ensures Micros(Raw(Base(t, n0, rate), n1, rate)) == Micros(t) + (n1 - n0) * Tick(rate)
  {
    WrapIsHarmlessIff(n0 * Tick(rate));
    RawIs(t, n0, n1, rate);
    Difference(n1, n0, Tick(rate));
  }

  lemma Difference(a: nat, b: nat, u: nat)
    ensures a * u - b * u == (a - b) * u
  {
  }

  /** The seconds never fall behind those that were set. */
  lemma RawIsLate(t: Timeval, n0: nat, n1: nat, rate: nat)
    requires Rate(rate) && Normal(t) && n0 <= n1
    ensures Raw(Base(t, n0, rate), n1, rate).sec >= 0
  {
    Quotients(n0, n1, rate);
  }

  lemma Quotients(a: nat, b: nat, m: nat)
    requires m > 0 && a <= b
    ensures a / m <= b / m
  {
    var q, r := a / m, b / m;
    assert q * m <= a && b < (r + 1) * m;
    NotFewer(q, r, m);
  }

  lemma NotFewer(q: nat, r: nat, m: nat)
    requires q * m < (r + 1) * m
    ensures q <= r
  {
  }

  lemma Multiples(d: nat, m: nat)
    ensures d * m >= 0
  {
  }

  /** The set tick decides it: every later read of every time is exact if and only if the product was faithful. */
  lemma ExactIff(n0: nat, rate: nat)
    requires Rate(rate) && n0 < WORD
    ensures Faithful(n0, rate) <==>
              forall t: Timeval, n1: nat :: Normal(t) && n0 <= n1 < WORD ==>
                Micros(Read(t, n0, n1, rate)) == Micros(t) + (n1 - n0) * Tick(rate)
  {
    if Faithful(n0, rate) {
      forall t: Timeval, n1: nat | Normal(t) && n0 <= n1 < WORD
        ensures Micros(Read(t, n0, n1, rate)) == Micros(t) + (n1 - n0) * Tick(rate)
      {
        SetThenGet(t, n0, n1, rate);
      }
    } else {
      UnfaithfulReadIsOff(n0, rate);
    }
  }

  /** Once the counter has wrapped, a read is 2^32 ticks behind, as long as that is not before the epoch. */
  lemma WrapGoesBack(t: Timeval, n0: nat, n1: nat, rate: nat)
    requires Rate(rate) && Normal(t) && n1 < n0 < WORD && Faithful(n0, rate)
    requires Micros(t) + (n1 + WORD - n0) * Tick(rate) - WORD * Tick(rate) >= 0
    ensures Read(t, n0, n1, rate) == FromMicros(Micros(t) + (n1 + WORD - n0) * Tick(rate) - WORD * Tick(rate))
  {
    WrapIsHarmlessIff(n0 * Tick(rate));
    RawIs(t, n0, n1, rate);
    var u := Tick(rate);
    assert (n1 + WORD - n0) * u - WORD * u == n1 * u - n0 * u;
    ReadIs(Raw(Base(t, n0, rate), n1, rate), Micros(t) + n1 * u - n0 * u);
  }

  /** Otherwise already the time one second past the epoch, read back at once, is wrong. */
  lemma UnfaithfulReadIsOff(n0: nat, rate: nat)
    requires Rate(rate) && !Faithful(n0, rate)
    ensures Micros(Read(Timeval(1, 0), n0, n0, rate)) != Micros(Timeval(1, 0))
  {
    var raw := Raw(Base(Timeval(1, 0), n0, rate), n0, rate);
    WrapIsHarmlessIff(n0 * Tick(rate));
    RawIs(Timeval(1, 0), n0, n0, rate);
    NormalisedKeeps(raw);
  }

  /** The bound a caller can check without a division by 2^32. */
  lemma SmallTicksAreFaithful(n: nat, rate: nat)
    requires Rate(rate) && n * Tick(rate) < WORD
    ensures Faithful(n, rate)
  {
  }

  lemma MoreTicks(a: nat, b: nat, u: nat)
    requires a <= b
    ensures a * u <= b * u
  {
    assert b * u == a * u + (b - a) * u;
    Multiples(b - a, u);
  }

  /** Later reads are never earlier. */
  lemma ReadsAreMonotone(t: Timeval, n0: nat, n1: nat, n2: nat, rate: nat)
    requires Rate(rate) && Normal(t) && n0 <= n1 <= n2 < WORD && Faithful(n0, rate)
    ensures Micros(Read(t, n0, n1, rate)) <= Micros(Read(t, n0, n2, rate))
  {
    SetThenGet(t, n0, n1, rate);
    SetThenGet(t, n0, n2, rate);
    MoreTicks(n1 - n0, n2 - n0, Tick(rate));
  }

  /** Whatever time was set, one second later the read is off. */
  lemma UnfaithfulReadIsOffLater(t: Timeval, n0: nat, rate: nat)
    requires Rate(rate) && Normal(t) && !Faithful(n0, rate)
    ensures !IsLater(Read(t, n0, n0 + rate, rate), t, rate, rate)
  {
    var raw := Raw(Base(t, n0, rate), n0 + rate, rate);
    WrapIsHarmlessIff(n0 * Tick(rate));
    RawIs(t, n0, n0 + rate, rate);
    Difference(n0 + rate, n0, Tick(rate));
    RawIsLate(t, n0, n0 + rate, rate);
    NormalisedKeeps(raw);
  }

  /** _alt_nticks */
  type Count = n: nat | n < WORD

  class Clock {
    var resettime: Timeval
    var timezone: Timezone
    var nticks: Count
    var tickRate: nat

    constructor ()
      ensures tickRate == 0 && resettime == Timeval(0, 0)
    {
      resettime, timezone, nticks, tickRate := Timeval(0, 0), Timezone(0, 0), 0, 0;
    }

    /** What a read at tick n would return. */
    ghost function Shows(n: nat): (r: Timeval)
      requires Rate(tickRate)
      reads this`resettime, this`tickRate
    {
      Normalised(Raw(resettime, n, tickRate))
    }

    /** Until the counter wraps, every read shows time t and the ticks since. */
    ghost predicate KeepsTime(t: Timeval)
      requires Rate(tickRate)
      reads this
    {
      forall n1 | nticks <= n1 < WORD :: IsLater(Shows(n1), t, n1 - nticks, tickRate)
    }

    /**
     * settimeofday: whatever the time, the reads up to the counter's wrap are
     * exact if and only if the tick it is called at is faithful; in the last
     * second before the wrap, at least if it is.
     */
    method SetTime(t: Timeval, tz: Timezone) returns (status: Status)
      requires tickRate == 0 || Rate(tickRate)
      modifies this`resettime, this`timezone
      ensures status == if tickRate == 0 then NotSupported else Done
      ensures status == Done ==>
                timezone == tz && forall n1 | nticks <= n1 < WORD :: Shows(n1) == Read(t, nticks, n1, tickRate)
      ensures status == Done && Normal(t) && Faithful(nticks, tickRate) ==> KeepsTime(t)
      ensures status == Done && Normal(t) && nticks + tickRate < WORD ==> (KeepsTime(t) <==> Faithful(nticks, tickRate))
      ensures status != Done ==> resettime == old(resettime) && timezone == old(timezone)
    {
      if tickRate == 0 { return NotSupported; }
      var product := nticks * (US / tickRate) % WORD;
      resettime := Timeval(t.sec - nticks / tickRate, t.usec - product % US);
      timezone := tz;
      assert resettime == Base(t, nticks, tickRate);
      assert forall n1 | nticks <= n1 < WORD :: Shows(n1) == Read(t, nticks, n1, tickRate);
      if Normal(t) {
        if Faithful(nticks, tickRate) {
          ReadIsLater(t, nticks, tickRate);
        } else if nticks + tickRate < WORD {
          UnfaithfulReadIsOffLater(t, nticks, tickRate);
          assert !IsLater(Shows(nticks + tickRate), t, (nticks + tickRate) - nticks, tickRate);
        }
      }
      return Done;
    }

    /** gettimeofday */
    method GetTime() returns (status: Status, t: Timeval, tz: Timezone)
      requires tickRate == 0 || Rate(tickRate)
      ensures status == if tickRate == 0 then NotSupported else Done
      ensures status == Done ==> t == Shows(nticks) && tz == timezone
    {
      t, tz := Timeval(0, 0), timezone;
      if tickRate == 0 { return NotSupported, t, tz; }
      var sec := resettime.sec + nticks / tickRate;
      var usec := resettime.usec + nticks * (US / tickRate) % US;
      ghost var raw := Timeval(sec, usec);
      while usec < 0
        invariant Normalised(Timeval(sec, usec)) == Normalised(raw)
        decreases -usec
      {
        if sec <= 0 {
          sec, usec := 0, 0;
          break;
        } else {
          sec, usec := sec - 1, usec + US;
        }
      }
      while usec >= US
        invariant usec >= 0 && Normalised(Timeval(sec, usec)) == Normalised(raw)
        decreases usec
      {
        sec, usec := sec + 1, usec - US;
      }
      return Done, Timeval(sec, usec), tz;
    }

    /** The tick counter moves on, short of its wrap. */
    method PassTicks(n: nat)
      requires nticks + n < WORD
      modifies this`nticks
      ensures nticks == old(nticks) + n
    {
      nticks := nticks + n;
    }
  }

  /** Set the time, let ticks pass, read it: the time set and the ticks between, if the tick of the setting is faithful. */
  method SetPassGet(clock: Clock, t: Timeval, tz: Timezone, ticks: nat)
    returns (status: Status, read: Timeval, zone: Timezone)
    requires Rate(clock.tickRate) && Normal(t) && clock.nticks + ticks < WORD
    modifies clock
    ensures status == Done && zone == tz && clock.tickRate == old(clock.tickRate)
    ensures Faithful(old(clock.nticks), clock.tickRate) ==>
              IsLater(read, t, ticks, clock.tickRate)
  {
    status := clock.SetTime(t, tz);
    clock.PassTicks(ticks);
    status, read, zone := clock.GetTime();
  }
}
