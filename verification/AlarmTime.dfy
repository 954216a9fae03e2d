/**
 * Alarm deadlines over the 32-bit tick counter: the one-bit rollover flag
 * against an unbounded clock g whose low 32 bits are the counter.
 */
module AlarmTime {
  import opened Integers

  /** The alarm's time and rollover fields. */
  datatype Timer = Timer(time: nat, rollover: bool)

  function Ticks(g: nat): (n: nat)
    ensures n < WORD
  {
    g % WORD
  }

  /** alt_alarm_start's arming, n being the counter. */
  function Armed(nticks: nat, n: nat): (t: Timer)
    requires nticks < WORD && n < WORD
  {
    var time := (nticks + n + 1) % WORD;
    Timer(time, time < n)
  }

  /** alt_tick's first test: rolling over clears the flag. */
  function Cleared(t: Timer, n: nat): (r: Timer) {
    if t.rollover && n == 0 then t.(rollover := false) else t
  }

  predicate Expired(t: Timer, n: nat) {
    t.time <= n && !t.rollover
  }

  /** The callback asked for another call p ticks on. */
  function Rearmed(t: Timer, n: nat, p: nat): (r: Timer) {
    var time := (t.time + p) % WORD;
    Timer(time, t.rollover || time < n)
  }

  /** At clock g the alarm is set for clock due: same epoch of the counter, or the next one with the flag up. */
  ghost predicate Waits(t: Timer, g: nat, due: nat) {
    && g < due && t.time == Ticks(due)
    && (due / WORD == g / WORD || due / WORD == g / WORD + 1)
    && (t.rollover == (due / WORD != g / WORD) || Ticks(g) == WORD - 1)
  }

  lemma ClockStep(g: nat)
    ensures Ticks(g) < WORD - 1 ==> Ticks(g + 1) == Ticks(g) + 1 && (g + 1) / WORD == g / WORD
    ensures Ticks(g) == WORD - 1 ==> Ticks(g + 1) == 0 && (g + 1) / WORD == g / WORD + 1
  {
  }

  /** The tick that follows: the alarm expires exactly when its clock comes, and otherwise stays set for it. */
  lemma TickIsExact(t: Timer, g: nat, due: nat)
    requires Waits(t, g, due)
    ensures var n := Ticks(g + 1);
            && Expired(Cleared(t, n), n) == (due == g + 1)
            && (due != g + 1 ==> Waits(Cleared(t, n), g + 1, due))
            && (forall p | due == g + 1 && 0 < p < WORD :: Waits(Rearmed(Cleared(t, n), n, p), g + 1, due + p))
  {
    ClockStep(g);
  }

  /** Arming is exact, short of the one interval that a 32-bit difference cannot express. */
  lemma ArmedWaits(g: nat, nticks: nat)
    requires nticks < WORD
    requires nticks < WORD - 1 || Ticks(g) == WORD - 1
    ensures Waits(Armed(nticks, Ticks(g)), g, g + nticks + 1)
  {
  }

  // ----- whole lives

  /** From clock g, the k-th tick is the first at which the alarm expires. */
  predicate FirstExpiry(t: Timer, g: nat, k: nat)
    requires k > 0
    decreases k
  {
    var n := Ticks(g + 1);
    var c := Cleared(t, n);
    if k == 1 then Expired(c, n) else !Expired(c, n) && FirstExpiry(c, g + 1, k - 1)
  }

  lemma {:induction false} WaitsUntilDue(t: Timer, g: nat, due: nat)
    requires Waits(t, g, due)
    ensures FirstExpiry(t, g, due - g)
    decreases due - g
  {
    TickIsExact(t, g, due);
    if due > g + 1 { WaitsUntilDue(Cleared(t, Ticks(g + 1)), g + 1, due); }
  }

  /**
   * An alarm fires nticks + 1 ticks after its start, across any number of
   * wraps, exactly when nticks is below the largest value or the counter is
   * at its last; otherwise it fires on the very next tick.
   */
  lemma StartIsExactIff(g: nat, nticks: nat)
    requires nticks < WORD
    ensures FirstExpiry(Armed(nticks, Ticks(g)), g, nticks + 1) <==> nticks < WORD - 1 || Ticks(g) == WORD - 1
    ensures nticks == WORD - 1 && Ticks(g) != WORD - 1 ==> FirstExpiry(Armed(nticks, Ticks(g)), g, 1)
  {
    if nticks < WORD - 1 || Ticks(g) == WORD - 1 {
      ArmedWaits(g, nticks);
      WaitsUntilDue(Armed(nticks, Ticks(g)), g, g + nticks + 1);
    } else {
      ClockStep(g);
      StartedTooFar(g);
    }
  }

  lemma StartedTooFar(g: nat)
    requires Ticks(g) != WORD - 1
    ensures Armed(WORD - 1, Ticks(g)) == Timer(Ticks(g), false)
  {
  }

  /** When the callback runs, over a number of ticks; periods are what it returns, and after the last of them zero. */
  function Firings(t: Timer, g: nat, ticks: nat, periods: seq<nat>): (at: seq<nat>)
    decreases ticks
  {
    if ticks == 0 then []
    else
      var n := Ticks(g + 1);
      var c := Cleared(t, n);
      if !Expired(c, n) then Firings(c, g + 1, ticks - 1, periods)
      else if periods == [] then [g + 1]
      else [g + 1] + Firings(Rearmed(c, n, periods[0]), g + 1, ticks - 1, periods[1..])
  }

  /** The clocks due, due + periods[0], due + periods[0] + periods[1] and so on, up to clock last. */
  function Schedule(due: nat, last: nat, periods: seq<nat>): (at: seq<nat>)
    decreases |periods|
  {
    if due > last then [] else if periods == [] then [due] else [due] + Schedule(due + periods[0], last, periods[1..])
  }

  /** Never early, never late, never drifting: every callback comes at the sum of the periods before it. */
  lemma {:induction false} FiringsKeepSchedule(t: Timer, g: nat, due: nat, ticks: nat, periods: seq<nat>)
    requires Waits(t, g, due)
    requires forall k | 0 <= k < |periods| :: 0 < periods[k] < WORD
    ensures Firings(t, g, ticks, periods) == Schedule(due, g + ticks, periods)
    decreases ticks
  {
    if ticks > 0 {
      TickIsExact(t, g, due);
      var n := Ticks(g + 1);
      var c := Cleared(t, n);
      if due != g + 1 {
        FiringsKeepSchedule(c, g + 1, due, ticks - 1, periods);
      } else if periods != [] {
        FiringsKeepSchedule(Rearmed(c, n, periods[0]), g + 1, due + periods[0], ticks - 1, periods[1..]);
      }
    }
  }
}
