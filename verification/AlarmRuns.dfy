/** What the ticks, and everything between them, come to for the alarms of the list. */
module AlarmRuns {
  import opened Integers
  import opened AlarmTime
  import opened AlarmWalk
  import opened Removal
  import opened Seqs

  /** The list in order, every alarm's times, and the unbounded clock. */
  datatype State<A> = State(list: seq<A>, times: map<A, Entry>, clock: nat)

  /** The list at clock g is as it should be. */
  ghost predicate Good<A>(s: State<A>) {
    Distinct(s.list) && AllOnTime(s.list, s.times, s.clock)
  }

  ghost function Ticked<A>(s: State<A>, plan: seq<Callback<A>>): (w: Walk<A>)
    requires Good(s) && LawfulPlan(plan)
    ensures w.rest == []
  {
    TickOn(s.list, s.times, plan, s.clock + 1)
  }

  lemma IdleOrder<A>(s: State<A>)
    ensures Order(Walk([], s.list, [], s.times, [])) == s.list
  {
  }

  /**
   * The tick keeps the list a list and everybody set for the right clock. It
   * calls alarms of the list, each once, and those with an exact time only
   * when it has come.
   */
  lemma TickIsGood<A>(s: State<A>, plan: seq<Callback<A>>)
    requires Good(s) && LawfulPlan(plan)
    ensures var w := Ticked(s, plan);
            && Good(State(Order(w), w.times, s.clock + 1))
            && Distinct(w.fired)
            && forall k | 0 <= k < |w.fired| :: w.fired[k] in s.list
  {
    var w0 := Opening(s.list, s.times);
    WalkTimely(w0, plan, s.clock + 1);
    FiredGrows(w0, plan, s.clock + 1);
    var w := Ticked(s, plan);
    assert w.fired[0..] == w.fired;
  }

  /** The walk that the coming tick will be. */
  lemma Foreseen<A>(s: State<A>, plan: seq<Callback<A>>) returns (g: nat, w: Walk<A>, r: Walk<A>)
    requires Good(s) && LawfulPlan(plan)
    ensures g == s.clock + 1 && w == Opening(s.list, s.times) && Known(w)
    ensures r == WalkOn(w, plan, g) && r == Ticked(s, plan) && Good(State(Order(r), r.times, g))
  {
    g, w, r := s.clock + 1, Opening(s.list, s.times), Ticked(s, plan);
    TickedIs(s, plan);
    TickIsGood(s, plan);
    assert Good(State(Order(r), r.times, g));
  }

  lemma TickedIs<A>(s: State<A>, plan: seq<Callback<A>>)
    requires Good(s) && LawfulPlan(plan)
    ensures Known(Opening(s.list, s.times))
    ensures Ticked(s, plan) == WalkOn(Opening(s.list, s.times), plan, s.clock + 1)
  {
  }

  /**
   * An alarm of the list that no callback stops. With an exact time it is
   * called if and only if its clock has come. Not called, it stays listed with
   * its due time; called, it stays listed with a due time one period on,
   * unless its callback returned zero.
   */
  lemma TickServes<A>(s: State<A>, plan: seq<Callback<A>>, n: A)
    requires Good(s) && LawfulPlan(plan) && n in s.list
    requires Unstopped(plan, 0, |Ticked(s, plan).fired|, n)
    ensures ServedOnTime(Ticked(s, plan), plan, s.clock + 1, n, s.times[n])
  {
    WalkServesOnTime(Opening(s.list, s.times), plan, s.clock + 1, n);
  }

  lemma WalkServesOnTime<A>(w: Walk<A>, plan: seq<Callback<A>>, g: nat, n: A)
    requires LawfulPlan(plan) && Distinct(Order(w)) && g > 0 && AllOnTime(w.rest, w.times, g - 1)
    requires n in w.rest && w.fired == [] && Unstopped(plan, 0, |WalkOn(w, plan, g).fired|, n)
    ensures ServedOnTime(WalkOn(w, plan, g), plan, g, n, w.times[n])
  {
    WalkServes(w, plan, g, n);
    ServedExactly(WalkOn(w, plan, g), plan, g, n, w.times[n]);
  }

  ghost predicate ServedOnTime<A>(w: Walk<A>, plan: seq<Callback<A>>, g: nat, n: A, e: Entry) {
    && (e.exact ==> (n in w.fired <==> e.due == g))
    && (n !in w.fired ==> n in w.done && n in w.times && w.times[n].due == e.due && w.times[n].exact == e.exact)
    && forall k | 0 <= k < |w.fired| && w.fired[k] == n && CallbackAt(plan, k).period > 0 ::
         n in w.done && n in w.times && w.times[n].due == e.due + CallbackAt(plan, k).period
         && (e.exact ==> w.times[n].exact)
  }

  lemma ServedExactly<A>(w: Walk<A>, plan: seq<Callback<A>>, g: nat, n: A, e: Entry)
    requires LawfulPlan(plan) && g > 0 && OnTime(e, g - 1) && Served(w, plan, g, 0, n, e)
    ensures ServedOnTime(w, plan, g, n, e)
  {
    assert w.fired[0..] == w.fired;
    LookIsExact(e, g);
    forall k | 0 <= k < |w.fired| && w.fired[k] == n && CallbackAt(plan, k).period > 0
      ensures CallbackAt(plan, k).period < WORD
    {
      assert k < |plan| && Lawful(plan[k]);
    }
  }

  /**
   * The list after the tick is the alarms started during it, then alarms that
   * were listed before; those neither stopped nor retired are among them, in
   * the old order.
   */
  lemma TickKeepsOrder<A>(s: State<A>, plan: seq<Callback<A>>, keep: set<A>)
    requires Good(s) && LawfulPlan(plan)
    requires Spared(plan, 0, Ticked(s, plan).fired, keep)
    ensures Order(Ticked(s, plan)) == Ticked(s, plan).added + Ticked(s, plan).done
    ensures Only(Ticked(s, plan).done, keep) == Only(s.list, keep)
  {
    WalkStands(Opening(s.list, s.times), plan, s.clock + 1, keep);
  }

  /** An alarm that no callback starts is not among the new ones, and is listed only if it was. */
  lemma TickBringsNoOther<A>(s: State<A>, plan: seq<Callback<A>>, n: A)
    requires Good(s) && LawfulPlan(plan)
    requires Unstarted(plan, 0, |Ticked(s, plan).fired|, n)
    ensures n !in Ticked(s, plan).added && (n in Ticked(s, plan).done ==> n in s.list)
  {
    WalkBringsNoOther(Opening(s.list, s.times), plan, s.clock + 1, n);
  }

  /** A callback that returns zero retires its alarm, unless a later callback of the tick starts it again. */
  lemma TickRetires<A>(s: State<A>, plan: seq<Callback<A>>, k: nat, n: A)
    requires Good(s) && LawfulPlan(plan)
    requires k < |Ticked(s, plan).fired| && Ticked(s, plan).fired[k] == n && CallbackAt(plan, k).period == 0
    requires Unstarted(plan, k + 1, |Ticked(s, plan).fired|, n)
    ensures n !in Order(Ticked(s, plan))
  {
    var w0 := Opening(s.list, s.times);
    assert Known(w0) && Distinct(Order(w0));
    WalkRetires(w0, plan, s.clock + 1, k);
  }

  // ----- whole runs

  /** A tick, or a start or stop by the foreground between ticks. */
  datatype Event<A> = Tick(plan: seq<Callback<A>>) | Do(a: Action<A>)

  ghost predicate LawfulEvent<A>(ev: Event<A>) {
    match ev
    case Tick(plan) => LawfulPlan(plan)
    case Do(a) => a.Start? ==> a.nticks < WORD
  }

  ghost predicate LawfulRun<A>(evs: seq<Event<A>>) {
    forall k | 0 <= k < |evs| :: LawfulEvent(evs[k])
  }

  ghost function Done<A>(s: State<A>, a: Action<A>): (w: Walk<A>)
    requires a.Start? ==> a.nticks < WORD
  {
    ActOn(Walk([], s.list, [], s.times, []), a, s.clock)
  }

  ghost function After<A>(s: State<A>, ev: Event<A>): (s': State<A>)
    requires Good(s) && LawfulEvent(ev)
    ensures Good(s')
  {
    match ev
    case Tick(plan) =>
      TickIsGood(s, plan);
      State(Order(Ticked(s, plan)), Ticked(s, plan).times, s.clock + 1)
    case Do(a) =>
      DoIsGood(s, a);
      State(Order(Done(s, a)), Done(s, a).times, s.clock)
  }

  lemma DoIsGood<A>(s: State<A>, a: Action<A>)
    requires Good(s) && (a.Start? ==> a.nticks < WORD)
    ensures Good(State(Order(Done(s, a)), Done(s, a).times, s.clock))
  {
    IdleOrder(s);
    ActOrder(Walk([], s.list, [], s.times, []), a, s.clock);
    if a.Start? { BegunIsExact(a.nticks, s.clock); }
  }

  /** What a start or stop between ticks comes to. */
  lemma AfterDo<A>(s: State<A>, a: Action<A>)
    requires Good(s) && (a.Start? ==> a.nticks < WORD)
    ensures a.Stop? ==> After(s, Do(a)) == s.(list := Without(s.list, a.x))
    ensures a.Start? ==>
              After(s, Do(a)) == if a.x in s.list then s
                                 else State([a.x] + s.list, s.times[a.x := Begun(a.nticks, s.clock)], s.clock)
  {
    IdleOrder(s);
    ActOrder(Walk([], s.list, [], s.times, []), a, s.clock);
  }

  ghost function AfterAll<A>(s: State<A>, evs: seq<Event<A>>): (s': State<A>)
    requires Good(s) && LawfulRun(evs)
    ensures Good(s')
    decreases |evs|
  {
    if evs == [] then s else AfterAll(After(s, evs[0]), evs[1..])
  }

  lemma FirstOf<A>(s: State<A>, evs: seq<Event<A>>)
    requires Good(s) && LawfulRun(evs) && evs != []
    ensures LawfulEvent(evs[0]) && LawfulRun(evs[1..]) && AfterAll(s, evs) == AfterAll(After(s, evs[0]), evs[1..])
  {
  }

  // ----- one alarm's life

  /** What an alarm sees of an event: no tick, a tick that does not call it, or a call whose answer is a period. */
  datatype Sight = Between | Silent | Called(period: nat)

  ghost function SightOf<A>(n: A, s: State<A>, ev: Event<A>): (r: Sight)
    requires Good(s) && LawfulEvent(ev)
  {
    if ev.Do? then Between
    else if n !in Ticked(s, ev.plan).fired then Silent
    else
      var k :| 0 <= k < |Ticked(s, ev.plan).fired| && Ticked(s, ev.plan).fired[k] == n;
      Called(CallbackAt(ev.plan, k).period)
  }

  ghost function SightsOf<A>(n: A, s: State<A>, evs: seq<Event<A>>): (v: seq<Sight>)
    requires Good(s) && LawfulRun(evs)
    ensures |v| == |evs|
    decreases |evs|
  {
    if evs == [] then [] else [SightOf(n, s, evs[0])] + SightsOf(n, After(s, evs[0]), evs[1..])
  }

  /** The clocks at which the calls come, from clock g on, the answers, and the clock at the end. */
  function CallClocks(v: seq<Sight>, g: nat): (r: seq<nat>)
    decreases |v|
  {
    if v == [] then []
    else match v[0]
      case Between => CallClocks(v[1..], g)
      case Silent => CallClocks(v[1..], g + 1)
      case Called(_) => [g + 1] + CallClocks(v[1..], g + 1)
  }

  function Answers(v: seq<Sight>): (r: seq<nat>) {
    if v == [] then [] else if v[0].Called? then [v[0].period] + Answers(v[1..]) else Answers(v[1..])
  }

  function EndClock(v: seq<Sight>, g: nat): (e: nat)
    ensures e >= g
    decreases |v|
  {
    if v == [] then g else EndClock(v[1..], if v[0].Between? then g else g + 1)
  }

  ghost predicate KeepsAnswering(v: seq<Sight>) {
    forall k | 0 <= k < |v| :: v[k].Called? ==> v[k].period > 0
  }

  /** Every tick calls if and only if it is due. */
  ghost predicate Punctual(v: seq<Sight>, g: nat, due: nat)
    decreases |v|
  {
    v != [] ==> match v[0]
                case Between => Punctual(v[1..], g, due)
                case Silent => due != g + 1 && Punctual(v[1..], g + 1, due)
                case Called(p) => due == g + 1 && Punctual(v[1..], g + 1, due + p)
  }

  lemma {:induction false} PunctualIsSchedule(v: seq<Sight>, g: nat, due: nat)
    requires Punctual(v, g, due) && KeepsAnswering(v) && due > g
    ensures CallClocks(v, g) == Schedule(due, EndClock(v, g), Answers(v))
    decreases |v|
  {
    if v != [] {
      match v[0]
      case Between => PunctualIsSchedule(v[1..], g, due);
      case Silent => PunctualIsSchedule(v[1..], g + 1, due);
      case Called(p) =>
        PunctualIsSchedule(v[1..], g + 1, due + p);
        assert Answers(v)[1..] == Answers(v[1..]);
    }
  }

  /** What a punctual sight at clock g makes of the clock and the due clock. */
  predicate Leads(sight: Sight, g: nat, due: nat, g': nat, due': nat) {
    match sight
    case Between => g' == g && due' == due
    case Silent => g' == g + 1 && due != g + 1 && due' == due
    case Called(p) => g' == g + 1 && due == g + 1 && due' == due + p
  }

  lemma PunctualStep(v: seq<Sight>, g: nat, due: nat, g': nat, due': nat)
    requires v != [] && Leads(v[0], g, due, g', due') && Punctual(v[1..], g', due')
    ensures Punctual(v, g, due)
  {
  }

  /** Neither a callback nor the foreground stops n. */
  ghost predicate LetBe<A>(ev: Event<A>, n: A) {
    match ev
    case Tick(plan) => Unstopped(plan, 0, |plan|, n)
    case Do(a) => a != Stop(n)
  }

  ghost predicate NeverStopped<A>(evs: seq<Event<A>>, n: A) {
    forall k | 0 <= k < |evs| :: LetBe(evs[k], n)
  }

  /** One event of the run, seen from n. */
  lemma EventServes<A>(n: A, s: State<A>, ev: Event<A>)
    requires Good(s) && LawfulEvent(ev) && LetBe(ev, n) && n in s.list && s.times[n].exact
    requires SightOf(n, s, ev).Called? ==> SightOf(n, s, ev).period > 0
    ensures var s' := After(s, ev);
            && n in s'.list && n in s'.times && s'.times[n].exact
            && Leads(SightOf(n, s, ev), s.clock, s.times[n].due, s'.clock, s'.times[n].due)
  {
    match ev
    case Tick(plan) => TickServes(s, plan, n);
    case Do(a) =>
      IdleOrder(s);
      ActSpares(Walk([], s.list, [], s.times, []), a, s.clock, n);
  }

  lemma {:induction false} RunIsPunctual<A>(n: A, s: State<A>, evs: seq<Event<A>>)
    requires Good(s) && LawfulRun(evs) && NeverStopped(evs, n)
    requires n in s.list && s.times[n].exact && KeepsAnswering(SightsOf(n, s, evs))
    ensures Punctual(SightsOf(n, s, evs), s.clock, s.times[n].due)
    decreases |evs|
  {
    if evs != [] {
      var v, s' := SightsOf(n, s, evs), After(s, evs[0]);
      assert v[0] == SightOf(n, s, evs[0]) && v[1..] == SightsOf(n, s', evs[1..]);
      EventServes(n, s, evs[0]);
      RunIsPunctual(n, s', evs[1..]);
      PunctualStep(v, s.clock, s.times[n].due, s'.clock, s'.times[n].due);
    }
  }

  /**
   * Whatever the other alarms' callbacks and the foreground do: an alarm that
   * nobody stops and whose callback keeps returning periods is called exactly
   * at its due clock and at the sums of the returned periods after it.
   */
  lemma CallsKeepSchedule<A>(n: A, s: State<A>, evs: seq<Event<A>>)
    requires Good(s) && LawfulRun(evs) && NeverStopped(evs, n)
    requires n in s.list && s.times[n].exact && KeepsAnswering(SightsOf(n, s, evs))
    ensures var v := SightsOf(n, s, evs);
            CallClocks(v, s.clock) == Schedule(s.times[n].due, EndClock(v, s.clock), Answers(v))
  {
    RunIsPunctual(n, s, evs);
    assert OnTime(s.times[n], s.clock);
    PunctualIsSchedule(SightsOf(n, s, evs), s.clock, s.times[n].due);
  }

  lemma StartedIsDue<A>(n: A, s: State<A>, nticks: nat)
    requires Good(s) && n !in s.list && nticks < WORD - 1
    ensures var s1 := After(s, Do(Start(n, nticks)));
            n in s1.list && s1.clock == s.clock && s1.times[n].exact && s1.times[n].due == s.clock + nticks + 1
  {
    IdleOrder(s);
  }

  /** An alarm started between ticks is first called nticks + 1 ticks later, and then as its callback asks. */
  lemma StartedKeepsSchedule<A>(n: A, s: State<A>, nticks: nat, evs: seq<Event<A>>)
    requires Good(s) && LawfulRun(evs) && NeverStopped(evs, n) && n !in s.list
    requires nticks < WORD - 1
    ensures var v := SightsOf(n, After(s, Do(Start(n, nticks))), evs);
            KeepsAnswering(v) ==>
              CallClocks(v, s.clock) == Schedule(s.clock + nticks + 1, EndClock(v, s.clock), Answers(v))
  {
    StartedIsDue(n, s, nticks);
    var s1 := After(s, Do(Start(n, nticks)));
    if KeepsAnswering(SightsOf(n, s1, evs)) { CallsKeepSchedule(n, s1, evs); }
  }
}
