/**
 * One tick of the alarm list on values: which alarms are called, what their
 * callbacks do to the list, where everybody stands and when they are next due.
 * AlarmList proves that the walk over the linked list computes this.
 */
module AlarmWalk {
  import opened Integers
  import opened AlarmTime
  import opened Removal
  import opened Seqs

  /** An alarm's time fields, the unbounded clock it is set for, and whether its fields express that clock. */
  datatype Entry = Entry(timer: Timer, due: nat, exact: bool)

  /** What a callback may do to alarms besides returning a period. */
  datatype Action<A> = Stop(x: A) | Start(x: A, nticks: nat)

  datatype Callback<A> = Callback(actions: seq<Action<A>>, period: nat)

  /**
   * A walk in progress. The list is what has been added since the walk began,
   * then what the walk has passed (the alarm in hand last), then what is to
   * come. fired are the alarms called so far.
   */
  datatype Walk<A> = Walk(added: seq<A>, done: seq<A>, rest: seq<A>, times: map<A, Entry>, fired: seq<A>)

  ghost function Order<A>(w: Walk<A>): (r: seq<A>) {
    w.added + (w.done + w.rest)
  }

  predicate LawfulActions<A>(actions: seq<Action<A>>) {
    forall k | 0 <= k < |actions| :: actions[k].Start? ==> actions[k].nticks < WORD
  }

  predicate Lawful<A>(c: Callback<A>) {
    LawfulActions(c.actions) && c.period < WORD
  }

  ghost predicate LawfulPlan<A>(plan: seq<Callback<A>>) {
    forall k | 0 <= k < |plan| :: Lawful(plan[k])
  }

  /** What the k-th callback of a tick does. */
  function CallbackAt<A>(plan: seq<Callback<A>>, k: nat): (c: Callback<A>) {
    if k < |plan| then plan[k] else Callback([], 0)
  }

  /** An alarm started at clock g. */
  function Begun(nticks: nat, g: nat): (r: Entry)
    requires nticks < WORD
  {
    Entry(Armed(nticks, Ticks(g)), g + nticks + 1, nticks < WORD - 1 || Ticks(g) == WORD - 1)
  }

  /** An alarm whose callback at clock g returned a period. */
  function Postponed(e: Entry, period: nat, g: nat): (r: Entry) {
    Entry(Rearmed(e.timer, Ticks(g), period), e.due + period, e.exact && e.due + period < g + WORD)
  }

  function Looked(e: Entry, g: nat): (r: Entry) {
    e.(timer := Cleared(e.timer, Ticks(g)))
  }

  predicate Ripe(e: Entry, g: nat) {
    Expired(Looked(e, g).timer, Ticks(g))
  }

  ghost function Drop<A>(w: Walk<A>, x: A): (w': Walk<A>)
    ensures forall j | 0 <= j < |w'.rest| :: w'.rest[j] in w.rest
  {
    w.(added := Without(w.added, x), done := Without(w.done, x), rest := Without(w.rest, x))
  }

  /** One action of a running callback. Unlinking the walk's next alarm or starting a listed one is not taken. */
  ghost function ActOn<A>(w: Walk<A>, a: Action<A>, g: nat): (w': Walk<A>)
    requires a.Start? ==> a.nticks < WORD
    ensures w'.fired == w.fired && |w'.rest| <= |w.rest| && w.times.Keys <= w'.times.Keys
    ensures forall j | 0 <= j < |w'.rest| :: w'.rest[j] in w.rest
    ensures w.rest != [] ==> w'.rest != [] && w'.rest[0] == w.rest[0]
  {
    match a
    case Stop(x) => if w.rest != [] && x == w.rest[0] then w else Drop(w, x)
    case Start(x, nticks) =>
      if x in Order(w) then w else w.(added := [x] + w.added, times := w.times[x := Begun(nticks, g)])
  }

  ghost function CallOn<A>(w: Walk<A>, actions: seq<Action<A>>, g: nat): (w': Walk<A>)
    requires LawfulActions(actions)
    ensures w'.fired == w.fired && |w'.rest| <= |w.rest| && w.times.Keys <= w'.times.Keys
    ensures forall j | 0 <= j < |w'.rest| :: w'.rest[j] in w.rest
    ensures w.rest != [] ==> w'.rest != [] && w'.rest[0] == w.rest[0]
    decreases |actions|
  {
    if actions == [] then w else CallOn(ActOn(w, actions[0], g), actions[1..], g)
  }

  /** The callback of the alarm in hand, then out with it or on to its next time. */
  ghost function FireOn<A>(w: Walk<A>, alarm: A, c: Callback<A>, g: nat): (w': Walk<A>)
    requires Lawful(c) && alarm in w.times
    ensures w'.fired == w.fired && |w'.rest| <= |w.rest| && w.times.Keys <= w'.times.Keys
    ensures forall j | 0 <= j < |w'.rest| :: w'.rest[j] in w.rest
  {
    var v := CallOn(w, c.actions, g);
    if c.period == 0 then Drop(v, alarm)
    else v.(times := v.times[alarm := Postponed(v.times[alarm], c.period, g)])
  }

  /** All that is to come has its times. */
  ghost predicate Known<A>(w: Walk<A>) {
    forall j | 0 <= j < |w.rest| :: w.rest[j] in w.times
  }

  /** The next alarm is taken in hand. */
  ghost function TakenOn<A>(w: Walk<A>, g: nat): (w': Walk<A>)
    requires w.rest != [] && Known(w)
  {
    var alarm := w.rest[0];
    w.(done := w.done + [alarm], rest := w.rest[1..], times := w.times[alarm := Looked(w.times[alarm], g)])
  }

  /** One turn of the walk. */
  ghost function TurnOn<A>(w: Walk<A>, c: Callback<A>, g: nat): (w': Walk<A>)
    requires w.rest != [] && Known(w) && Lawful(c)
    ensures |w'.rest| < |w.rest| && Known(w')
    ensures forall j | 0 <= j < |w'.rest| :: w'.rest[j] in w.rest[1..]
  {
    var alarm, v := w.rest[0], TakenOn(w, g);
    if Ripe(w.times[alarm], g) then FireOn(v.(fired := v.fired + [alarm]), alarm, c, g) else v
  }

  ghost function WalkOn<A>(w: Walk<A>, plan: seq<Callback<A>>, g: nat): (w': Walk<A>)
    requires Known(w) && LawfulPlan(plan)
    ensures w'.rest == []
    decreases |w.rest|
  {
    if w.rest == [] then w else WalkOn(TurnOn(w, CallbackAt(plan, |w.fired|), g), plan, g)
  }

  /** A walk about to begin. */
  ghost function Opening<A>(list: seq<A>, times: map<A, Entry>): (w: Walk<A>)
    ensures Order(w) == list && w.rest == list && w.times == times && w.fired == []
  {
    assert [] + ([] + list) == list;
    Walk([], [], list, times, [])
  }

  /** The tick that makes the clock g. */
  ghost function TickOn<A>(list: seq<A>, times: map<A, Entry>, plan: seq<Callback<A>>, g: nat): (w: Walk<A>)
    requires (forall j | 0 <= j < |list| :: list[j] in times) && LawfulPlan(plan)
    ensures w.rest == []
  {
    WalkOn(Opening(list, times), plan, g)
  }

  // ----- the list stays a list

  lemma OrderParts<A>(w: Walk<A>)
    requires Distinct(Order(w))
    ensures Distinct(w.added) && Distinct(w.done) && Distinct(w.rest) && Distinct(w.done + w.rest)
    ensures forall j | 0 <= j < |w.added| :: w.added[j] !in w.done && w.added[j] !in w.rest
    ensures forall j | 0 <= j < |w.done| :: w.done[j] !in w.rest
  {
    DistinctParts(w.added, w.done + w.rest);
    DistinctParts(w.done, w.rest);
  }

  lemma DropOrder<A>(w: Walk<A>, x: A)
    requires Distinct(Order(w))
    ensures Order(Drop(w, x)) == Without(Order(w), x)
    ensures Distinct(Order(Drop(w, x))) && x !in Order(Drop(w, x))
  {
    OrderParts(w);
    WithoutParts(w.added, w.done + w.rest, x);
    WithoutParts(w.done, w.rest, x);
    WithoutMembers(Order(w), x);
  }

  lemma BehindOrder<A>(w: Walk<A>, x: A)
    ensures Order(w.(added := [x] + w.added)) == [x] + Order(w)
  {
  }

  lemma ActOrder<A>(w: Walk<A>, a: Action<A>, g: nat)
    requires Distinct(Order(w)) && (a.Start? ==> a.nticks < WORD)
    ensures Distinct(Order(ActOn(w, a, g)))
    ensures a.Stop? ==>
              Order(ActOn(w, a, g)) == if w.rest != [] && a.x == w.rest[0] then Order(w) else Without(Order(w), a.x)
    ensures a.Start? ==> Order(ActOn(w, a, g)) == if a.x in Order(w) then Order(w) else [a.x] + Order(w)
  {
    match a
    case Stop(x) => DropOrder(w, x);
    case Start(x, nticks) => BehindOrder(w, x);
  }

  lemma {:induction false} CallDistinct<A>(w: Walk<A>, actions: seq<Action<A>>, g: nat)
    requires Distinct(Order(w)) && LawfulActions(actions)
    ensures Distinct(Order(CallOn(w, actions, g)))
    decreases |actions|
  {
    if actions != [] {
      ActOrder(w, actions[0], g);
      CallDistinct(ActOn(w, actions[0], g), actions[1..], g);
    }
  }

  lemma TakenOrder<A>(w: Walk<A>, g: nat)
    requires w.rest != [] && Known(w)
    ensures Order(TakenOn(w, g)) == Order(w)
  {
    assert w.rest == [w.rest[0]] + w.rest[1..];
    Assoc(w.done, [w.rest[0]], w.rest[1..]);
  }

  lemma FireDistinct<A>(w: Walk<A>, alarm: A, c: Callback<A>, g: nat)
    requires Distinct(Order(w)) && Lawful(c) && alarm in w.times
    ensures Distinct(Order(FireOn(w, alarm, c, g)))
  {
    CallDistinct(w, c.actions, g);
    DropOrder(CallOn(w, c.actions, g), alarm);
  }

  lemma TurnDistinct<A>(w: Walk<A>, c: Callback<A>, g: nat)
    requires w.rest != [] && Known(w) && Lawful(c) && Distinct(Order(w))
    ensures Distinct(Order(TurnOn(w, c, g)))
  {
    var alarm, v := w.rest[0], TakenOn(w, g);
    TakenOrder(w, g);
    FireDistinct(v.(fired := v.fired + [alarm]), alarm, c, g);
  }

  // ----- an alarm that nobody stops

  /** n stands in w' where it stood in w, with the times it had. */
  ghost predicate SamePlace<A>(w: Walk<A>, w': Walk<A>, n: A) {
    && (n in w'.added <==> n in w.added) && (n in w'.done <==> n in w.done) && (n in w'.rest <==> n in w.rest)
    && n in w.times && n in w'.times && w'.times[n] == w.times[n]
  }

  lemma DropSpares<A>(w: Walk<A>, x: A, n: A)
    requires n in w.times && n != x
    ensures SamePlace(w, Drop(w, x), n)
  {
    WithoutOther(w.added, x, n);
    WithoutOther(w.done, x, n);
    WithoutOther(w.rest, x, n);
  }

  lemma ActSpares<A>(w: Walk<A>, a: Action<A>, g: nat, n: A)
    requires n in Order(w) && n in w.times && a != Stop(n) && (a.Start? ==> a.nticks < WORD)
    ensures SamePlace(w, ActOn(w, a, g), n) && n in Order(ActOn(w, a, g))
  {
    match a
    case Stop(x) => DropSpares(w, x, n);
    case Start(x, nticks) =>
  }

  lemma {:induction false} CallSpares<A>(w: Walk<A>, actions: seq<Action<A>>, g: nat, n: A)
    requires n in Order(w) && n in w.times && Stop(n) !in actions && LawfulActions(actions)
    ensures SamePlace(w, CallOn(w, actions, g), n) && n in Order(CallOn(w, actions, g))
    decreases |actions|
  {
    if actions != [] {
      ActSpares(w, actions[0], g, n);
      CallSpares(ActOn(w, actions[0], g), actions[1..], g, n);
    }
  }

  lemma FireSpares<A>(w: Walk<A>, alarm: A, c: Callback<A>, g: nat, n: A)
    requires n in Order(w) && n in w.times && Stop(n) !in c.actions && Lawful(c) && alarm in w.times && n != alarm
    ensures SamePlace(w, FireOn(w, alarm, c, g), n) && n in Order(FireOn(w, alarm, c, g))
  {
    CallSpares(w, c.actions, g, n);
    var v := CallOn(w, c.actions, g);
    DropSpares(v, alarm, n);
  }

  /** No callback from the i-th up to the k-th stops n. */
  ghost predicate Unstopped<A>(plan: seq<Callback<A>>, i: nat, k: nat, n: A) {
    forall m | i <= m < k :: Stop(n) !in CallbackAt(plan, m).actions
  }

  /** Another alarm's turn. */
  lemma TurnSpares<A>(w: Walk<A>, c: Callback<A>, g: nat, n: A)
    requires w.rest != [] && Known(w) && Lawful(c) && Distinct(Order(w))
    requires n in Order(w) && n in w.times && n != w.rest[0]
    requires Ripe(w.times[w.rest[0]], g) ==> Stop(n) !in c.actions
    ensures SamePlace(w, TurnOn(w, c, g), n) && n in Order(TurnOn(w, c, g))
  {
    var alarm, v := w.rest[0], TakenOn(w, g);
    TakenOrder(w, g);
    assert n in w.rest <==> n in w.rest[1..];
    if Ripe(w.times[alarm], g) {
      FireSpares(v.(fired := v.fired + [alarm]), alarm, c, g, n);
    }
  }

  /** fired only grows, by alarms that were to come, each once. */
  lemma {:induction false} FiredGrows<A>(w: Walk<A>, plan: seq<Callback<A>>, g: nat)
    requires Known(w) && LawfulPlan(plan) && Distinct(Order(w))
    ensures w.fired <= WalkOn(w, plan, g).fired
    ensures forall k | |w.fired| <= k < |WalkOn(w, plan, g).fired| :: WalkOn(w, plan, g).fired[k] in w.rest
    ensures forall k, m | |w.fired| <= k < m < |WalkOn(w, plan, g).fired| ::
              WalkOn(w, plan, g).fired[k] != WalkOn(w, plan, g).fired[m]
    decreases |w.rest|
  {
    if w.rest != [] {
      var w' := TurnOn(w, CallbackAt(plan, |w.fired|), g);
      OrderParts(w);
      DistinctTail(w.rest);
      TurnDistinct(w, CallbackAt(plan, |w.fired|), g);
      FiredGrows(w', plan, g);
      OneMore(w.fired, w'.fired, WalkOn(w, plan, g).fired, w.rest, w'.rest);
    }
  }

  lemma OneMore<A>(was: seq<A>, now: seq<A>, end: seq<A>, rest: seq<A>, left: seq<A>)
    requires rest != [] && (now == was || now == was + [rest[0]]) && now <= end && rest[0] !in rest[1..]
    requires forall j | 0 <= j < |left| :: left[j] in rest[1..]
    requires forall k | |now| <= k < |end| :: end[k] in left
    requires forall k, m | |now| <= k < m < |end| :: end[k] != end[m]
    ensures was <= end
    ensures forall k | |was| <= k < |end| :: end[k] in rest
    ensures forall k, m | |was| <= k < m < |end| :: end[k] != end[m]
  {
    forall k | |was| <= k < |end| ensures end[k] in rest && (k >= |now| ==> end[k] in rest[1..]) {
      if k < |now| { assert end[k] == now[k]; }
    }
  }

  /** An alarm the walk has passed, or that came in during it. */
  lemma {:induction false} WalkSpares<A>(w: Walk<A>, plan: seq<Callback<A>>, g: nat, n: A)
    requires Known(w) && LawfulPlan(plan) && Distinct(Order(w))
    requires n in Order(w) && n !in w.rest && n in w.times
    requires Unstopped(plan, |w.fired|, |WalkOn(w, plan, g).fired|, n)
    ensures SamePlace(w, WalkOn(w, plan, g), n)
    decreases |w.rest|
  {
    if w.rest != [] {
      var c := CallbackAt(plan, |w.fired|);
      var w' := TurnOn(w, c, g);
      TurnDistinct(w, c, g);
      FiredGrows(w', plan, g);
      TurnSpares(w, c, g, n);
      WalkSpares(w', plan, g, n);
    }
  }

  /** The turn of n itself. */
  lemma OwnTurn<A>(w: Walk<A>, c: Callback<A>, g: nat)
    requires w.rest != [] && Known(w) && Lawful(c) && Distinct(Order(w))
    ensures var n, w' := w.rest[0], TurnOn(w, c, g);
            var e := Looked(w.times[n], g);
            && n !in w'.rest
            && w'.fired == (if Ripe(w.times[n], g) then w.fired + [n] else w.fired)
            && (!Ripe(w.times[n], g) ==> n in w'.done && n in w'.times && w'.times[n] == e)
            && (Ripe(w.times[n], g) && c.period > 0 && Stop(n) !in c.actions ==>
                  n in w'.done && n in w'.times && w'.times[n] == Postponed(e, c.period, g))
            && (Ripe(w.times[n], g) && c.period == 0 ==> n !in Order(w'))
  {
    var n, v := w.rest[0], TakenOn(w, g);
    var v1 := v.(fired := v.fired + [n]);
    OrderParts(w);
    DistinctTail(w.rest);
    TakenOrder(w, g);
    assert n in v.done;
    CallDistinct(v1, c.actions, g);
    if Stop(n) !in c.actions { CallSpares(v1, c.actions, g, n); }
    DropOrder(CallOn(v1, c.actions, g), n);
  }

  /** What has become of alarm n, whose times were e, by the end of the tick, the i-th callback being the next. */
  ghost predicate Served<A>(r: Walk<A>, plan: seq<Callback<A>>, g: nat, i: nat, n: A, e: Entry)
    requires i <= |r.fired|
  {
    && (n in r.fired[i..] <==> Ripe(e, g))
    && (!Ripe(e, g) ==> n in r.done && n in r.times && r.times[n] == Looked(e, g))
    && (forall k | i <= k < |r.fired| && r.fired[k] == n && CallbackAt(plan, k).period > 0 ::
          n in r.done && n in r.times && r.times[n] == Postponed(Looked(e, g), CallbackAt(plan, k).period, g))
  }

  /**
   * An alarm of the list that no callback stops is called once if its time has
   * come and not at all otherwise; it stays listed unless its callback returns
   * zero; and its times are what that says, untouched by everybody else.
   */
  lemma {:induction false} WalkServes<A>(w: Walk<A>, plan: seq<Callback<A>>, g: nat, n: A)
    requires Known(w) && LawfulPlan(plan) && Distinct(Order(w)) && n in w.rest
    requires Unstopped(plan, |w.fired|, |WalkOn(w, plan, g).fired|, n)
    ensures w.fired <= WalkOn(w, plan, g).fired
    ensures Served(WalkOn(w, plan, g), plan, g, |w.fired|, n, w.times[n])
    decreases |w.rest|
  {
    var c, alarm := CallbackAt(plan, |w.fired|), w.rest[0];
    var w', r := TurnOn(w, c, g), WalkOn(w, plan, g);
    FiredGrows(w, plan, g);
    TurnDistinct(w, c, g);
    FiredGrows(w', plan, g);
    OwnTurn(w, c, g);
    if alarm == n {
      assert n !in r.fired[|w'.fired|..];
      if Ripe(w.times[n], g) { assert r.fired[|w.fired|] == n; }
      if n in w'.done { WalkSpares(w', plan, g, n); }
    } else {
      TurnSpares(w, c, g, n);
      WalkServes(w', plan, g, n);
      assert n in w.rest[1..];
      assert n in r.fired[|w.fired|..] <==> n in r.fired[|w'.fired|..];
    }
  }

  // ----- everybody stays set for the right clock

  ghost predicate OnTime(e: Entry, g: nat) {
    e.exact ==> Waits(e.timer, g, e.due)
  }

  ghost predicate AllOnTime<A>(ns: seq<A>, times: map<A, Entry>, g: nat) {
    forall j | 0 <= j < |ns| :: ns[j] in times && OnTime(times[ns[j]], g)
  }

  /** Those dealt with are set for what follows clock g, those to come still for what follows the clock before. */
  ghost predicate Timely<A>(w: Walk<A>, g: nat) {
    g > 0 && AllOnTime(w.added, w.times, g) && AllOnTime(w.done, w.times, g) && AllOnTime(w.rest, w.times, g - 1)
  }

  /** The same while the callback of an alarm in hand runs, whose times are e unless it has been stopped. */
  ghost predicate TimelyBut<A>(w: Walk<A>, g: nat, alarm: A, e: Entry) {
    && g > 0 && alarm !in w.rest && alarm in w.times
    && AllOnTime(w.added, w.times, g) && AllOnTime(w.rest, w.times, g - 1)
    && forall j | 0 <= j < |w.done| ::
         w.done[j] in w.times && if w.done[j] == alarm then w.times[alarm] == e else OnTime(w.times[w.done[j]], g)
  }

  lemma LookIsExact(e: Entry, g: nat)
    requires g > 0 && OnTime(e, g - 1)
    ensures e.exact ==> Ripe(e, g) == (e.due == g)
    ensures !Ripe(e, g) ==> OnTime(Looked(e, g), g)
    ensures Ripe(e, g) ==> forall p | 0 < p < WORD :: OnTime(Postponed(Looked(e, g), p, g), g)
  {
    if e.exact { TickIsExact(e.timer, g - 1, e.due); }
  }

  /** An alarm that its own callback started anew is put off from there. */
  lemma PostponedIsExact(e: Entry, p: nat, g: nat)
    requires OnTime(e, g) && 0 < p < WORD
    ensures OnTime(Postponed(e, p, g), g)
  {
  }

  lemma BegunIsExact(nticks: nat, g: nat)
    requires nticks < WORD
    ensures OnTime(Begun(nticks, g), g)
  {
    if nticks < WORD - 1 || Ticks(g) == WORD - 1 { ArmedWaits(g, nticks); }
  }

  lemma ActTimely<A>(w: Walk<A>, a: Action<A>, g: nat, alarm: A, e: Entry)
    requires TimelyBut(w, g, alarm, e) && (a.Start? ==> a.nticks < WORD)
    ensures TimelyBut(ActOn(w, a, g), g, alarm, e)
  {
    match a
    case Stop(x) =>
    case Start(x, nticks) => BegunIsExact(nticks, g);
  }

  lemma {:induction false} CallTimely<A>(w: Walk<A>, actions: seq<Action<A>>, g: nat, alarm: A, e: Entry)
    requires TimelyBut(w, g, alarm, e) && LawfulActions(actions)
    ensures TimelyBut(CallOn(w, actions, g), g, alarm, e)
    decreases |actions|
  {
    if actions != [] {
      ActTimely(w, actions[0], g, alarm, e);
      CallTimely(ActOn(w, actions[0], g), actions[1..], g, alarm, e);
    }
  }

  lemma FireTimely<A>(w: Walk<A>, alarm: A, c: Callback<A>, g: nat, e: Entry)
    requires Distinct(Order(w)) && TimelyBut(w, g, alarm, e) && Lawful(c)
    requires forall p | 0 < p < WORD :: OnTime(Postponed(e, p, g), g)
    ensures Timely(FireOn(w, alarm, c, g), g)
  {
    var v := CallOn(w, c.actions, g);
    CallTimely(w, c.actions, g, alarm, e);
    CallDistinct(w, c.actions, g);
    OrderParts(v);
    if c.period == 0 {
      WithoutMembers(v.done, alarm);
    } else if alarm in v.added {
      PostponedIsExact(v.times[alarm], c.period, g);
    }
  }

  lemma TurnTimely<A>(w: Walk<A>, c: Callback<A>, g: nat)
    requires w.rest != [] && Known(w) && Lawful(c) && Distinct(Order(w)) && Timely(w, g)
    ensures Timely(TurnOn(w, c, g), g)
  {
    var alarm, v := w.rest[0], TakenOn(w, g);
    var e := w.times[alarm];
    LookIsExact(e, g);
    OrderParts(w);
    DistinctTail(w.rest);
    TakenOrder(w, g);
    if Ripe(e, g) { FireTimely(v.(fired := v.fired + [alarm]), alarm, c, g, Looked(e, g)); }
  }

  lemma {:induction false} WalkTimely<A>(w: Walk<A>, plan: seq<Callback<A>>, g: nat)
    requires Known(w) && LawfulPlan(plan) && Distinct(Order(w)) && Timely(w, g)
    ensures Timely(WalkOn(w, plan, g), g) && Distinct(Order(WalkOn(w, plan, g)))
    decreases |w.rest|
  {
    if w.rest != [] {
      var c := CallbackAt(plan, |w.fired|);
      TurnDistinct(w, c, g);
      TurnTimely(w, c, g);
      WalkTimely(TurnOn(w, c, g), plan, g);
    }
  }

  // ----- the order of the list, and what is new in it

  /** The members of keep, in the order they have in s. */
  ghost function Only<A>(s: seq<A>, keep: set<A>): (r: seq<A>) {
    if s == [] then [] else (if s[0] in keep then [s[0]] else []) + Only(s[1..], keep)
  }

  lemma {:induction false} OnlyWithout<A>(s: seq<A>, x: A, keep: set<A>)
    requires x !in keep
    ensures Only(Without(s, x), keep) == Only(s, keep)
  {
    if s != [] && s[0] != x {
      OnlyWithout(s[1..], x, keep);
      assert Without(s, x)[1..] == Without(s[1..], x);
    }
  }

  lemma {:induction false} OnlyParts<A>(a: seq<A>, b: seq<A>, keep: set<A>)
    ensures Only(a + b, keep) == Only(a, keep) + Only(b, keep)
  {
    if a == [] {
      assert a + b == b;
    } else {
      assert (a + b)[1..] == a[1..] + b && (a + b)[0] == a[0];
      OnlyParts(a[1..], b, keep);
      Assoc(if a[0] in keep then [a[0]] else [], Only(a[1..], keep), Only(b, keep));
    }
  }

  lemma {:induction false} OnlyAll<A>(s: seq<A>, keep: set<A>)
    requires forall j | 0 <= j < |s| :: s[j] in keep
    ensures Only(s, keep) == s
  {
    if s != [] { OnlyAll(s[1..], keep); }
  }

  ghost function Standing<A>(w: Walk<A>, keep: set<A>): (r: seq<A>) {
    Only(w.done, keep) + Only(w.rest, keep)
  }

  lemma DropStands<A>(w: Walk<A>, x: A, keep: set<A>)
    requires x !in keep
    ensures Standing(Drop(w, x), keep) == Standing(w, keep)
  {
    OnlyWithout(w.done, x, keep);
    OnlyWithout(w.rest, x, keep);
  }

  ghost predicate StopsNone<A>(actions: seq<Action<A>>, keep: set<A>) {
    forall k | 0 <= k < |actions| :: actions[k].Stop? ==> actions[k].x !in keep
  }

  lemma {:induction false} CallStands<A>(w: Walk<A>, actions: seq<Action<A>>, g: nat, keep: set<A>)
    requires StopsNone(actions, keep) && LawfulActions(actions)
    ensures Standing(CallOn(w, actions, g), keep) == Standing(w, keep)
    decreases |actions|
  {
    if actions != [] {
      if actions[0].Stop? { DropStands(w, actions[0].x, keep); }
      CallStands(ActOn(w, actions[0], g), actions[1..], g, keep);
    }
  }

  lemma TurnStands<A>(w: Walk<A>, c: Callback<A>, g: nat, keep: set<A>)
    requires w.rest != [] && Known(w) && Lawful(c)
    requires Ripe(w.times[w.rest[0]], g) ==> StopsNone(c.actions, keep) && (c.period == 0 ==> w.rest[0] !in keep)
    ensures Standing(TurnOn(w, c, g), keep) == Standing(w, keep)
  {
    var alarm, v := w.rest[0], TakenOn(w, g);
    OnlyParts(w.done, [alarm], keep);
    Assoc(Only(w.done, keep), Only([alarm], keep), Only(w.rest[1..], keep));
    var v1 := v.(fired := v.fired + [alarm]);
    if Ripe(w.times[alarm], g) {
      CallStands(v1, c.actions, g, keep);
      if c.period == 0 { DropStands(CallOn(v1, c.actions, g), alarm, keep); }
    }
  }

  /** The callbacks from the i-th on stop nobody in keep and retire nobody in keep. */
  ghost predicate Spared<A>(plan: seq<Callback<A>>, i: nat, fired: seq<A>, keep: set<A>) {
    forall k | i <= k < |fired| ::
      StopsNone(CallbackAt(plan, k).actions, keep) && (CallbackAt(plan, k).period == 0 ==> fired[k] !in keep)
  }

  /** Alarms that are neither stopped nor retired stand in the order they stood in. */
  lemma {:induction false} WalkStands<A>(w: Walk<A>, plan: seq<Callback<A>>, g: nat, keep: set<A>)
    requires Known(w) && LawfulPlan(plan) && Distinct(Order(w))
    requires Spared(plan, |w.fired|, WalkOn(w, plan, g).fired, keep)
    ensures Only(WalkOn(w, plan, g).done, keep) == Standing(w, keep)
    decreases |w.rest|
  {
    if w.rest != [] {
      var c := CallbackAt(plan, |w.fired|);
      var w' := TurnOn(w, c, g);
      TurnDistinct(w, c, g);
      FiredGrows(w', plan, g);
      OwnTurn(w, c, g);
      if Ripe(w.times[w.rest[0]], g) {
        assert WalkOn(w, plan, g).fired[|w.fired|] == w'.fired[|w.fired|] == w.rest[0];
      }
      TurnStands(w, c, g, keep);
      WalkStands(w', plan, g, keep);
    }
  }

  /** No callback from the i-th up to the k-th starts n. */
  ghost predicate StartsNot<A>(actions: seq<Action<A>>, n: A) {
    forall k | 0 <= k < |actions| :: actions[k].Start? ==> actions[k].x != n
  }

  ghost predicate Unstarted<A>(plan: seq<Callback<A>>, i: nat, k: nat, n: A) {
    forall m | i <= m < k :: StartsNot(CallbackAt(plan, m).actions, n)
  }

  /** n is among the new only if it was before, and passed or to come only if it was one of these. */
  ghost predicate NoWayIn<A>(w: Walk<A>, w': Walk<A>, n: A) {
    && (n in w'.added ==> n in w.added)
    && (n in w'.done ==> n in w.done || n in w.rest)
    && (n in w'.rest ==> n in w.rest)
  }

  lemma {:induction false} CallBringsNoOther<A>(w: Walk<A>, actions: seq<Action<A>>, g: nat, n: A)
    requires StartsNot(actions, n) && LawfulActions(actions)
    ensures NoWayIn(w, CallOn(w, actions, g), n)
    decreases |actions|
  {
    if actions != [] {
      CallBringsNoOther(ActOn(w, actions[0], g), actions[1..], g, n);
    }
  }

  lemma TurnBringsNoOther<A>(w: Walk<A>, c: Callback<A>, g: nat, n: A)
    requires w.rest != [] && Known(w) && Lawful(c)
    requires Ripe(w.times[w.rest[0]], g) ==> StartsNot(c.actions, n)
    ensures NoWayIn(w, TurnOn(w, c, g), n)
  {
    var alarm, v := w.rest[0], TakenOn(w, g);
    if Ripe(w.times[alarm], g) { CallBringsNoOther(v.(fired := v.fired + [alarm]), c.actions, g, n); }
  }

  /** Only a start brings an alarm in. */
  lemma {:induction false} WalkBringsNoOther<A>(w: Walk<A>, plan: seq<Callback<A>>, g: nat, n: A)
    requires Known(w) && LawfulPlan(plan) && Distinct(Order(w))
    requires Unstarted(plan, |w.fired|, |WalkOn(w, plan, g).fired|, n)
    ensures NoWayIn(w, WalkOn(w, plan, g), n)
    decreases |w.rest|
  {
    if w.rest != [] {
      var c := CallbackAt(plan, |w.fired|);
      var w' := TurnOn(w, c, g);
      TurnDistinct(w, c, g);
      FiredGrows(w', plan, g);
      TurnBringsNoOther(w, c, g, n);
      WalkBringsNoOther(w', plan, g, n);
    }
  }

  /** An alarm whose callback returned zero is out, unless a later callback started it again. */
  lemma {:induction false} WalkRetires<A>(w: Walk<A>, plan: seq<Callback<A>>, g: nat, k: nat)
    requires Known(w) && LawfulPlan(plan) && Distinct(Order(w))
    requires |w.fired| <= k < |WalkOn(w, plan, g).fired| && CallbackAt(plan, k).period == 0
    requires Unstarted(plan, k + 1, |WalkOn(w, plan, g).fired|, WalkOn(w, plan, g).fired[k])
    ensures WalkOn(w, plan, g).fired[k] !in Order(WalkOn(w, plan, g))
    decreases |w.rest|
  {
    var c, r := CallbackAt(plan, |w.fired|), WalkOn(w, plan, g);
    var w' := TurnOn(w, c, g);
    TurnDistinct(w, c, g);
    FiredGrows(w', plan, g);
    OwnTurn(w, c, g);
    if k == |w.fired| && w'.fired != w.fired {
      assert r.fired[k] == w'.fired[k] == w.rest[0];
      WalkBringsNoOther(w', plan, g, r.fired[k]);
    } else {
      WalkRetires(w', plan, g, k);
    }
  }
}
