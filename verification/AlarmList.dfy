/** alt_llist: an intrusive circular doubly linked list, its order given by a ghost sequence. */
module LinkedRing {

  import opened AlarmTime
  import opened Removal
  import opened Seqs

  /** alt_alarm: the links, then the timer; an alarm never started has no links. */
  class Node {
    var next: Node?
    var prev: Node?
    var timer: Timer

    constructor ()
      ensures next == null && prev == null
    {
      next, prev, timer := null, null, Timer(0, false);
    }
  }

  /** The i-th node and the one behind it, the first behind the last, point at each other. */
  ghost predicate Joined(ring: seq<Node>, i: nat)
    requires i < |ring|
    reads ring`next, ring`prev
  {
    ring[i].next == ring[Succ(i, |ring|)] && ring[Succ(i, |ring|)].prev == ring[i]
  }

  /** The nodes of ring are linked in its order, both ways, the last to the first. */
  ghost predicate Linked(ring: seq<Node>)
    reads ring`next, ring`prev
  {
    ring != [] && Distinct(ring) && forall i | 0 <= i < |ring| :: Joined(ring, i)
  }

  /** alt_llist_insert: entry becomes the first element behind the head. */
  method Insert(list: Node, entry: Node, ghost ring: seq<Node>)
    requires Linked(ring) && ring[0] == list && entry !in ring && list.next != null
    modifies entry`next, entry`prev, list`next, list.next`prev
    ensures Linked([list, entry] + ring[1..])
  {
    assert Joined(ring, 0);
    entry.prev := list;
    entry.next := list.next;
    list.next.prev := entry;
    list.next := entry;
    ghost var r := [list, entry] + ring[1..];
    forall i | 0 <= i < |r| ensures Joined(r, i) {
      if i >= 2 { assert r[i] == ring[i - 1] && old(Joined(ring, i - 1)); }
    }
  }

  /** alt_llist_remove: harmless on an entry that is out already. */
  method Remove(entry: Node, ghost ring: seq<Node>)
    requires Linked(ring) && entry != ring[0]
    requires entry.next != null && entry.prev != null
    requires entry in ring || (entry.next == entry && entry.prev == entry)
    modifies entry`next, entry`prev, entry.next`prev, entry.prev`next
    ensures Linked(Without(ring, entry))
    ensures entry.next == entry && entry.prev == entry
  {
    ghost var i: nat := if entry in ring then Place(ring, entry) else 0;
    if entry in ring { assert Joined(ring, i - 1) && Joined(ring, i); }
    Unlink(entry);
    if entry in ring {
      forall k | 0 <= k < |ring| && k != i - 1 && k != i ensures Joined(ring, k) { assert old(Joined(ring, k)); }
      WithoutAt(ring, i);
      Spliced(ring, i);
    } else {
      WithoutAbsent(ring, entry);
    }
  }

  /** The four assignments: its neighbours point past the entry, and it points at itself. */
  method Unlink(entry: Node)
    requires entry.next != null && entry.prev != null
    modifies entry`next, entry`prev, entry.next`prev, entry.prev`next
    ensures entry.next == entry && entry.prev == entry
    ensures old(entry.next) != entry && old(entry.prev) != entry ==>
              old(entry.next).prev == old(entry.prev) && old(entry.prev).next == old(entry.next)
  {
    entry.next.prev := entry.prev;
    entry.prev.next := entry.next;
    entry.prev := entry;
    entry.next := entry;
  }

  ghost function Place(ring: seq<Node>, x: Node): (i: nat)
    requires x in ring
    ensures i < |ring| && ring[i] == x
  {
    if ring[0] == x then 0 else 1 + Place(ring[1..], x)
  }

  lemma Neighbours(ring: seq<Node>, x: Node)
    requires Linked(ring) && x in ring
    ensures x.next != null && x.next in ring && x.prev != null && x.prev in ring
    ensures x.next == x <==> |ring| == 1
  {
    var i := Place(ring, x);
    var before := if i > 0 then i - 1 else |ring| - 1;
    assert Joined(ring, i) && Joined(ring, before);
  }

  lemma Spliced(ring: seq<Node>, i: nat)
    requires Distinct(ring) && 0 < i < |ring|
    requires forall k | 0 <= k < |ring| && k != i - 1 && k != i :: Joined(ring, k)
    requires ring[i - 1].next == ring[Succ(i, |ring|)] && ring[Succ(i, |ring|)].prev == ring[i - 1]
    ensures Linked(ring[..i] + ring[i + 1..])
  {
    var r := ring[..i] + ring[i + 1..];
    forall k | 0 <= k < |r| ensures Joined(r, k) {
      var was := if k < i then k else k + 1;
      assert r[k] == ring[was];
      if k != i - 1 { assert Joined(ring, was) && r[Succ(k, |r|)] == ring[Succ(was, |ring|)]; }
      else { assert r[Succ(k, |r|)] == ring[Succ(i, |ring|)]; }
    }
  }
}

/** The list of registered alarms, walked once a tick while callbacks change it. */
module AlarmList {
  import opened Integers
  import opened AlarmTime
  import opened AlarmWalk
  import Runs = AlarmRuns
  import opened LinkedRing
  import opened Removal
  import opened Seqs

  datatype StartResult = Started | InvalidAlarm | NoClock

  /** The element at the front of a stretch, or the head behind it. */
  function Front(rest: seq<Node>, head: Node): (r: Node) {
    if rest == [] then head else rest[0]
  }

  /** In no list: never linked, or linked to itself. */
  ghost predicate Loose(n: Node)
    reads n`next, n`prev
  {
    (n.next == null && n.prev == null) || (n.next == n && n.prev == n)
  }

  ghost predicate InPool(actions: seq<Action<Node>>, pool: set<Node>) {
    forall k | 0 <= k < |actions| :: actions[k].x in pool
  }

  /** An action on the walk, as the list and the times show it. */
  lemma ActList(w: Walk<Node>, a: Action<Node>, clock: nat, head: Node)
    requires Distinct(Order(w)) && (a.Start? ==> a.nticks < WORD) && head !in Order(w) && a.x != head
    ensures var w' := ActOn(w, a, clock);
            && Front(w'.rest, head) == Front(w.rest, head)
            && (a.Stop? && a.x == Front(w.rest, head) ==> w' == w)
            && (a.Stop? && a.x != Front(w.rest, head) ==> Order(w') == Without(Order(w), a.x) && w'.times == w.times)
            && (a.Start? ==> Order(w') == if a.x in Order(w) then Order(w) else [a.x] + Order(w))
            && (a.Start? ==> w'.times == if a.x in Order(w) then w.times else w.times[a.x := Begun(a.nticks, clock)])
  {
    ActOrder(w, a, clock);
  }

  class AlarmSystem {
    const head: Node
    var tickRate: nat
    var nticks: nat
    ghost var clock: nat
    /** the registered alarms in order, and every alarm's times */
    ghost var list: seq<Node>
    ghost var times: map<Node, Entry>
    /** every alarm structure of the program */
    ghost const pool: set<Node>

    /** The list is linked in order behind the head, and what is not in it is out of every list. */
    ghost predicate Ring()
      reads this`list, head`next, head`prev, pool`next, pool`prev
    {
      && head !in pool && (forall n | n in list :: n in pool)
      && Linked([head] + list)
      && (forall n {:trigger Loose(n)} | n in pool && n !in list :: Loose(n))
    }

    /** The counter is the clock's low word, and every alarm's fields are on record. */
    ghost predicate Clocks()
      reads this`times, this`nticks, this`clock, pool`timer
    {
      && times.Keys == pool && nticks == Ticks(clock)
      && forall n | n in pool :: n.timer == times[n].timer
    }

    ghost predicate Structure()
      reads this`list, this`times, this`nticks, this`clock, head`next, head`prev, pool`next, pool`prev, pool`timer
    {
      Ring() && Clocks()
    }

    ghost function State(): (r: Runs.State<Node>)
      reads this`list, this`times, this`clock
    {
      Runs.State(list, times, clock)
    }

    ghost predicate Inv()
      reads this`list, this`times, this`nticks, this`clock, head`next, head`prev, pool`next, pool`prev, pool`timer
    {
      Structure() && Runs.Good(State())
    }

    /** The walk stands at w, with next in its hand for the coming turn. */
    ghost predicate At(w: Walk<Node>, next: Node)
      reads this`list, this`times, this`nticks, this`clock, head`next, head`prev, pool`next, pool`prev, pool`timer
    {
      Structure() && list == Order(w) && times == w.times && next == Front(w.rest, head)
    }

    constructor (alarms: set<Node>)
      requires forall n | n in alarms :: n.next == null && n.prev == null
      ensures Inv() && list == [] && pool == alarms && clock == 0 && tickRate == 0 && fresh(head)
    {
      var h := new Node();
      head := h;
      nticks, clock, tickRate := 0, 0, 0;
      list, pool := [], alarms;
      times := map n | n in alarms :: Entry(n.timer, 0, false);
      new;
      head.next := head;
      head.prev := head;
    }

    /** alt_sysclk_init: the first system clock driver sets the rate. */
    method SysclkInit(rate: nat) returns (ok: bool)
      modifies this`tickRate
      ensures ok == (old(tickRate) == 0) && tickRate == if old(tickRate) == 0 then rate else old(tickRate)
    {
      ok := tickRate == 0;
      if ok { tickRate := rate; }
    }

    lemma Listed(alarm: Node)
      requires Ring() && alarm in pool
      ensures alarm in list ==> alarm.next != null && alarm.next != alarm && alarm.prev != null
      ensures alarm !in list <==> alarm.next == null || alarm.next == alarm
      ensures alarm !in list ==> Loose(alarm)
      ensures Distinct(list)
    {
      var ring := [head] + list;
      DistinctParts([head], list);
      assert alarm !in list ==> Loose(alarm);
      if alarm in list {
        assert alarm in ring;
        Neighbours(ring, alarm);
      }
    }

    /** alt_llist_insert at the head of the list. */
    method Register(alarm: Node)
      requires Ring() && alarm in pool && alarm !in list
      modifies pool`next, pool`prev, head`next, head`prev, this`list
      ensures Ring() && list == [alarm] + old(list)
      ensures forall n | n in pool && n !in old(list) && n != alarm :: n.next == old(n.next)
    {
      ghost var ring := [head] + list;
      Neighbours(ring, head);
      Insert(head, alarm, ring);
      assert [head, alarm] + ring[1..] == [head] + ([alarm] + list);
      ghost var was := list;
      list := [alarm] + list;
      forall n | n in pool && n !in list ensures Loose(n) { assert n !in was && old(Loose(n)); }
    }

    /** alt_alarm_stop */
    method StopAlarm(alarm: Node)
      requires Ring() && alarm in pool && alarm.next != null
      modifies pool`next, pool`prev, head`next, head`prev, this`list
      ensures Ring() && list == Without(old(list), alarm) && alarm !in list && alarm.next == alarm
      ensures forall n | n in pool && n !in old(list) && n != alarm :: n.next == old(n.next)
    {
      ghost var was := list;
      Listed(alarm);
      Detach(alarm);
      WithoutMembers(list, alarm);
      list := Without(list, alarm);
      forall n | n in pool && n !in list ensures Loose(n) {
        if n != alarm { assert n !in was && old(Loose(n)); }
      }
    }

    /** alt_llist_remove; what is neither the alarm nor listed keeps its links. */
    method Detach(alarm: Node)
      requires Ring() && alarm in pool && alarm.next != null
      modifies pool`next, pool`prev, head`next, head`prev
      ensures Linked([head] + Without(list, alarm)) && alarm.next == alarm && alarm.prev == alarm
      ensures forall n | n in pool && n !in list && n != alarm :: n.next == old(n.next) && n.prev == old(n.prev)
    {
      ghost var ring := [head] + list;
      Listed(alarm);
      if alarm in list { Neighbours(ring, alarm); }
      Remove(alarm, ring);
      assert ring[1..] == list;
      assert Without(ring, alarm) == [head] + Without(list, alarm);
    }

    /** alt_alarm_start. Starting a listed alarm again is the caller's error. */
    method StartAlarm(alarm: Node?, n: nat) returns (r: StartResult)
      requires Structure() && n < WORD
      requires tickRate != 0 && alarm != null ==> alarm in pool && alarm !in list
      modifies pool`next, pool`prev, head`next, head`prev, this`list, this`times, pool`timer
      ensures Structure()
      ensures r == if tickRate == 0 then NoClock else if alarm == null then InvalidAlarm else Started
      ensures r == Started ==>
                alarm != null && list == [alarm] + old(list) && times == old(times)[alarm := Begun(n, clock)]
      ensures r != Started ==> list == old(list) && times == old(times)
      ensures forall n | n in pool && n !in old(list) && n != alarm :: n.next == old(n.next)
    {
      if tickRate == 0 { return NoClock; }
      if alarm == null { return InvalidAlarm; }
      alarm.timer := Armed(n, nticks);
      times := times[alarm := Begun(n, clock)];
      Register(alarm);
      return Started;
    }

    /** A start or stop by anybody: an alarm never started is not unlinked, a listed one is not started. */
    method Obey(a: Action<Node>, ghost hand: Node?)
      requires Structure() && tickRate != 0 && a.x in pool && (a.Start? ==> a.nticks < WORD)
      requires hand != null ==> hand in pool && hand.next != null
      modifies pool, head`next, head`prev, this`list, this`times
      ensures Structure() && (hand != null ==> hand.next != null)
      ensures a.Stop? ==> list == Without(old(list), a.x) && times == old(times)
      ensures a.Start? ==> list == if a.x in old(list) then old(list) else [a.x] + old(list)
      ensures a.Start? ==> times == if a.x in old(list) then old(times) else old(times)[a.x := Begun(a.nticks, clock)]
    {
      Listed(a.x);
      if hand != null {
        var h: Node := hand;
        Listed(h);
        if a.Stop? && h != a.x { WithoutOther(list, a.x, h); }
      }
      if a.Stop? {
        if a.x.next != null { StopAlarm(a.x); } else { WithoutAbsent(list, a.x); }
      } else if a.x.next == null || a.x.next == a.x {
        var r := StartAlarm(a.x, a.nticks);
      }
      if hand != null { Listed(hand); }
    }

    /** One action of a running callback. Unlinking the walk's next alarm is not taken. */
    method Act(a: Action<Node>, next: Node, ghost hand: Node, ghost w: Walk<Node>)
      requires hand in pool && hand.next != null
      requires At(w, next) && tickRate != 0 && a.x in pool && (a.Start? ==> a.nticks < WORD)
      modifies pool, head`next, head`prev, this`list, this`times
      ensures At(ActOn(w, a, clock), next)
      ensures hand.next != null
    {
      Listed(a.x);
      ActList(w, a, clock, head);
      if a.Start? || a.x != next { Obey(a, hand); }
    }

    /** The callback of the alarm in hand. */
    method Call(actions: seq<Action<Node>>, next: Node, ghost hand: Node, ghost w: Walk<Node>)
      requires hand in pool && hand.next != null
      requires At(w, next) && tickRate != 0 && InPool(actions, pool) && LawfulActions(actions)
      modifies pool, head`next, head`prev, this`list, this`times
      ensures At(CallOn(w, actions, clock), next)
      ensures hand.next != null
    {
      ghost var v := w;
      for k := 0 to |actions|
        invariant At(v, next) && CallOn(v, actions[k..], clock) == CallOn(w, actions, clock)
        invariant hand.next != null
      {
        assert actions[k..][0] == actions[k] && actions[k..][1..] == actions[k + 1..];
        Act(actions[k], next, hand, v);
        v := ActOn(v, actions[k], clock);
      }
    }

    /** The period has expired: call back, then retire the alarm or set the time of the next call. */
    method Fire(alarm: Node, c: Callback<Node>, next: Node, ghost w: Walk<Node>)
      requires At(w, next) && tickRate != 0 && InPool(c.actions, pool) && Lawful(c)
      requires alarm in pool && alarm.next != null && alarm !in w.rest
      modifies pool, head`next, head`prev, this`list, this`times
      ensures At(FireOn(w, alarm, c, clock), next)
    {
      Call(c.actions, next, alarm, w);
      ghost var v := CallOn(w, c.actions, clock);
      if c.period == 0 {
        Retire(alarm, next, v);
      } else {
        Rearm(alarm, c.period, next, v);
      }
    }

    method Retire(alarm: Node, next: Node, ghost w: Walk<Node>)
      requires At(w, next) && alarm in pool && alarm.next != null && alarm !in w.rest
      modifies pool`next, pool`prev, head`next, head`prev, this`list
      ensures At(Drop(w, alarm), next)
    {
      Listed(alarm);
      DropOrder(w, alarm);
      WithoutAbsent(w.rest, alarm);
      StopAlarm(alarm);
    }

    method Rearm(alarm: Node, period: nat, next: Node, ghost w: Walk<Node>)
      requires At(w, next) && alarm in pool
      modifies alarm`timer, this`times
      ensures At(w.(times := old(times)[alarm := Postponed(old(times)[alarm], period, clock)]), next)
    {
      alarm.timer := Rearmed(alarm.timer, nticks, period);
      times := times[alarm := Postponed(times[alarm], period, clock)];
    }

    /** Look at the next alarm: where it leads, and the flag cleared if the counter has just rolled over. */
    method TakeInHand(alarm: Node, ghost w: Walk<Node>) returns (next: Node)
      requires At(w, alarm) && w.rest != []
      modifies alarm`timer, this`times
      ensures Known(w) && At(TakenOn(w, clock), next)
      ensures alarm in pool && alarm.next != null && alarm !in w.rest[1..]
      ensures Expired(alarm.timer, nticks) == Ripe(w.times[alarm], clock)
    {
      NextInRing(w);
      next := alarm.next;
      TakenOrder(w, clock);
      alarm.timer := Cleared(alarm.timer, nticks);
      times := times[alarm := Looked(times[alarm], clock)];
    }

    lemma NextInRing(w: Walk<Node>)
      requires At(w, Front(w.rest, head)) && w.rest != []
      ensures var alarm := w.rest[0];
              && Known(w) && alarm in pool && alarm in list && alarm !in w.rest[1..]
              && alarm.next == Front(w.rest[1..], head)
    {
      var ring, i := [head] + list, 1 + |w.added| + |w.done|;
      Listed(w.rest[0]);
      OrderParts(w);
      DistinctTail(w.rest);
      forall j | 0 <= j < |w.rest| ensures w.rest[j] in w.times { assert list[|w.added| + |w.done| + j] == w.rest[j]; }
      assert ring[i] == w.rest[0] && Joined(ring, i);
      if |w.rest| > 1 { assert ring[i + 1] == w.rest[1]; }
    }

    /** One turn of the walk: alarm is in hand, next is saved before anything may change. */
    method Visit(alarm: Node, c: Callback<Node>, ghost w: Walk<Node>) returns (next: Node, fired: bool)
      requires At(w, alarm) && w.rest != [] && tickRate != 0 && InPool(c.actions, pool) && Lawful(c)
      modifies pool, head`next, head`prev, this`list, this`times
      ensures Known(w) && At(TurnOn(w, c, clock), next)
      ensures TurnOn(w, c, clock).fired == if fired then w.fired + [alarm] else w.fired
    {
      next := TakeInHand(alarm, w);
      ghost var v := TakenOn(w, clock);
      fired := Expired(alarm.timer, nticks);
      if fired {
        Fire(alarm, c, next, v.(fired := v.fired + [alarm]));
      }
    }

    /** A start or stop by the foreground, with interrupts off. */
    method Foreground(a: Action<Node>)
      requires Inv() && tickRate != 0 && a.x in pool && (a.Start? ==> a.nticks < WORD)
      modifies pool, head`next, head`prev, this`list, this`times
      ensures Inv() && State() == Runs.After(old(State()), Runs.Do(a))
    {
      ghost var after := Runs.After(State(), Runs.Do(a));
      Runs.AfterDo(State(), a);
      Obey(a, null);
      assert State() == after;
    }

    /** What happens next. */
    method Play(ev: Runs.Event<Node>)
      requires Inv() && tickRate != 0 && Runs.LawfulEvent(ev) && Within(ev, pool)
      modifies pool, head`next, head`prev, this`list, this`times, this`nticks, this`clock
      ensures Inv() && State() == Runs.After(old(State()), ev)
    {
      match ev
      case Tick(plan) => var fired := Tick(plan);
      case Do(a) => Foreground(a);
    }

    /** update the tick counter */
    method CountTick()
      requires Structure()
      modifies this`nticks, this`clock
      ensures Structure() && clock == old(clock) + 1
    {
      nticks := (nticks + 1) % WORD;
      clock := clock + 1;
    }

    /**
     * alt_tick. The k-th callback of the tick does what plan[k] says. The
     * alarms called, the list and everybody's times are those of AlarmWalk's
     * tick, whose properties AlarmRuns proves.
     */
    method Tick(plan: seq<Callback<Node>>) returns (fired: seq<Node>)
      requires Inv() && tickRate != 0 && LawfulPlan(plan)
      requires forall k | 0 <= k < |plan| :: InPool(plan[k].actions, pool)
      modifies pool, head`next, head`prev, this`list, this`times, this`nticks, this`clock
      ensures Inv() && clock == old(clock) + 1
      ensures var w := Runs.Ticked(old(State()), plan);
              fired == w.fired && list == Order(w) && times == w.times
    {
      ghost var g, w, r := Runs.Foreseen(State(), plan);
      var first := Begin(w);
      fired := WalkOver(first, plan, w, r, g);
    }

    /** The first alarm is saved, then the tick is counted. */
    method Begin(ghost w: Walk<Node>) returns (first: Node)
      requires Structure() && w == Opening(list, times)
      modifies this`nticks, this`clock
      ensures At(w, first) && Known(w) && clock == old(clock) + 1
    {
      FirstInRing();
      first := head.next;
      CountTick();
    }

    lemma FirstInRing()
      requires Ring()
      ensures head.next == Front(list, head)
    {
      assert Joined([head] + list, 0);
    }

    /** The loop of alt_tick. */
    method WalkOver(first: Node, plan: seq<Callback<Node>>, ghost w: Walk<Node>, ghost r: Walk<Node>, ghost g: nat)
      returns (fired: seq<Node>)
      requires At(w, first) && w.fired == [] && Known(w) && tickRate != 0 && LawfulPlan(plan)
      requires forall k | 0 <= k < |plan| :: InPool(plan[k].actions, pool)
      requires g == clock && r == WalkOn(w, plan, g) && Runs.Good(Runs.State(Order(r), r.times, g))
      modifies pool, head`next, head`prev, this`list, this`times
      ensures Inv() && list == Order(r) && times == r.times && fired == r.fired
    {
      var alarm := first;
      fired := [];
      ghost var v := w;
      while alarm != head
        invariant At(v, alarm) && Known(v) && fired == v.fired
        invariant WalkOn(v, plan, g) == r
        decreases |v.rest|
      {
        var c, called := CallbackAt(plan, |fired|), false;
        ghost var u := TurnOn(v, c, g);
        var visited := alarm;
        alarm, called := Visit(alarm, c, v);
        if called { fired := fired + [visited]; }
        v := u;
      }
      NotTheHead(v);
      assert State() == Runs.State(Order(r), r.times, g);
    }

    lemma NotTheHead(w: Walk<Node>)
      requires At(w, Front(w.rest, head))
      ensures w.rest != [] ==> Front(w.rest, head) != head
    {
      if w.rest != [] { assert list[|w.added| + |w.done|] == w.rest[0]; }
    }
  }

  // ----- whole runs

  ghost predicate Within(ev: Runs.Event<Node>, pool: set<Node>) {
    match ev
    case Tick(plan) => forall k | 0 <= k < |plan| :: InPool(plan[k].actions, pool)
    case Do(a) => a.x in pool
  }

  /** From an empty list and a system clock just started: any ticks, and any starts and stops between them. */
  method Session(alarms: set<Node>, rate: nat, evs: seq<Runs.Event<Node>>)
    returns (system: AlarmSystem, ghost s: Runs.State<Node>)
    requires rate > 0 && Runs.LawfulRun(evs) && forall k | 0 <= k < |evs| :: Within(evs[k], alarms)
    requires forall n | n in alarms :: n.next == null && n.prev == null
    modifies alarms
    ensures system.Inv() && s.list == [] && s.clock == 0 && Runs.Good(s)
    ensures system.State() == Runs.AfterAll(s, evs)
  {
    system := new AlarmSystem(alarms);
    s := system.State();
    var ok := system.SysclkInit(rate);
    for k := 0 to |evs|
      invariant system.Inv() && system.tickRate != 0 && system.pool == alarms && fresh(system) && fresh(system.head)
      invariant Runs.AfterAll(system.State(), evs[k..]) == Runs.AfterAll(s, evs)
    {
      Runs.FirstOf(system.State(), evs[k..]);
      assert evs[k..][0] == evs[k] && evs[k..][1..] == evs[k + 1..];
      system.Play(evs[k]);
    }
  }
}
