/**
 * What happens to the driver's rings, step by step: interrupts and timeouts,
 * which the world brings, and the bytes that readers take and writers give.
 */
module UartWorld {
  import opened Integers
  import opened Rings
  import opened Seqs

  const INT_MAX: nat := 0x7FFF_FFFF

  /** A read of the data register: RVALID and RAVAIL clear, or a byte and whether RAVAIL counts more. */
  datatype DataReg = Empty | Char(data: Byte, more: bool)

  /** One turn of the interrupt routine: the control register, and what reads of the data register will give. */
  datatype Round = Round(ri: bool, wi: bool, space: nat, chars: seq<DataReg>)

  datatype Event = Interrupt(rounds: seq<Round>) | OneSecond(ac: bool)

  /** The i-th read of the data register; a device with nothing to give answers Empty. */
  function Nth(chars: seq<DataReg>, i: nat): (r: DataReg) {
    if i < |chars| then chars[i] else Empty
  }

  /** The bytes among the first n reads. */
  function Yielded(chars: seq<DataReg>, n: nat): (bs: seq<Byte>) {
    if n == 0 then []
    else if Nth(chars, n - 1).Empty? then Yielded(chars, n - 1)
    else Yielded(chars, n - 1) + [Nth(chars, n - 1).data]
  }

  /** after is before with the bytes of the first n reads behind it. */
  ghost predicate Extended(before: seq<Byte>, after: seq<Byte>, chars: seq<DataReg>, n: nat) {
    after == before + Yielded(chars, n)
  }

  lemma ExtendStep(before: seq<Byte>, chars: seq<DataReg>, n: nat)
    requires n > 0 && Nth(chars, n - 1).Char?
    ensures Extended(before, (before + Yielded(chars, n - 1)) + [Nth(chars, n - 1).data], chars, n)
  {
  }

  /** Whether the last of n reads says more bytes wait; before any read the routine takes it that they do. */
  predicate MoreAfter(chars: seq<DataReg>, n: nat) {
    n == 0 || (Nth(chars, n - 1).Char? && Nth(chars, n - 1).more)
  }

  predicate Pending(round: Round) { round.ri || round.wi }

  /** The turns an interrupt takes, of which i are over: until the control register shows nothing to do. */
  function Turns(rounds: seq<Round>, i: nat := 0): (n: nat)
    requires i <= |rounds|
    ensures i <= n <= |rounds| && (n < |rounds| ==> !Pending(rounds[n]))
    ensures forall k | i <= k < n :: Pending(rounds[k])
    decreases |rounds| - i
  {
    if i == |rounds| || !Pending(rounds[i]) then i else Turns(rounds, i + 1)
  }

  /** The bytes that the first turns yield, the i-th of them reading the data register counts[i] times. */
  function Gained(rounds: seq<Round>, counts: seq<nat>): (bs: seq<Byte>)
    requires |counts| <= |rounds|
  {
    if counts == [] then []
    else
      var i := |counts| - 1;
      Gained(rounds, counts[..i]) + Yielded(rounds[i].chars, counts[i])
  }

  /** after is before with what the turns yield behind it. */
  ghost predicate GainedBehind(before: seq<Byte>, after: seq<Byte>, rounds: seq<Round>, counts: seq<nat>) {
    |counts| <= |rounds| && after == before + Gained(rounds, counts)
  }

  lemma GainMore(before: seq<Byte>, mid: seq<Byte>, after: seq<Byte>, rounds: seq<Round>, counts: seq<nat>, n: nat)
    requires |counts| < |rounds|
    requires GainedBehind(before, mid, rounds, counts) && Extended(mid, after, rounds[|counts|].chars, n)
    ensures GainedBehind(before, after, rounds, counts + [n])
  {
    assert (counts + [n])[..|counts|] == counts;
    Assoc(before, Gained(rounds, counts), Yielded(rounds[|counts|].chars, n));
  }

  /** A turn that reads ends on an empty device or on a full ring; one that does not read nothing. */
  predicate Drains(round: Round, n: nat, full: bool) {
    if round.ri then full || (n > 0 && Nth(round.chars, n - 1).Empty?) else n == 0
  }

  /** So do all of these turns, when the ring held had bytes before them. */
  ghost predicate AllDrain(had: nat, rounds: seq<Round>, counts: seq<nat>) {
    |counts| <= |rounds| && (counts != [] ==>
      var i := |counts| - 1;
      Drains(rounds[i], counts[i], had + |Gained(rounds, counts)| == BUF_LEN - 1) && AllDrain(had, rounds, counts[..i]))
  }

  lemma DrainMore(had: nat, rounds: seq<Round>, counts: seq<nat>, n: nat)
    requires AllDrain(had, rounds, counts) && |counts| < |rounds|
    requires Drains(rounds[|counts|], n, had + |Gained(rounds, counts + [n])| == BUF_LEN - 1)
    ensures AllDrain(had, rounds, counts + [n])
  {
    assert (counts + [n])[..|counts|] == counts;
  }

  /** How many of had bytes are left to transmit after a turn, and after the first n turns. */
  function LeftBy(had: nat, round: Round): (left: nat)
    ensures left <= had
  {
    if round.wi then had - Min(round.space, had) else had
  }

  function Left(had: nat, rounds: seq<Round>, n: nat): (left: nat)
    requires n <= |rounds|
    ensures left <= had
  {
    if n == 0 then had else LeftBy(Left(had, rounds, n - 1), rounds[n - 1])
  }

  /** What an interrupt has done after |counts| turns: to the bytes popped, the receive ring, the transmit ring. */
  ghost predicate TurnsTaken(rounds: seq<Round>, counts: seq<nat>, before: seq<Byte>, after: seq<Byte>,
                             ring: seq<Byte>, ring': seq<Byte>, had: nat, left: nat)
  {
    && GainedBehind(before, after, rounds, counts) && GainedBehind(ring, ring', rounds, counts)
    && AllDrain(|ring|, rounds, counts)
    && left == Left(had, rounds, |counts|)
  }

  lemma OneTurnMore(rounds: seq<Round>, counts: seq<nat>, n: nat, before: seq<Byte>, mid: seq<Byte>, after: seq<Byte>,
                    ring: seq<Byte>, ring1: seq<Byte>, ring2: seq<Byte>, had: nat, mid': nat, left: nat)
    requires TurnsTaken(rounds, counts, before, mid, ring, ring1, had, mid') && |counts| < |rounds|
    requires Extended(mid, after, rounds[|counts|].chars, n) && Extended(ring1, ring2, rounds[|counts|].chars, n)
    requires Drains(rounds[|counts|], n, |ring2| == BUF_LEN - 1) && left == LeftBy(mid', rounds[|counts|])
    ensures TurnsTaken(rounds, counts + [n], before, after, ring, ring2, had, left)
  {
    GainMore(before, mid, after, rounds, counts, n);
    GainMore(ring, ring1, ring2, rounds, counts, n);
    DrainMore(|ring|, rounds, counts, n);
  }

  // ----- the history of the rings

  /** A gap with how often each turn of each interrupt read the data register, bytes taken, bytes given. */
  datatype Step =
    | Gap(events: seq<Event>, looks: seq<seq<nat>>)
    | Taken(n: nat)
    | Given(bytes: seq<Byte>)

  /**
   * What a history comes to: whether every step was possible, how many bytes
   * stand in each ring, how many readers have taken, all bytes popped from the
   * device and accepted from writers, host_inactive and whether it has been at
   * the limit lately, and what the world brought.
   */
  datatype Summary = Summary(lawful: bool, rx: nat, tx: nat, taken: nat, popped: seq<Byte>, accepted: seq<Byte>,
                             inactive: nat, gaveUp: bool, gaps: seq<seq<Event>>)

  /** host_inactive after another second. */
  function Later(inactive: nat, ac: bool): (n: nat) {
    if ac then 0 else if inactive < INT_MAX - 2 then inactive + 1 else inactive
  }

  ghost function Suffer(s: Summary, event: Event, counts: seq<nat>, limit: nat): (s': Summary) {
    match event
    case Interrupt(rounds) =>
      if |counts| != Turns(rounds) then s.(lawful := false)
      else
        var bytes := Gained(rounds, counts);
        s.(lawful := s.lawful && AllDrain(s.rx, rounds, counts), rx := s.rx + |bytes|, tx := Left(s.tx, rounds, |counts|),
           popped := s.popped + bytes)
    case OneSecond(ac) =>
      var inactive := Later(s.inactive, ac);
      s.(lawful := s.lawful && counts == [], inactive := inactive, gaveUp := s.gaveUp || inactive >= limit)
  }

  ghost function SufferAll(s: Summary, events: seq<Event>, looks: seq<seq<nat>>, limit: nat): (s': Summary)
    requires |events| == |looks|
  {
    if events == [] then s
    else
      var i := |events| - 1;
      Suffer(SufferAll(s, events[..i], looks[..i], limit), events[i], looks[i], limit)
  }

  lemma SufferMore(s: Summary, events: seq<Event>, looks: seq<seq<nat>>, i: nat, counts: seq<nat>, limit: nat)
    requires |looks| == i < |events|
    ensures SufferAll(s, events[..i + 1], looks + [counts], limit)
         == Suffer(SufferAll(s, events[..i], looks, limit), events[i], counts, limit)
  {
    assert events[..i + 1][..i] == events[..i] && (looks + [counts])[..i] == looks;
  }

  ghost function Apply(s: Summary, step: Step, limit: nat): (s': Summary) {
    match step
    case Gap(events, looks) =>
      if |events| != |looks| then s.(lawful := false)
      else SufferAll(s, events, looks, limit).(gaps := s.gaps + [events])
    case Taken(n) =>
      if n > s.rx then s.(lawful := false) else s.(rx := s.rx - n, taken := s.taken + n)
    case Given(bytes) =>
      s.(lawful := s.lawful && s.tx + |bytes| <= BUF_LEN - 1, tx := s.tx + |bytes|, accepted := s.accepted + bytes)
  }

  /** From here on, only what is to come counts as giving the host up. */
  function Afresh(s: Summary, limit: nat): (s': Summary) {
    s.(gaveUp := s.inactive >= limit)
  }

  const START := Summary(true, 0, 0, 0, [], [], 0, false, [])

  /** The steps taken, what they have come to before the first and after each, and what that is now. */
  datatype Book = Book(log: seq<Step>, sums: seq<Summary>, now: Summary)

  ghost predicate Kept(b: Book, base: Summary, limit: nat) {
    && |b.sums| == |b.log| + 1 && b.sums[0] == base && b.sums[|b.log|] == b.now
    && forall i {:trigger b.log[i]} | 0 <= i < |b.log| :: b.sums[i + 1] == Apply(b.sums[i], b.log[i], limit)
  }

  ghost function Entered(b: Book, step: Step, now: Summary): (b': Book) {
    Book(b.log + [step], b.sums + [now], now)
  }

  lemma EnteredIsKept(b: Book, base: Summary, step: Step, now: Summary, limit: nat)
    requires Kept(b, base, limit) && now == Apply(b.now, step, limit)
    ensures Kept(Entered(b, step, now), base, limit)
  {
  }

  /** A gap goes from the script into the book. */
  lemma GapIsKept(b: Book, base: Summary, world: seq<seq<Event>>, looks: seq<seq<nat>>, limit: nat, script: seq<seq<Event>>)
    returns (b': Book)
    requires Kept(b, base, limit) && world != [] && |looks| == |world[0]| && b.now.gaps + world == script
    ensures Kept(b', base, limit) && b'.now.gaps + world[1..] == script
    ensures b'.now == SufferAll(b.now, world[0], looks, limit).(gaps := b.now.gaps + [world[0]])
  {
    var step := Gap(world[0], looks);
    var now := Apply(b.now, step, limit);
    EnteredIsKept(b, base, step, now, limit);
    b' := Entered(b, step, now);
    Assoc(b.now.gaps, [world[0]], world[1..]);
    assert [world[0]] + world[1..] == world;
  }

  /** The steps of log lead from one summary to the other. */
  ghost predicate Leads(from: Summary, log: seq<Step>, to: Summary, limit: nat) {
    exists b: Book :: Kept(b, from, limit) && b.log == log && b.now == to
  }
}
