/** Packet marks of whole batches: with seq_total_rows set to the batch's rows, a batch is one packet. */
module NpuPackets {
  import opened Integers
  import opened Matrices
  import opened NpuUnit
  import opened Seqs
  import NpuDrain
  import Multiply = ElasticMultiply
  import Ctrl = StreamCtrl

  predicate TotalIs(cs: seq<Pins>, total: nat) {
    forall k | 0 <= k < |cs| :: cs[k].total == total
  }

  /** Between packets: no row has been counted, nothing waits. */
  predicate BetweenPackets(u: Unit) {
    Ctrl.Valid(u.ctrl) && u.ctrl.rowCount == 0 && Ctrl.Pending(u.ctrl) == []
  }

  lemma {:induction false} CountedAfter(s: Ctrl.Ctrl, cs: seq<Ctrl.Pins>, k: nat, total: nat)
    requires Ctrl.Valid(s) && Ctrl.EightWide(cs) && 0 < total < WORD
    requires forall t | 0 <= t < |cs| :: cs[t].total == total
    requires Ctrl.Counted(s, k, total)
    ensures Ctrl.Counted(Ctrl.After(s, cs), k + |Ctrl.Sent(s, cs)|, total)
    decreases |cs|
  {
    if cs != [] {
      Ctrl.CountStep(s, cs[0], k, total);
      CountedAfter(Ctrl.Step(s, cs[0]), cs[1..], if Ctrl.Sends(s, cs[0]) then k + 1 else k, total);
    }
  }

  /** Everything the unit sends for a batch, with its marks. */
  function AllBeats(u: Unit, cs: seq<Pins>, drain: seq<Pins>): (r: seq<Ctrl.Beat>)
    requires Ctrl.Valid(u.ctrl) && Sized(cs) && Sized(drain)
  {
    Sent(u, cs) + Sent(After(u, cs), drain)
  }

  /** The first beat opens the packet, the last one closes it, no other has a mark. */
  predicate OnePacket(bs: seq<Ctrl.Beat>) {
    bs != [] && forall t | 0 <= t < |bs| :: bs[t].sop == (t == 0) && bs[t].eop == (t == |bs| - 1)
  }

  lemma OneRound(bs: seq<Ctrl.Beat>, total: nat)
    requires total > 0 && Ctrl.Marked(bs, 0, total) && |bs| == 4 * total
    ensures OnePacket(bs)
  {
    forall t | 0 <= t < |bs| ensures bs[t].sop == (t == 0) && bs[t].eop == (t == |bs| - 1) {
      QuotientUnique(t, 0, t, 4 * total);
      assert (0 + t) % (4 * total) == t;
    }
  }

  lemma MarkedRun(u: Unit, cs: seq<Pins>, k: nat, total: nat)
    requires Ctrl.Valid(u.ctrl) && Sized(cs) && 0 < total < WORD && TotalIs(cs, total)
    requires Ctrl.Counted(u.ctrl, k, total)
    ensures Ctrl.Marked(Sent(u, cs), k, total)
    ensures Ctrl.Counted(After(u, cs).ctrl, k + |Sent(u, cs)|, total)
  {
    RowsCross(u, cs);
    Ctrl.PacketMarks(u.ctrl, CtrlTrace(u, cs), k, total);
    CountedAfter(u.ctrl, CtrlTrace(u, cs), k, total);
  }

  /** A run that sends as many flits as the packet has is that packet. */
  lemma RunIsOnePacket(u: Unit, cs: seq<Pins>, total: nat)
    requires BetweenPackets(u) && Sized(cs) && 0 < total < WORD && TotalIs(cs, total)
    requires |Sent(u, cs)| == 4 * total
    ensures OnePacket(Sent(u, cs)) && After(u, cs).ctrl.rowCount == 0
  {
    assert Ctrl.Unsent(u.ctrl) == [];
    MarkedRun(u, cs, 0, total);
    OneRound(Sent(u, cs), total);
    QuotientUnique(total, 1, 0, total);
  }

  /** One run after the other is one run. */
  lemma {:induction false} RunsJoin(u: Unit, a: seq<Pins>, b: seq<Pins>)
    requires Ctrl.Valid(u.ctrl) && Sized(a) && Sized(b)
    ensures Sized(a + b) && After(u, a + b) == After(After(u, a), b) && Sent(u, a + b) == AllBeats(u, a, b)
    decreases |a|
  {
    if a == [] {
      assert a + b == b;
    } else {
      var u1 := Step(u, a[0]);
      assert (a + b)[1..] == a[1..] + b && (a + b)[0] == a[0];
      RunsJoin(u1, a[1..], b);
      SentHead(u, a);
      SentHead(u, a + b);
      Assoc(SentFirst(u, a[0]), Sent(u1, a[1..]), Sent(After(u, a), b));
    }
  }

  function SentFirst(u: Unit, c: Pins): (r: seq<Ctrl.Beat>)
    requires Ctrl.Valid(u.ctrl) && |c.data| == N
  {
    Sent(u, [c])
  }

  lemma SentHead(u: Unit, cs: seq<Pins>)
    requires Ctrl.Valid(u.ctrl) && Sized(cs) && cs != []
    ensures Sent(u, cs) == SentFirst(u, cs[0]) + Sent(Step(u, cs[0]), cs[1..])
  {
    var c, u1 := cs[0], Step(u, cs[0]);
    var ps, one := CtrlTrace(u, cs), CtrlTrace(u, [c]);
    assert ps[0] == one[0] && ps[1..] == CtrlTrace(u1, cs[1..]) && one[1..] == [];
    assert Ctrl.Sent(Ctrl.Step(u.ctrl, one[0]), []) == [];
    assert Ctrl.Sent(u.ctrl, one)
        == if Ctrl.Sends(u.ctrl, one[0])
           then [Ctrl.Beat(u.ctrl.shift[0], Ctrl.StartOfPacket(u.ctrl), Ctrl.EndOfPacket(u.ctrl, one[0]))] else [];
  }

  /** A batch of as many rows as seq_total_rows says goes out as one packet, and the next batch starts a new one. */
  lemma BatchIsOnePacket(u: Unit, w: Matrix, cs: seq<Pins>, drain: seq<Pins>, total: nat)
    requires Square(w, N) && Ready(u, w) && Multiplying(cs) && BetweenPackets(u)
    requires NpuDrain.Draining(drain) && |drain| >= NpuDrain.ENOUGH
    requires TotalIs(cs, total) && TotalIs(drain, total)
    requires |Accepted(u, cs)| == total && 0 < total < WORD
    ensures OnePacket(AllBeats(u, cs, drain)) && |AllBeats(u, cs, drain)| == 4 * total
    ensures BetweenPackets(After(After(u, cs), drain))
  {
    BatchLength(u, w, cs, drain);
    NpuDrain.ReadyAgain(u, w, cs, drain);
    RunsJoin(u, cs, drain);
    RunIsOnePacket(u, cs + drain, total);
  }

  lemma BatchLength(u: Unit, w: Matrix, cs: seq<Pins>, drain: seq<Pins>)
    requires Square(w, N) && Ready(u, w) && Multiplying(cs)
    requires NpuDrain.Draining(drain) && |drain| >= NpuDrain.ENOUGH
    ensures |AllBeats(u, cs, drain)| == 4 * |Accepted(u, cs)|
  {
    NpuDrain.EveryRowComesOut(u, w, cs, drain);
    var a, b := Sent(u, cs), Sent(After(u, cs), drain);
    assert |Ctrl.FlitsOf(a) + Ctrl.FlitsOf(b)| == |a| + |b|;
  }

  /** As long as nothing is sent, no row is counted. */
  lemma {:induction false} SilenceCountsNothing(s: Ctrl.Ctrl, cs: seq<Ctrl.Pins>)
    requires Ctrl.Valid(s) && Ctrl.EightWide(cs) && Ctrl.Sent(s, cs) == []
    ensures Ctrl.After(s, cs).rowCount == s.rowCount
    decreases |cs|
  {
    if cs != [] { SilenceCountsNothing(Ctrl.Step(s, cs[0]), cs[1..]); }
  }

  lemma LoadCountsNothing(u: Unit, cs: seq<Pins>)
    requires Ctrl.Valid(u.ctrl) && Sized(cs) && Sent(u, cs) == []
    ensures After(u, cs).ctrl.rowCount == u.ctrl.rowCount
  {
    RowsCross(u, cs);
    SilenceCountsNothing(u.ctrl, CtrlTrace(u, cs));
  }
}
