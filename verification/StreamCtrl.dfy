/**
 * npu_stream_ctrl's output side: the eight-row FIFO and the serializer that
 * turns each 256-bit row into four 64-bit flits with packet marks.
 */
module StreamCtrl {
  import opened Integers
  import opened Matrices
  import opened Seqs

  const DEPTH: nat := 8

  /** Two 32-bit columns; low is the even one. */
  datatype Flit = Flit(low: int, high: int)

  /** The registers. shift is tx_shift_reg, 64 bits at a time. */
  datatype Ctrl = Ctrl(fifo: seq<seq<int>>, wr: nat, rd: nat, count: nat,
                       shift: seq<Flit>, txCount: nat, active: bool, sending: bool, rowCount: nat)

  /** One clock: pe_valid_out, pe_dout, st_source_ready, seq_total_rows. */
  datatype Pins = Pins(valid: bool, dout: seq<int>, ready: bool, total: nat)

  function Flits(row: seq<int>): (fs: seq<Flit>)
    requires |row| == 8
    ensures |fs| == 4
  {
    [Flit(row[0], row[1]), Flit(row[2], row[3]), Flit(row[4], row[5]), Flit(row[6], row[7])]
  }

  const RESET := Ctrl(seq(DEPTH, _ => [0, 0, 0, 0, 0, 0, 0, 0]), 0, 0, 0,
                      [Flit(0, 0), Flit(0, 0), Flit(0, 0), Flit(0, 0)], 0, false, false, 0)

  /** The 3-bit pointer k places beyond p. */
  function Place(p: nat, k: nat): (r: nat)
    requires p < DEPTH && k <= DEPTH
  {
    if p + k < DEPTH then p + k else p + k - DEPTH
  }

  predicate Full(s: Ctrl) { s.count >= DEPTH }

  predicate Empty(s: Ctrl) { s.count == 0 }

  predicate Pushes(s: Ctrl, c: Pins) { c.valid && !Full(s) }

  predicate LastFlit(s: Ctrl, c: Pins) { s.active && c.ready && s.sending && s.txCount == 3 }

  predicate Pops(s: Ctrl, c: Pins) {
    !Empty(s) && (!s.active || LastFlit(s, c))
  }

  predicate Sends(s: Ctrl, c: Pins) { s.sending && c.ready }

  predicate StartOfPacket(s: Ctrl) { s.sending && s.txCount == 0 && s.rowCount == 0 }

  predicate EndOfPacket(s: Ctrl, c: Pins) {
    c.total > 0 && s.sending && s.txCount == 3 && s.rowCount == c.total - 1
  }

  /** Registers in range, wr and rd apart by count, and a row of eight in every slot. */
  predicate Valid(s: Ctrl) {
    && |s.fifo| == DEPTH && (forall k | 0 <= k < DEPTH :: |s.fifo[k]| == 8)
    && s.rd < DEPTH && s.count <= DEPTH && s.wr == Place(s.rd, s.count)
    && |s.shift| == 4 && s.txCount <= 3 && s.active == s.sending && s.rowCount < WORD
  }

  /** The clock edge. */
  function Step(s: Ctrl, c: Pins): (s': Ctrl)
    requires Valid(s) && |c.dout| == 8
    ensures Valid(s')
  {
    var push, pop := Pushes(s, c), Pops(s, c);
    var fifo := if push then s.fifo[s.wr := c.dout] else s.fifo;
    var wr := if push then Place(s.wr, 1) else s.wr;
    var count := if push && !pop then s.count + 1 else if !push && pop then s.count - 1 else s.count;
    if !s.active then
      if !Empty(s) then Ctrl(fifo, wr, Place(s.rd, 1), count, Flits(s.fifo[s.rd]), 0, true, true, s.rowCount)
      else Ctrl(fifo, wr, s.rd, count, s.shift, s.txCount, false, s.sending, s.rowCount)
    else if c.ready && s.sending then
      if s.txCount == 3 then
        var rows := if c.total > 0 && s.rowCount == c.total - 1 then 0 else (s.rowCount + 1) % WORD;
        if !Empty(s) then Ctrl(fifo, wr, Place(s.rd, 1), count, Flits(s.fifo[s.rd]), 0, true, s.sending, rows)
        else Ctrl(fifo, wr, s.rd, count, s.shift, s.txCount, false, false, rows)
      else Ctrl(fifo, wr, s.rd, count, s.shift[1..] + [Flit(0, 0)], s.txCount + 1, true, s.sending, s.rowCount)
    else Ctrl(fifo, wr, s.rd, count, s.shift, s.txCount, true, s.sending, s.rowCount)
  }

  /** The count rows of the FIFO from slot rd on. */
  function RowsFrom(fifo: seq<seq<int>>, rd: nat, count: nat): (rows: seq<seq<int>>)
    requires |fifo| == DEPTH && rd < DEPTH && count <= DEPTH
    ensures |rows| == count
  {
    seq(count, k requires 0 <= k < count => fifo[Place(rd, k)])
  }

  /** The rows waiting in the FIFO, oldest first. */
  function Queue(s: Ctrl): (rows: seq<seq<int>>)
    requires Valid(s)
    ensures |rows| == s.count && forall k | 0 <= k < |rows| :: |rows[k]| == 8
  {
    RowsFrom(s.fifo, s.rd, s.count)
  }

  function AllFlits(rows: seq<seq<int>>): (fs: seq<Flit>)
    requires forall k | 0 <= k < |rows| :: |rows[k]| == 8
    ensures |fs| == 4 * |rows|
  {
    if rows == [] then [] else Flits(rows[0]) + AllFlits(rows[1..])
  }

  lemma {:induction false} AllFlitsAppend(a: seq<seq<int>>, b: seq<seq<int>>)
    requires forall k | 0 <= k < |a| :: |a[k]| == 8
    requires forall k | 0 <= k < |b| :: |b[k]| == 8
    ensures forall k | 0 <= k < |a + b| :: |(a + b)[k]| == 8
    ensures AllFlits(a + b) == AllFlits(a) + AllFlits(b)
  {
    if a == [] {
      assert a + b == b;
    } else {
      assert (a + b)[1..] == a[1..] + b;
      AllFlitsAppend(a[1..], b);
      assert Flits(a[0]) + (AllFlits(a[1..]) + AllFlits(b)) == (Flits(a[0]) + AllFlits(a[1..])) + AllFlits(b);
    }
  }

  lemma RowsPush(fifo: seq<seq<int>>, rd: nat, count: nat, row: seq<int>)
    requires |fifo| == DEPTH && rd < DEPTH && count < DEPTH
    ensures RowsFrom(fifo[Place(rd, count) := row], rd, count + 1) == RowsFrom(fifo, rd, count) + [row]
  {
  }

  lemma RowsPop(fifo: seq<seq<int>>, rd: nat, count: nat)
    requires |fifo| == DEPTH && rd < DEPTH && 0 < count <= DEPTH
    ensures RowsFrom(fifo, rd, count) == [fifo[rd]] + RowsFrom(fifo, Place(rd, 1), count - 1)
  {
  }

  /** The FIFO is a queue: a push adds at the back, a pop takes from the front, both may happen at once. */
  lemma QueueStep(s: Ctrl, c: Pins)
    requires Valid(s) && |c.dout| == 8
    ensures var pushed := if Pushes(s, c) then [c.dout] else [];
            Queue(Step(s, c)) == (if Pops(s, c) then Queue(s)[1..] else Queue(s)) + pushed
  {
    var s' := Step(s, c);
    var total := s.count + if Pushes(s, c) then 1 else 0;
    if Pushes(s, c) { RowsPush(s.fifo, s.rd, s.count, c.dout); }
    if Pops(s, c) { RowsPop(s'.fifo, s.rd, total); }
  }

  /** What is left of the row in the shift register. */
  function Unsent(s: Ctrl): (r: seq<Flit>)
    requires Valid(s)
  {
    if s.active then s.shift[..4 - s.txCount] else []
  }

  /** The flit that leaves on this clock, if any. */
  function SentNow(s: Ctrl, c: Pins): (fs: seq<Flit>)
    requires Valid(s)
  {
    if Sends(s, c) then [s.shift[0]] else []
  }

  lemma UnsentStep(s: Ctrl, c: Pins)
    requires Valid(s) && |c.dout| == 8
    ensures SentNow(s, c) + Unsent(Step(s, c))
         == Unsent(s) + (if Pops(s, c) then Flits(Queue(s)[0]) else [])
  {
    var s' := Step(s, c);
    if Pops(s, c) {
      assert Unsent(s') == s'.shift;
    }
    if Sends(s, c) {
      ShiftOut(s.shift, s.txCount);
    }
  }

  lemma ShiftOut(shift: seq<Flit>, k: nat)
    requires |shift| == 4 && k <= 3
    ensures shift[..4 - k] == [shift[0]] + (shift[1..] + [Flit(0, 0)])[..3 - k]
  {
  }

  /** Everything not yet sent. */
  function Pending(s: Ctrl): (r: seq<Flit>)
    requires Valid(s)
  {
    Unsent(s) + AllFlits(Queue(s))
  }

  /** The row that enters the FIFO on this clock, if any. */
  function PushedNow(s: Ctrl, c: Pins): (rows: seq<seq<int>>)
    ensures |c.dout| == 8 ==> forall k | 0 <= k < |rows| :: |rows[k]| == 8
  {
    if Pushes(s, c) then [c.dout] else []
  }

  /** Per clock: the flit sent, then what is still pending, is what was pending, then the row pushed. */
  lemma ClockConserves(s: Ctrl, c: Pins)
    requires Valid(s) && |c.dout| == 8
    ensures SentNow(s, c) + Pending(Step(s, c)) == Pending(s) + AllFlits(PushedNow(s, c))
  {
    QueueStep(s, c);
    UnsentStep(s, c);
    var s' := Step(s, c);
    Balance(SentNow(s, c), Unsent(s'), Unsent(s), Queue(s), Queue(s'), Pops(s, c), PushedNow(s, c));
  }

  lemma Balance(sent: seq<Flit>, unsent': seq<Flit>, unsent: seq<Flit>,
                q: seq<seq<int>>, q': seq<seq<int>>, pops: bool, pushed: seq<seq<int>>)
    requires forall k | 0 <= k < |q| :: |q[k]| == 8
    requires forall k | 0 <= k < |q'| :: |q'[k]| == 8
    requires forall k | 0 <= k < |pushed| :: |pushed[k]| == 8
    requires pops ==> |q| > 0
    requires sent + unsent' == unsent + (if pops then Flits(q[0]) else [])
    requires q' == (if pops then q[1..] else q) + pushed
    ensures sent + (unsent' + AllFlits(q')) == (unsent + AllFlits(q)) + AllFlits(pushed)
  {
    var rest := if pops then q[1..] else q;
    var front := if pops then Flits(q[0]) else [];
    AllFlitsAppend(rest, pushed);
    assert AllFlits(q) == front + AllFlits(rest);
    var r, p := AllFlits(rest), AllFlits(pushed);
    Assoc(sent, unsent', r + p);
    Assoc(unsent, front, r + p);
    Assoc(front, r, p);
    Assoc(unsent, front + r, p);
  }

  // ----- whole runs

  predicate EightWide(cs: seq<Pins>) {
    forall k | 0 <= k < |cs| :: |cs[k].dout| == 8
  }

  function After(s: Ctrl, cs: seq<Pins>): (s': Ctrl)
    requires Valid(s) && EightWide(cs)
    ensures Valid(s')
    decreases |cs|
  {
    if cs == [] then s else After(Step(s, cs[0]), cs[1..])
  }

  /** A flit on the source port, with its packet marks. */
  datatype Beat = Beat(flit: Flit, sop: bool, eop: bool)

  function Sent(s: Ctrl, cs: seq<Pins>): (bs: seq<Beat>)
    requires Valid(s) && EightWide(cs)
    decreases |cs|
  {
    if cs == [] then []
    else
      (if Sends(s, cs[0]) then [Beat(s.shift[0], StartOfPacket(s), EndOfPacket(s, cs[0]))] else [])
      + Sent(Step(s, cs[0]), cs[1..])
  }

  function FlitsOf(bs: seq<Beat>): (fs: seq<Flit>)
    ensures |fs| == |bs|
  {
    seq(|bs|, k requires 0 <= k < |bs| => bs[k].flit)
  }

  /** The rows that found room in the FIFO. */
  function Pushed(s: Ctrl, cs: seq<Pins>): (rows: seq<seq<int>>)
    requires Valid(s) && EightWide(cs)
    ensures forall k | 0 <= k < |rows| :: |rows[k]| == 8
    decreases |cs|
  {
    if cs == [] then [] else PushedNow(s, cs[0]) + Pushed(Step(s, cs[0]), cs[1..])
  }

  lemma SentHead(s: Ctrl, cs: seq<Pins>)
    requires Valid(s) && EightWide(cs) && cs != []
    ensures FlitsOf(Sent(s, cs)) == SentNow(s, cs[0]) + FlitsOf(Sent(Step(s, cs[0]), cs[1..]))
  {
    var now := if Sends(s, cs[0]) then [Beat(s.shift[0], StartOfPacket(s), EndOfPacket(s, cs[0]))] else [];
    FlitsOfAppend(now, Sent(Step(s, cs[0]), cs[1..]));
    assert FlitsOf(now) == SentNow(s, cs[0]);
  }

  lemma FlitsOfAppend(a: seq<Beat>, b: seq<Beat>)
    ensures FlitsOf(a + b) == FlitsOf(a) + FlitsOf(b)
  {
  }

  lemma PushedHead(s: Ctrl, cs: seq<Pins>)
    requires Valid(s) && EightWide(cs) && cs != []
    ensures AllFlits(Pushed(s, cs)) == AllFlits(PushedNow(s, cs[0])) + AllFlits(Pushed(Step(s, cs[0]), cs[1..]))
  {
    AllFlitsAppend(PushedNow(s, cs[0]), Pushed(Step(s, cs[0]), cs[1..]));
  }

  /** What a run sends, holds at its end, held at its start, and took in. */
  ghost predicate Balanced(sent: seq<Flit>, later: seq<Flit>, before: seq<Flit>, taken: seq<Flit>) {
    sent + later == before + taken
  }

  lemma BalanceRuns(sent: seq<Flit>, more: seq<Flit>, last: seq<Flit>, mid: seq<Flit>, takenLater: seq<Flit>,
                    before: seq<Flit>, taken: seq<Flit>)
    requires Balanced(more, last, mid, takenLater) && Balanced(sent, mid, before, taken)
    ensures Balanced(sent + more, last, before, taken + takenLater)
  {
    Chain(sent, more, last, mid, takenLater, before, taken);
  }

  /** For every st_source_ready pattern, the flits sent and pending are the rows taken, cut in four, in order. */
  lemma {:induction false} NoFlitLost(s: Ctrl, cs: seq<Pins>)
    requires Valid(s) && EightWide(cs)
    ensures Balanced(FlitsOf(Sent(s, cs)), Pending(After(s, cs)), Pending(s), AllFlits(Pushed(s, cs)))
    decreases |cs|
  {
    if cs == [] {
      assert Pending(s) + [] == Pending(s);
    } else {
      var c, s1, rest := cs[0], Step(s, cs[0]), cs[1..];
      NoFlitLost(s1, rest);
      ClockConserves(s, c);
      SentHead(s, cs);
      PushedHead(s, cs);
      BalanceRuns(SentNow(s, c), FlitsOf(Sent(s1, rest)), Pending(After(s1, rest)), Pending(s1),
                  AllFlits(Pushed(s1, rest)), Pending(s), AllFlits(PushedNow(s, c)));
    }
  }

  /** k flits of the current sequence length have gone out: where the counters must stand. */
  ghost predicate Counted(s: Ctrl, k: nat, total: nat)
    requires total > 0
  {
    && k == 4 * (k / 4) + (if s.active then s.txCount else 0)
    && s.rowCount == (k / 4) % total
  }

  /** In bs, whose first flit is number k, packets open and close every 4 * total flits. */
  ghost predicate Marked(bs: seq<Beat>, k: nat, total: nat)
    requires total > 0
  {
    forall t | 0 <= t < |bs| ::
      && bs[t].sop == ((k + t) % (4 * total) == 0)
      && bs[t].eop == ((k + t) % (4 * total) == 4 * total - 1)
  }

  lemma MarkedPrepend(b: Beat, later: seq<Beat>, k: nat, total: nat)
    requires total > 0 && Marked([b], k, total) && Marked(later, k + 1, total)
    ensures Marked([b] + later, k, total)
  {
    var bs := [b] + later;
    forall t | 0 <= t < |bs|
      ensures bs[t].sop == ((k + t) % (4 * total) == 0) && bs[t].eop == ((k + t) % (4 * total) == 4 * total - 1)
    {
      if t > 0 { assert bs[t] == later[t - 1] && k + t == (k + 1) + (t - 1); } else { assert bs[t] == [b][t]; }
    }
  }

  /** Flit number k opens a packet exactly when 4 * total divides k, and closes one exactly before the next opens. */
  lemma {:induction false} PacketMarks(s: Ctrl, cs: seq<Pins>, k: nat, total: nat)
    requires Valid(s) && EightWide(cs) && 0 < total < WORD
    requires forall t | 0 <= t < |cs| :: cs[t].total == total
    requires Counted(s, k, total)
    ensures Marked(Sent(s, cs), k, total)
    decreases |cs|
  {
    if cs != [] {
      var c, s1 := cs[0], Step(s, cs[0]);
      CountStep(s, c, k, total);
      if Sends(s, c) {
        PacketMarks(s1, cs[1..], k + 1, total);
        var b := Beat(s.shift[0], StartOfPacket(s), EndOfPacket(s, c));
        assert Marked([b], k, total);
        MarkedPrepend(b, Sent(s1, cs[1..]), k, total);
      } else {
        PacketMarks(s1, cs[1..], k, total);
        assert [] + Sent(s1, cs[1..]) == Sent(s1, cs[1..]);
      }
    }
  }

  lemma CountStep(s: Ctrl, c: Pins, k: nat, total: nat)
    requires Valid(s) && |c.dout| == 8 && 0 < total < WORD && c.total == total && Counted(s, k, total)
    ensures Counted(Step(s, c), if Sends(s, c) then k + 1 else k, total)
    ensures Sends(s, c) ==> StartOfPacket(s) == (k % (4 * total) == 0)
    ensures Sends(s, c) ==> EndOfPacket(s, c) == (k % (4 * total) == 4 * total - 1)
  {
    var rows := k / 4;
    RowOfFlit(rows, k % 4, total);
    NextRow(rows, total);
  }

  lemma RowOfFlit(rows: nat, part: nat, total: nat)
    requires total > 0 && part < 4
    ensures (4 * rows + part) % (4 * total) == 4 * (rows % total) + part
  {
    var q, r := rows / total, rows % total;
    assert 4 * rows + part == q * (4 * total) + (4 * r + part) by {
      assert rows == q * total + r;
      assert 4 * (q * total) == q * (4 * total);
    }
    QuotientUnique(4 * rows + part, q, 4 * r + part, 4 * total);
  }

  lemma NextRow(rows: nat, total: nat)
    requires total > 0
    ensures (rows + 1) % total == if rows % total == total - 1 then 0 else rows % total + 1
  {
    var q, r := rows / total, rows % total;
    assert rows == q * total + r;
    if r == total - 1 {
      assert rows + 1 == (q + 1) * total;
      QuotientUnique(rows + 1, q + 1, 0, total);
    } else {
      QuotientUnique(rows + 1, q, r + 1, total);
    }
  }
}
