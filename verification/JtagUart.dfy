/**
 * The JTAG UART's fast driver: a foreground reader and writer and an
 * interrupt routine that share two rings and an interrupt-enable mask.
 *
 * The interrupt routine and the once-a-second timeout run whole between any
 * two foreground statements outside the critical sections: Preempt stands in
 * every such gap and runs whatever the world has in store for it.
 */
module JtagUart {
  import opened Integers
  import opened Rings
  import opened Seqs
  import opened UartWorld

  datatype Result = Bytes(n: nat) | WouldBlock | IoError | StillWaiting

  /** after is before with the first n bytes of data behind it. */
  ghost predicate Took(before: seq<Byte>, data: seq<Byte>, n: nat, after: seq<Byte>) {
    n <= |data| && after == before + data[..n]
  }

  lemma TookMore(before: seq<Byte>, data: seq<Byte>, n: nat, mid: seq<Byte>, more: nat, after: seq<Byte>)
    requires Took(before, data, n, mid) && Took(mid, data[n..], more, after)
    ensures Took(before, data, n + more, after)
  {
    assert data[..n + more] == data[..n] + data[n..][..more];
    Assoc(before, data[..n], data[n..][..more]);
  }

  /** Behind the first at bytes of a buffer, left as they were, stand n bytes more, which have been delivered. */
  ghost predicate Filled(was: seq<Byte>, now: seq<Byte>, at: nat, n: nat, before: seq<Byte>, after: seq<Byte>) {
    |was| == |now| && at + n <= |now| && now[..at] == was[..at] && after == before + now[at..at + n]
  }

  lemma TookFilled(before: seq<Byte>, was: seq<Byte>, now: seq<Byte>, n: nat, mid: seq<Byte>, more: nat, after: seq<Byte>)
    requires Took(before, was, n, mid) && Filled(was, now, n, more, mid, after)
    ensures Took(before, now, n + more, after)
  {
    assert now[..n + more] == now[..n] + now[n..n + more];
    Assoc(before, now[..n], now[n..n + more]);
  }

  /** What a read or a write returns. */
  function CallResult(moved: nat, nonBlocking: bool, stuck: bool): (r: Result) {
    if stuck then StillWaiting else if moved > 0 then Bytes(moved) else if nonBlocking then WouldBlock else IoError
  }

  /** What a writer does next, once it has copied what fits. */
  datatype Next = Retry | GiveUp | Spin | Done

  type Seconds = t: nat | t > 0 witness 1

  class Uart {
    var rxIn: Slot
    var rxOut: Slot
    var txIn: Slot
    var txOut: Slot
    const rxBuf: array<Byte>
    const txBuf: array<Byte>
    /** irq_enable, and the enable bits last written to the device */
    var re: bool
    var we: bool
    var deviceRe: bool
    var deviceWe: bool
    var hostInactive: nat
    const timeout: Seconds

    /** What happens in the coming gaps between foreground statements, and what was to come at the start. */
    var world: seq<seq<Event>>
    ghost const script: seq<seq<Event>>

    /** Bytes the data register has yielded, and bytes written to it. */
    ghost var popped: seq<Byte>
    ghost var sent: seq<Byte>
    /** Bytes handed to readers, and bytes taken from writers. */
    ghost var delivered: seq<Byte>
    ghost var accepted: seq<Byte>
    /** A reader (writer) has moved data and has yet to enable the interrupt. */
    ghost var readerOwes: bool
    ghost var writerOwes: bool
    /** What has happened to the rings since base, and what that has come to. */
    ghost var base: Summary
    ghost var book: Book

    /** Two buffers of the ring's size. */
    ghost predicate Buffers() {
      rxBuf.Length == txBuf.Length == BUF_LEN && rxBuf != txBuf
    }

    ghost function RxRing(): (bs: seq<Byte>)
      requires Buffers()
      reads this`rxIn, this`rxOut, rxBuf
      ensures |bs| == Used(rxIn, rxOut) <= BUF_LEN - 1
    {
      Ring(rxBuf[..], rxOut, Used(rxIn, rxOut))
    }

    ghost function TxRing(): (bs: seq<Byte>)
      requires Buffers()
      reads this`txIn, this`txOut, txBuf
      ensures |bs| == Used(txIn, txOut) <= BUF_LEN - 1
    {
      Ring(txBuf[..], txOut, Used(txIn, txOut))
    }

    /** No byte is lost, repeated or reordered, and no wake-up is lost. */
    ghost predicate Inv()
      reads this`rxIn, this`rxOut, this`txIn, this`txOut, this`re, this`we, this`deviceRe, this`deviceWe,
            this`popped, this`sent, this`delivered, this`accepted, this`readerOwes, this`writerOwes, rxBuf, txBuf
    {
      && Buffers()
      && popped == delivered + RxRing()
      && accepted == sent + TxRing()
      && (!re ==> RxRing() != [] || readerOwes)
      && (!we ==> TxRing() == [] || writerOwes)
      && (deviceRe, deviceWe) == (re, we)
    }

    /** What the history has come to, as the registers show it. */
    ghost function Shown(gaveUp: bool, gaps: seq<seq<Event>>): (s: Summary)
      requires Buffers()
      reads this`rxIn, this`rxOut, this`txIn, this`txOut, this`popped, this`delivered, this`accepted, this`hostInactive
    {
      Summary(true, Used(rxIn, rxOut), Used(txIn, txOut), |delivered|, popped, accepted, hostInactive, gaveUp, gaps)
    }

    /** The book is the history of the rings; the host inactive for long enough is in it; the rest of the script is to come. */
    ghost predicate Logged()
      requires Buffers()
      reads this`rxIn, this`rxOut, this`txIn, this`txOut, this`popped, this`delivered, this`accepted,
            this`hostInactive, this`base, this`book, this`world
    {
      && Kept(book, base, timeout) && book.now == Shown(GaveUp(), book.now.gaps)
      && (hostInactive >= timeout ==> GaveUp())
      && book.now.gaps + world == script
    }

    /** Since base, the host was inactive for as long as the limit says. */
    ghost predicate GaveUp()
      reads this`book
    {
      book.now.gaveUp
    }

    /** A new page: the history begins again from what it has come to. */
    ghost method TurnPage()
      requires Live()
      modifies this`base, this`book
      ensures Live() && book == Book([], [base], base) && base == Afresh(old(book).now, timeout)
    {
      base := Afresh(book.now, timeout);
      book := Book([], [base], base);
    }

    /** What holds between any two foreground statements. */
    ghost predicate Live()
      reads this, rxBuf, txBuf
    {
      Inv() && Logged()
    }

    constructor Init(timeout: Seconds, world: seq<seq<Event>>)
      ensures Live() && !readerOwes && !writerOwes && fresh(rxBuf) && fresh(txBuf)
      ensures popped == [] && sent == [] && delivered == [] && accepted == [] && book.now == START
      ensures this.world == world && script == world && this.timeout == timeout
      ensures RxRing() == [] && TxRing() == [] && re && !we
    {
      rxIn, rxOut, txIn, txOut := 0, 0, 0, 0;
      rxBuf, txBuf := new Byte[BUF_LEN], new Byte[BUF_LEN];
      re, we, deviceRe, deviceWe := true, false, true, false;
      hostInactive := 0;
      this.timeout := timeout;
      this.world, script := world, world;
      base, book := START, Book([], [START], START);
      popped, sent, delivered, accepted := [], [], [], [];
      readerOwes, writerOwes := false, false;
    }

    // ----- in the interrupt

    /** The device has yielded a byte: put it in the ring. */
    method Store(data: Byte)
      requires Inv() && |RxRing()| < BUF_LEN - 1
      modifies this`rxIn, this`popped, rxBuf
      ensures Inv() && RxRing() == old(RxRing()) + [data] && popped == old(popped) + [data]
    {
      ghost var before, n, slot := rxBuf[..], Used(rxIn, rxOut), rxIn;
      popped := popped + [data];
      rxBuf[rxIn] := data;
      rxIn := (rxIn + 1) % BUF_LEN;
      RingPush(before, rxOut, n, data);
      Advance(slot, rxOut, 1);
      assert rxBuf[..] == before[slot := data];
    }

    /** Take a byte from the ring and write it to the device. */
    method Send()
      requires Inv() && TxRing() != []
      modifies this`txOut, this`sent
      ensures Inv() && old(TxRing()) == [txBuf[old(txOut)]] + TxRing()
      ensures sent == old(sent) + [txBuf[old(txOut)]]
    {
      var byte := txBuf[txOut];
      ghost var rest := Ring(txBuf[..], Place(txOut, 1), Used(txIn, txOut) - 1);
      assert accepted == (sent + [byte]) + rest by {
        RingHead(txBuf[..], txOut, Used(txIn, txOut));
        Assoc(sent, [byte], rest);
      }
      assert TxRing() == [byte] + rest by { RingHead(txBuf[..], txOut, Used(txIn, txOut)); }
      Advance(txIn, txOut, 1);
      sent := sent + [byte];
      txOut := (txOut + 1) % BUF_LEN;
    }

    /** A read irq: drain the device into the ring; mask the interrupt if the ring is full and bytes remain. */
    method Receive(chars: seq<DataReg>) returns (ghost count: nat)
      requires Inv()
      modifies this`rxIn, this`popped, this`re, this`deviceRe, rxBuf
      ensures Inv()
      ensures Extended(old(popped), popped, chars, count) && Extended(old(RxRing()), RxRing(), chars, count)
      ensures |RxRing()| == BUF_LEN - 1 || (count > 0 && Nth(chars, count - 1).Empty?)
      ensures re == (old(re) && !MoreAfter(chars, count))
    {
      var more := true;
      count := 0;
      var i := 0;
      while true
        invariant Inv() && re == old(re) && count == i && more == MoreAfter(chars, i)
        invariant Extended(old(popped), popped, chars, i) && Extended(old(RxRing()), RxRing(), chars, i)
        decreases BUF_LEN - |RxRing()|
      {
        var next := (rxIn + 1) % BUF_LEN;
        if next == rxOut { break; }
        var data := Nth(chars, i);
        i := i + 1;
        count := i;
        if data.Empty? {
          more := false;
          break;
        }
        more := data.more;
        Store(data.data);
        ExtendStep(old(popped), chars, i);
        ExtendStep(old(RxRing()), chars, i);
      }
      if more {
        re := false;
        deviceRe := re;
      }
    }

    /** A write irq: fill the device from the ring; mask the interrupt if the ring runs dry first. */
    method Transmit(room: nat)
      requires Inv()
      modifies this`txOut, this`sent, this`we, this`deviceWe
      ensures Inv() && old(sent) <= sent
      ensures |sent| - |old(sent)| == |old(TxRing())| - |TxRing()| == Min(room, |old(TxRing())|)
      ensures we == (old(we) && room <= |old(TxRing())|)
    {
      var space := room;
      while space > 0 && txOut != txIn
        invariant Inv() && we == old(we) && 0 <= space <= room
        invariant old(sent) <= sent
        invariant |sent| - |old(sent)| == |old(TxRing())| - |TxRing()| == room - space
        decreases space
      {
        Send();
        space := space - 1;
      }
      if space > 0 {
        we := false;
        deviceWe := we;
      }
    }

    /** One turn of the interrupt routine. */
    method Turn(round: Round) returns (ghost n: nat)
      requires Inv()
      modifies this`rxIn, this`popped, this`re, this`deviceRe, this`txOut, this`sent, this`we, this`deviceWe, rxBuf
      ensures Inv()
      ensures Extended(old(popped), popped, round.chars, n) && Extended(old(RxRing()), RxRing(), round.chars, n)
      ensures Drains(round, n, |RxRing()| == BUF_LEN - 1)
      ensures |TxRing()| == LeftBy(|old(TxRing())|, round)
      ensures re == (old(re) && !(round.ri && MoreAfter(round.chars, n)))
      ensures we == (old(we) && !(round.wi && round.space > |old(TxRing())|))
    {
      n := 0;
      if round.ri { n := Receive(round.chars); }
      if round.wi { Transmit(round.space); }
    }

    /**
     * altera_avalon_jtag_uart_irq: turns until the control register shows
     * nothing more to do. counts says how often each turn read the data register.
     */
    method Irq(rounds: seq<Round>) returns (ghost counts: seq<nat>)
      requires Inv()
      modifies this`rxIn, this`popped, this`re, this`deviceRe, this`txOut, this`sent, this`we, this`deviceWe, rxBuf
      ensures Inv() && |counts| == Turns(rounds)
      ensures TurnsTaken(rounds, counts, old(popped), popped, old(RxRing()), RxRing(), |old(TxRing())|, |TxRing()|)
    {
      var i := 0;
      counts := [];
      while i < |rounds| && Pending(rounds[i])
        invariant Inv() && i <= Turns(rounds) && |counts| == i
        invariant TurnsTaken(rounds, counts, old(popped), popped, old(RxRing()), RxRing(), |old(TxRing())|, |TxRing()|)
        decreases |rounds| - i
      {
        ghost var bytes, ring, had := popped, RxRing(), |TxRing()|;
        ghost var n := Turn(rounds[i]);
        OneTurnMore(rounds, counts, n, old(popped), bytes, popped, old(RxRing()), ring, RxRing(),
                    |old(TxRing())|, had, |TxRing()|);
        counts := counts + [n];
        i := i + 1;
      }
    }

    /** altera_avalon_jtag_uart_timeout */
    method Timeout(ac: bool)
      requires Inv()
      modifies this`hostInactive, this`deviceRe, this`deviceWe
      ensures Inv() && hostInactive == Later(old(hostInactive), ac)
    {
      if ac {
        deviceRe, deviceWe := re, we;
        hostInactive := 0;
      } else if hostInactive < INT_MAX - 2 {
        hostInactive := hostInactive + 1;
      }
    }

    /** One interrupt or second, on the books. */
    method Happen(event: Event, ghost s: Summary) returns (ghost counts: seq<nat>, ghost s': Summary)
      requires Inv() && s == Shown(s.gaveUp, s.gaps) && (hostInactive >= timeout ==> s.gaveUp)
      modifies this`rxIn, this`popped, this`re, this`deviceRe, this`txOut, this`sent, this`we, this`deviceWe,
               this`hostInactive, rxBuf
      ensures Inv() && s' == Suffer(s, event, counts, timeout) && s' == Shown(s'.gaveUp, s.gaps)
      ensures (hostInactive >= timeout ==> s'.gaveUp) && (s.gaveUp ==> s'.gaveUp)
      ensures old(RxRing()) <= RxRing() && |TxRing()| <= |old(TxRing())|
    {
      counts := [];
      match event {
        case Interrupt(rounds) => counts := Irq(rounds);
        case OneSecond(ac) => Timeout(ac);
      }
      s' := Suffer(s, event, counts, timeout);
    }

    /** What happens in one gap. */
    method PassGap(events: seq<Event>) returns (ghost looks: seq<seq<nat>>, ghost s: Summary)
      requires Live()
      modifies this`rxIn, this`popped, this`re, this`deviceRe, this`txOut, this`sent, this`we, this`deviceWe,
               this`hostInactive, rxBuf
      ensures Inv() && |looks| == |events| && s == SufferAll(book.now, events, looks, timeout)
      ensures s == Shown(s.gaveUp, book.now.gaps) && (hostInactive >= timeout ==> s.gaveUp) && (GaveUp() ==> s.gaveUp)
      ensures old(RxRing()) <= RxRing() && |TxRing()| <= |old(TxRing())|
    {
      looks, s := [], book.now;
      for i := 0 to |events|
        invariant Inv() && |looks| == i && s == SufferAll(book.now, events[..i], looks, timeout)
        invariant s == Shown(s.gaveUp, book.now.gaps) && (hostInactive >= timeout ==> s.gaveUp) && (GaveUp() ==> s.gaveUp)
        invariant old(RxRing()) <= RxRing() && |TxRing()| <= |old(TxRing())|
      {
        ghost var counts;
        ghost var before := s;
        counts, s := Happen(events[i], s);
        SufferMore(book.now, events, looks, i, counts, timeout);
        looks := looks + [counts];
      }
      assert events[..|events|] == events;
    }

    /** The next gap of the script. */
    method TakeGap()
      requires Live() && world != []
      modifies this`rxIn, this`popped, this`re, this`deviceRe, this`txOut, this`sent, this`we, this`deviceWe,
               this`hostInactive, this`world, this`book, rxBuf
      ensures Live() && old(RxRing()) <= RxRing() && |TxRing()| <= |old(TxRing())|
      ensures (old(GaveUp()) ==> GaveUp()) && |world| < |old(world)|
    {
      ghost var looks, s := PassGap(world[0]);
      book := GapIsKept(book, base, world, looks, timeout, script);
      world := world[1..];
    }

    /** What may change behind the foreground's back, and what may not. */
    method Preempt()
      requires Live()
      modifies this`rxIn, this`popped, this`re, this`deviceRe, this`txOut, this`sent, this`we, this`deviceWe,
               this`hostInactive, this`world, this`book, rxBuf
      ensures Live() && old(RxRing()) <= RxRing() && |TxRing()| <= |old(TxRing())|
      ensures old(GaveUp()) ==> GaveUp()
      ensures |world| < |old(world)| || (world == [] && unchanged(this, rxBuf))
    {
      if world != [] { TakeGap(); }
    }

    // ----- in the foreground: reading

    /** memcpy out of the receive ring, byte by byte, interrupts between. */
    method CopyOut(buffer: array<Byte>, at: nat, n: nat)
      requires Live() && buffer != rxBuf && buffer != txBuf
      requires n <= |RxRing()| && rxOut + n <= BUF_LEN && at + n <= buffer.Length
      modifies this`rxIn, this`popped, this`re, this`deviceRe, this`txOut, this`sent, this`we, this`deviceWe,
               this`hostInactive, this`world, this`book, rxBuf, buffer
      ensures Live() && old(RxRing()) <= RxRing()
      ensures |world| <= |old(world)|
      ensures buffer[..at] == old(buffer[..at]) && buffer[at..at + n] == old(RxRing())[..n]
    {
      ghost var ring := RxRing();
      for k := 0 to n
        invariant Live() && ring <= RxRing() && |world| <= |old(world)|
        invariant buffer[..at] == old(buffer[..at]) && buffer[at..at + k] == ring[..k]
      {
        CopyByte(buffer, at + k, k, ring);
      }
    }

    /** One byte of the copy, k slots beyond rx_out. */
    method CopyByte(buffer: array<Byte>, at: nat, k: nat, ghost ring: seq<Byte>)
      requires Live() && buffer != rxBuf && buffer != txBuf && at < buffer.Length
      requires k < |ring| && ring <= RxRing() && rxOut + k < BUF_LEN
      modifies this`rxIn, this`popped, this`re, this`deviceRe, this`txOut, this`sent, this`we, this`deviceWe,
               this`hostInactive, this`world, this`book, rxBuf, buffer
      ensures Live() && ring <= RxRing() && |world| <= |old(world)| && buffer[..] == old(buffer[..])[at := ring[k]]
    {
      Preempt();
      assert ring[k] == RxRing()[k] == rxBuf[rxOut + k];
      buffer[at] := rxBuf[rxOut + k];
    }

    /** rx_out moves past n bytes, which now belong to the caller. */
    method Release(n: nat)
      requires Live() && 0 < n <= |RxRing()|
      modifies this`rxOut, this`delivered, this`readerOwes, this`book
      ensures Live() && readerOwes
      ensures delivered == old(delivered) + old(RxRing())[..n] && old(RxRing()) == old(RxRing())[..n] + RxRing()
    {
      ghost var first := RxRing()[..n];
      ghost var rest := Ring(rxBuf[..], Place(rxOut, n), Used(rxIn, rxOut) - n);
      assert RxRing() == first + rest by { RingPop(rxBuf[..], rxOut, Used(rxIn, rxOut), n); }
      assert popped == (delivered + first) + rest by { Assoc(delivered, first, rest); }
      Advance(rxIn, rxOut, n);
      ghost var now := Apply(book.now, Taken(n), timeout);
      EnteredIsKept(book, base, Taken(n), now, timeout);
      book := Entered(book, Taken(n), now);
      delivered := delivered + first;
      readerOwes := true;
      rxOut := (rxOut + n) % BUF_LEN;
      assert RxRing() == rest;
    }

    /** How many bytes can be copied in one piece. inn is this turn's look at rx_in, stale by the time it is used. */
    method FindStretch(limit: nat) returns (inn: Slot, n: nat)
      requires Live() && limit > 0
      modifies this`rxIn, this`popped, this`re, this`deviceRe, this`txOut, this`sent, this`we, this`deviceWe,
               this`hostInactive, this`world, this`book, rxBuf
      ensures Live() && |world| <= |old(world)|
      ensures n <= limit && n <= |RxRing()| && rxOut + n <= BUF_LEN
      ensures |old(RxRing())| <= |RxRing()| && (n == 0 ==> old(RxRing()) == [])
      ensures n == 0 ==> inn == rxOut && (|world| < |old(world)| || inn == rxIn)
    {
      inn := rxIn;
      ghost var had := |RxRing()|;
      Preempt();
      var out := rxOut;
      n := if inn >= out then inn - out else BUF_LEN - out;
      ReadRunIsMaximal(inn, out);
      assert n <= had <= |RxRing()|;
      if n > limit { n := limit; }
    }

    /** Copy a stretch to the caller and hand its slots back. */
    method TakeStretch(buffer: array<Byte>, at: nat, n: nat)
      requires Live() && buffer != rxBuf && buffer != txBuf
      requires 0 < n <= |RxRing()| && rxOut + n <= BUF_LEN && at + n <= buffer.Length
      modifies this`rxIn, this`popped, this`re, this`deviceRe, this`txOut, this`sent, this`we, this`deviceWe,
               this`hostInactive, this`world, this`book, this`rxOut, this`delivered, this`readerOwes, rxBuf, buffer
      ensures Live() && readerOwes && |world| <= |old(world)|
      ensures Filled(old(buffer[..]), buffer[..], at, n, old(delivered), delivered)
      ensures |old(RxRing())| <= n + |RxRing()|
    {
      ghost var first := RxRing()[..n];
      CopyOut(buffer, at, n);
      Preempt();
      assert RxRing()[..n] == first;
      Release(n);
      Preempt();
    }

    /** One turn of the copying loop. */
    method TakeSome(buffer: array<Byte>, at: nat) returns (inn: Slot, n: nat)
      requires Live() && buffer != rxBuf && buffer != txBuf && at < buffer.Length
      modifies this`rxIn, this`popped, this`re, this`deviceRe, this`txOut, this`sent, this`we, this`deviceWe,
               this`hostInactive, this`world, this`book, this`rxOut, this`delivered, this`readerOwes, rxBuf, buffer
      ensures Live() && |world| <= |old(world)| && readerOwes == (old(readerOwes) || n > 0)
      ensures Filled(old(buffer[..]), buffer[..], at, n, old(delivered), delivered)
      ensures |old(RxRing())| <= n + |RxRing()|
      ensures n == 0 ==> old(RxRing()) == [] && inn == rxOut && (|world| < |old(world)| || inn == rxIn)
    {
      inn, n := FindStretch(buffer.Length - at);
      if n > 0 { TakeStretch(buffer, at, n); }
    }

    /** The do-while loop of the read routine: all there is, as far as buffer holds. inn is the last look at rx_in. */
    method ReadAvailable(buffer: array<Byte>) returns (inn: Slot, moved: nat)
      requires Live() && !readerOwes && buffer != rxBuf && buffer != txBuf && buffer.Length > 0
      modifies this`rxIn, this`popped, this`re, this`deviceRe, this`txOut, this`sent, this`we, this`deviceWe,
               this`hostInactive, this`world, this`book, this`rxOut, this`delivered, this`readerOwes, rxBuf, buffer
      ensures Live() && |world| <= |old(world)|
      ensures moved <= buffer.Length && Took(old(delivered), buffer[..], moved, delivered)
      ensures readerOwes == (moved > 0)
      ensures moved >= Min(buffer.Length, |old(RxRing())|)
      ensures moved < buffer.Length ==> inn == rxOut
      ensures moved == 0 ==> (|world| < |old(world)| || inn == rxIn)
    {
      moved, inn := 0, rxOut;
      var n: nat := buffer.Length;
      while n > 0 && moved < buffer.Length
        invariant Live() && |world| <= |old(world)| && readerOwes == (moved > 0)
        invariant moved <= buffer.Length && Took(old(delivered), buffer[..], moved, delivered)
        invariant |old(RxRing())| <= moved + |RxRing()|
        invariant n == 0 ==> moved >= |old(RxRing())| && inn == rxOut && (moved == 0 ==> |world| < |old(world)| || inn == rxIn)
        decreases buffer.Length - moved, n > 0
      {
        ghost var was, before := buffer[..], delivered;
        inn, n := TakeSome(buffer, moved);
        TookFilled(old(delivered), was, buffer[..], moved, before, n, delivered);
        moved := moved + n;
      }
    }

    /** Spin until rx_in moves or the host is given up, two looks with a gap between; stuck when the script ends first. */
    method AwaitInput(inn: Slot) returns (stuck: bool)
      requires Live() && inn == rxOut
      modifies this`rxIn, this`popped, this`re, this`deviceRe, this`txOut, this`sent, this`we, this`deviceWe,
               this`hostInactive, this`world, this`book, rxBuf
      ensures Live() && |world| <= |old(world)|
      ensures stuck ==> world == [] && RxRing() == []
      ensures !stuck ==> RxRing() != [] || GaveUp()
    {
      stuck := false;
      var waiting := true;
      while waiting && inn == rxIn
        invariant Live() && |world| <= |old(world)| && (stuck ==> !waiting && inn == rxIn && world == [])
        invariant inn == rxOut && (!waiting ==> stuck || GaveUp())
        decreases waiting, |world|
      {
        var over := world == [];
        Preempt();
        if hostInactive >= timeout {
          waiting := false;
        } else if over {
          waiting, stuck := false, true;
        } else {
          Preempt();
        }
      }
    }

    /** The critical section that ends a read: there is space now, so receive interrupts go on again. */
    method EnableReceive()
      requires Live()
      modifies this`re, this`deviceRe, this`readerOwes
      ensures Live() && re && !readerOwes
    {
      re := true;
      deviceRe := re;
      readerOwes := false;
    }

    /** altera_avalon_jtag_uart_read; StillWaiting is a caller still spinning when the world's script ends. */
    method Read(buffer: array<Byte>, nonBlocking: bool) returns (r: Result, moved: nat)
      requires Live() && !readerOwes && buffer != rxBuf && buffer != txBuf
      modifies this`rxIn, this`popped, this`re, this`deviceRe, this`txOut, this`sent, this`we, this`deviceWe,
               this`hostInactive, this`world, this`book, this`rxOut, this`delivered, this`readerOwes, rxBuf, buffer
      ensures Live() && !readerOwes && |world| <= |old(world)|
      ensures moved <= buffer.Length && Took(old(delivered), buffer[..], moved, delivered)
      ensures moved >= Min(buffer.Length, |old(RxRing())|)
      ensures r == CallResult(moved, nonBlocking, r == StillWaiting)
      ensures r == StillWaiting ==> moved == 0 && !nonBlocking && world == []
      ensures r == IoError && buffer.Length > 0 ==> GaveUp()
      ensures r == StillWaiting || (r == IoError && buffer.Length > 0) ==> RxRing() == [] && re && deviceRe
    {
      var stuck;
      moved, stuck := ReadSome(buffer, nonBlocking);
      EndRead(moved);
      r := CallResult(moved, nonBlocking, stuck);
    }

    /** What follows the loop: if anything was read, receive interrupts go on again. */
    method EndRead(moved: nat)
      requires Live() && readerOwes == (moved > 0)
      modifies this`rxIn, this`popped, this`re, this`deviceRe, this`txOut, this`sent, this`we, this`deviceWe,
               this`hostInactive, this`world, this`book, this`readerOwes, rxBuf
      ensures Live() && !readerOwes && |world| <= |old(world)|
      ensures moved == 0 ==> unchanged(this, rxBuf)
    {
      if moved != 0 {
        EnableReceive();
        Preempt();
      }
    }

    /** The loop of the read routine: until there is something, or reason to give up. */
    method ReadSome(buffer: array<Byte>, nonBlocking: bool) returns (moved: nat, stuck: bool)
      requires Live() && !readerOwes && buffer != rxBuf && buffer != txBuf
      modifies this`rxIn, this`popped, this`re, this`deviceRe, this`txOut, this`sent, this`we, this`deviceWe,
               this`hostInactive, this`world, this`book, this`rxOut, this`delivered, this`readerOwes, rxBuf, buffer
      ensures Live() && |world| <= |old(world)| && readerOwes == (moved > 0)
      ensures moved <= buffer.Length && Took(old(delivered), buffer[..], moved, delivered)
      ensures moved >= Min(buffer.Length, |old(RxRing())|)
      ensures stuck ==> moved == 0 && !nonBlocking && buffer.Length > 0 && world == []
      ensures moved == 0 && !nonBlocking && buffer.Length > 0 ==> RxRing() == [] && (stuck || GaveUp())
    {
      var again := buffer.Length > 0;
      moved, stuck := 0, false;
      while again
        invariant Live() && |world| <= |old(world)| && readerOwes == (moved > 0)
        invariant moved <= buffer.Length && Took(old(delivered), buffer[..], moved, delivered)
        invariant if again then moved == 0 && |old(RxRing())| <= |RxRing()| else moved >= Min(buffer.Length, |old(RxRing())|)
        invariant (again ==> buffer.Length > 0) && (stuck ==> buffer.Length > 0)
        invariant stuck ==> moved == 0 && !again && !nonBlocking && world == []
        invariant !again && moved == 0 && !nonBlocking && buffer.Length > 0 ==> RxRing() == [] && (stuck || GaveUp())
        decreases again, RxRing() == []
      {
        ghost var before := delivered;
        moved, stuck, again := ReadOnce(buffer, nonBlocking);
        assert Took(before, buffer[..], 0, before);
      }
    }

    /** One turn of it: take what there is, and if that is nothing, wait. */
    method ReadOnce(buffer: array<Byte>, nonBlocking: bool) returns (moved: nat, stuck: bool, again: bool)
      requires Live() && !readerOwes && buffer != rxBuf && buffer != txBuf && buffer.Length > 0
      modifies this`rxIn, this`popped, this`re, this`deviceRe, this`txOut, this`sent, this`we, this`deviceWe,
               this`hostInactive, this`world, this`book, this`rxOut, this`delivered, this`readerOwes, rxBuf, buffer
      ensures Live() && |world| <= |old(world)| && readerOwes == (moved > 0)
      ensures moved <= buffer.Length && Took(old(delivered), buffer[..], moved, delivered)
      ensures moved >= Min(buffer.Length, |old(RxRing())|)
      ensures stuck ==> moved == 0 && !again && !nonBlocking && world == []
      ensures again ==> moved == 0 && RxRing() != []
      ensures !again && moved == 0 && !nonBlocking ==> RxRing() == [] && (stuck || GaveUp())
    {
      var inn;
      stuck, again := false, false;
      inn, moved := ReadAvailable(buffer);
      if moved == 0 && !nonBlocking {
        stuck := AwaitInput(inn);
        if !stuck {
          Preempt();
          again := inn != rxIn;
        }
      }
    }

    // ----- in the foreground: writing

    /** How many bytes fit in one piece, judged by a look at tx_out that may be stale when it is used. */
    method FindSpace(count: nat) returns (out: Slot, n: nat)
      requires Live() && count > 0
      modifies this`rxIn, this`popped, this`re, this`deviceRe, this`txOut, this`sent, this`we, this`deviceWe,
               this`hostInactive, this`world, this`book, rxBuf
      ensures Live() && |world| <= |old(world)| && |TxRing()| <= |old(TxRing())|
      ensures n <= count && txIn + n <= BUF_LEN && |TxRing()| + n <= BUF_LEN - 1
      ensures n == 0 ==> |old(TxRing())| == BUF_LEN - 1
      ensures n == 0 ==> Used(txIn, out) == BUF_LEN - 1 && (|world| < |old(world)| || out == txOut)
    {
      var inn := txIn;
      Preempt();
      out := txOut;
      ghost var had := |TxRing()|;
      Preempt();
      n := if inn < out then out - 1 - inn else if out > 0 then BUF_LEN - inn else BUF_LEN - 1 - inn;
      WriteRunIsMaximal(inn, out);
      assert n == WriteRun(inn, out) && had == Used(inn, out);
      if n > count { n := count; }
    }

    /** memcpy into free slots of the transmit ring, byte by byte, interrupts between. */
    method CopyIn(data: seq<Byte>, n: nat)
      requires Live() && n <= |data|
      requires txIn + n <= BUF_LEN && |TxRing()| + n <= BUF_LEN - 1
      modifies this`rxIn, this`popped, this`re, this`deviceRe, this`txOut, this`sent, this`we, this`deviceWe,
               this`hostInactive, this`world, this`book, rxBuf, txBuf
      ensures Live() && |world| <= |old(world)| && |TxRing()| <= |old(TxRing())|
      ensures txBuf[txIn..txIn + n] == data[..n]
    {
      for k := 0 to n
        invariant Live() && |world| <= |old(world)| && |TxRing()| <= |old(TxRing())|
        invariant txBuf[txIn..txIn + k] == data[..k]
      {
        Preempt();
        PutAhead(k, data[k]);
      }
      Preempt();
    }

    /** One byte of the copy, k slots beyond tx_in. */
    method PutAhead(k: nat, b: Byte)
      requires Live() && txIn + k < BUF_LEN && |TxRing()| + k < BUF_LEN - 1
      modifies txBuf
      ensures Live() && TxRing() == old(TxRing())
      ensures txBuf[..] == old(txBuf[..])[txIn + k := b]
    {
      RingElsewhere(txBuf[..], txOut, Used(txIn, txOut), Used(txIn, txOut) + k, b);
      ghost var before := txBuf[..];
      txBuf[txIn + k] := b;
      assert txBuf[..] == before[txIn + k := b];
    }

    /** tx_in moves past n bytes, which the driver now answers for. */
    method Commit(bytes: seq<Byte>)
      requires Live() && bytes != [] && txIn + |bytes| <= BUF_LEN && |TxRing()| + |bytes| <= BUF_LEN - 1
      requires txBuf[txIn..txIn + |bytes|] == bytes
      modifies this`txIn, this`accepted, this`writerOwes, this`book
      ensures Live() && writerOwes && accepted == old(accepted) + bytes && TxRing() == old(TxRing()) + bytes
    {
      var n := |bytes|;
      ghost var ring := TxRing();
      RingAppend(txBuf[..], txOut, Used(txIn, txOut), txIn, bytes);
      Advance(txIn, txOut, n);
      Assoc(sent, ring, bytes);
      ghost var now := Apply(book.now, Given(bytes), timeout);
      EnteredIsKept(book, base, Given(bytes), now, timeout);
      book := Entered(book, Given(bytes), now);
      accepted := accepted + bytes;
      writerOwes := true;
      txIn := (txIn + n) % BUF_LEN;
      assert TxRing() == ring + bytes;
    }

    /** Copy a stretch into the ring and publish it. */
    method PutStretch(bytes: seq<Byte>)
      requires Live() && bytes != [] && txIn + |bytes| <= BUF_LEN && |TxRing()| + |bytes| <= BUF_LEN - 1
      modifies this`rxIn, this`popped, this`re, this`deviceRe, this`txOut, this`sent, this`we, this`deviceWe,
               this`hostInactive, this`world, this`book, this`txIn, this`accepted, this`writerOwes, rxBuf, txBuf
      ensures Live() && |world| <= |old(world)| && accepted == old(accepted) + bytes
      ensures |TxRing()| <= |old(TxRing())| + |bytes|
    {
      CopyIn(bytes, |bytes|);
      Commit(bytes);
      Preempt();
    }

    /** One turn of the copying loop. */
    method GiveSome(data: seq<Byte>) returns (out: Slot, n: nat)
      requires Live() && data != []
      modifies this`rxIn, this`popped, this`re, this`deviceRe, this`txOut, this`sent, this`we, this`deviceWe,
               this`hostInactive, this`world, this`book, this`txIn, this`accepted, this`writerOwes, rxBuf, txBuf
      ensures Live() && |world| <= |old(world)| && Took(old(accepted), data, n, accepted)
      ensures |TxRing()| <= |old(TxRing())| + n
      ensures n == 0 ==> |old(TxRing())| == BUF_LEN - 1 && Used(txIn, out) == BUF_LEN - 1
      ensures n == 0 ==> |world| < |old(world)| || out == txOut
    {
      out, n := FindSpace(|data|);
      if n > 0 { PutStretch(data[..n]); }
    }

    /** The inner loop of the write routine: as much as fits. out is the last look at tx_out. */
    method WriteAvailable(data: seq<Byte>) returns (out: Slot, moved: nat)
      requires Live()
      modifies this`rxIn, this`popped, this`re, this`deviceRe, this`txOut, this`sent, this`we, this`deviceWe,
               this`hostInactive, this`world, this`book, this`txIn, this`accepted, this`writerOwes, rxBuf, txBuf
      ensures Live() && |world| <= |old(world)|
      ensures Took(old(accepted), data, moved, accepted)
      ensures moved >= Min(|data|, BUF_LEN - 1 - |old(TxRing())|)
      ensures moved < |data| ==>
                Used(txIn, out) == BUF_LEN - 1 && (|world| < |old(world)| || out == txOut)
    {
      moved, out := 0, txIn;
      var n: nat := |data|;
      while n > 0 && moved < |data|
        invariant Live() && |world| <= |old(world)| && Took(old(accepted), data, moved, accepted)
        invariant |TxRing()| <= |old(TxRing())| + moved
        invariant n == 0 && moved < |data| ==>
                    moved >= BUF_LEN - 1 - |old(TxRing())| && Used(txIn, out) == BUF_LEN - 1
                    && (|world| < |old(world)| || out == txOut)
        decreases |data| - moved, n > 0
      {
        ghost var before := accepted;
        out, n := GiveSome(data[moved..]);
        TookMore(old(accepted), data, moved, before, n, accepted);
        moved := moved + n;
      }
    }

    /** The critical section of a write: kick the interrupt routine. */
    method EnableTransmit()
      requires Live()
      modifies this`we, this`deviceWe, this`writerOwes
      ensures Live() && we && !writerOwes
    {
      we := true;
      deviceWe := we;
      writerOwes := false;
    }

    /** Spin until tx_out moves or the host is given up, two looks with a gap between; stuck when the script ends first. */
    method AwaitSpace(out: Slot) returns (stuck: bool)
      requires Live()
      modifies this`rxIn, this`popped, this`re, this`deviceRe, this`txOut, this`sent, this`we, this`deviceWe,
               this`hostInactive, this`world, this`book, rxBuf
      ensures Live() && |world| <= |old(world)|
      ensures stuck ==> out == txOut && world == []
      ensures |world| < |old(world)| || stuck || out != old(txOut) || hostInactive >= timeout
    {
      stuck := false;
      var waiting := true;
      while waiting && out == txOut
        invariant Live() && |world| <= |old(world)| && (stuck ==> !waiting && out == txOut && world == [])
        invariant |world| < |old(world)| || stuck || (if waiting then txOut == old(txOut) else hostInactive >= timeout)
        decreases waiting, |world|
      {
        var over := world == [];
        Preempt();
        if hostInactive >= timeout {
          waiting := false;
        } else if over {
          waiting, stuck := false, true;
        } else {
          Preempt();
        }
      }
    }

    /** One turn of the write routine's outer loop, up to the wait: copy what fits, then kick the interrupt routine. */
    method PushAndKick(data: seq<Byte>) returns (out: Slot, n: nat)
      requires Live() && !writerOwes
      modifies this`rxIn, this`popped, this`re, this`deviceRe, this`txOut, this`sent, this`we, this`deviceWe,
               this`hostInactive, this`world, this`book, this`txIn, this`accepted, this`writerOwes, rxBuf, txBuf
      ensures Live() && !writerOwes && |world| <= |old(world)|
      ensures Took(old(accepted), data, n, accepted)
      ensures n >= Min(|data|, BUF_LEN - 1 - |old(TxRing())|)
      ensures n < |data| ==>
                Used(txIn, out) == BUF_LEN - 1 && (|world| < |old(world)| || out == txOut)
    {
      out, n := WriteAvailable(data);
      EnableTransmit();
      Preempt();
    }

    /** Bytes are left over: give up, or wait for space. */
    method WaitForSpace(out: Slot, nonBlocking: bool) returns (next: Next)
      requires Live() && !writerOwes && Used(txIn, out) == BUF_LEN - 1
      modifies this`rxIn, this`popped, this`re, this`deviceRe, this`txOut, this`sent, this`we, this`deviceWe,
               this`hostInactive, this`world, this`book, rxBuf
      ensures Live()
      ensures next.Retry? ==> |world| < |old(world)| || (|world| == |old(world)| && out != old(txOut))
      ensures next.GiveUp? ==> nonBlocking || hostInactive > 0
      ensures !next.Done? && |world| <= |old(world)|
      ensures next.Spin? ==> world == [] && !nonBlocking && |TxRing()| == BUF_LEN - 1 && we && deviceWe
    {
      if nonBlocking { return GiveUp; }
      var stuck := AwaitSpace(out);
      if stuck { return Spin; }
      Preempt();
      return if hostInactive != 0 then GiveUp else Retry;
    }

    /** One turn of the write routine's loop. */
    method WriteOnce(data: seq<Byte>, nonBlocking: bool) returns (n: nat, next: Next)
      requires Live() && !writerOwes
      modifies this`rxIn, this`popped, this`re, this`deviceRe, this`txOut, this`sent, this`we, this`deviceWe,
               this`hostInactive, this`world, this`book, this`txIn, this`accepted, this`writerOwes, rxBuf, txBuf
      ensures Live() && !writerOwes && |world| <= |old(world)| && Took(old(accepted), data, n, accepted)
      ensures n >= Min(|data|, BUF_LEN - 1 - |old(TxRing())|)
      ensures next.Done? <==> n == |data|
      ensures next.Retry? ==> |world| < |old(world)|
      ensures next.GiveUp? ==> nonBlocking || hostInactive > 0
      ensures next.Spin? ==> !nonBlocking && world == [] && |TxRing()| == BUF_LEN - 1 && we && deviceWe
    {
      var out;
      next := Done;
      out, n := PushAndKick(data);
      if n < |data| { next := WaitForSpace(out, nonBlocking); }
    }

    /** altera_avalon_jtag_uart_write; StillWaiting is a caller still spinning when the world's script ends. */
    method Write(data: seq<Byte>, nonBlocking: bool) returns (r: Result, moved: nat)
      requires Live() && !writerOwes
      modifies this`rxIn, this`popped, this`re, this`deviceRe, this`txOut, this`sent, this`we, this`deviceWe,
               this`hostInactive, this`world, this`book, this`txIn, this`accepted, this`writerOwes, rxBuf, txBuf
      ensures Live() && !writerOwes
      ensures Took(old(accepted), data, moved, accepted)
      ensures moved >= Min(|data|, BUF_LEN - 1 - |old(TxRing())|)
      ensures r == CallResult(moved, nonBlocking, r == StillWaiting) && |world| <= |old(world)|
      ensures moved < |data| && !nonBlocking && r != StillWaiting ==> hostInactive > 0
      ensures r == StillWaiting ==> moved < |data| && !nonBlocking
      ensures r == StillWaiting ==> world == [] && |TxRing()| == BUF_LEN - 1 && we && deviceWe
    {
      moved := 0;
      var next := Retry;
      while next.Retry?
        invariant Live() && !writerOwes && |world| <= |old(world)| && Took(old(accepted), data, moved, accepted)
        invariant moved >= Min(|data|, BUF_LEN - 1 - |old(TxRing())|)
                  || (next.Retry? && moved == 0 && |TxRing()| <= |old(TxRing())|)
        invariant (next.Done? ==> moved == |data|) && (next.GiveUp? ==> nonBlocking || hostInactive > 0)
        invariant next.Spin? ==> moved < |data| && !nonBlocking && world == [] && |TxRing()| == BUF_LEN - 1 && we && deviceWe
        decreases next.Retry?, |world|
      {
        ghost var before := accepted;
        var n;
        n, next := WriteOnce(data[moved..], nonBlocking);
        TookMore(old(accepted), data, moved, before, n, accepted);
        moved := moved + n;
      }
      r := CallResult(moved, nonBlocking, next.Spin?);
    }

    /** altera_avalon_jtag_uart_close: wait for the transmit ring to drain unless the host is given up. */
    method Close(nonBlocking: bool) returns (r: Result)
      requires Live()
      modifies this`rxIn, this`popped, this`re, this`deviceRe, this`txOut, this`sent, this`we, this`deviceWe,
               this`hostInactive, this`world, this`book, rxBuf
      ensures Live()
      ensures |world| <= |old(world)| && |TxRing()| <= |old(TxRing())|
      ensures r == Bytes(0) ==> accepted == sent || GaveUp()
      ensures r == WouldBlock ==> nonBlocking && old(TxRing()) != []
      ensures r == StillWaiting ==> !nonBlocking && world == [] && TxRing() != []
      ensures r != IoError && (r.Bytes? ==> r.n == 0)
    {
      r := StillWaiting;
      var waiting := true;
      while waiting && txOut != txIn
        invariant Live() && |world| <= |old(world)| && |TxRing()| <= |old(TxRing())|
        invariant waiting ==> r == StillWaiting
        invariant !waiting ==>
                    || (r == Bytes(0) && GaveUp()) || (r == WouldBlock && nonBlocking && old(TxRing()) != [])
                    || (r == StillWaiting && !nonBlocking && world == [] && TxRing() != [])
        decreases waiting, |world|
      {
        var over := world == [];
        Preempt();
        if hostInactive >= timeout {
          waiting, r := false, Bytes(0);
        } else if nonBlocking {
          waiting, r := false, WouldBlock;
        } else if over {
          waiting := false;
        } else {
          Preempt();
        }
      }
      if waiting { r := Bytes(0); }
    }
  }

  // ----- whole runs

  datatype Call =
    | ReadCall(space: nat, nonBlocking: bool)
    | WriteCall(data: seq<Byte>, nonBlocking: bool)
    | CloseCall(nonBlocking: bool)

  /** What a call returns to its caller, and the bytes it moved. */
  datatype Reply = Reply(r: Result, bytes: seq<Byte>)

  function Read(call: Call, reply: Reply): (bs: seq<Byte>) {
    if call.ReadCall? then reply.bytes else []
  }

  function Wrote(call: Call, reply: Reply): (bs: seq<Byte>) {
    if call.WriteCall? then reply.bytes else []
  }

  /**
   * A reply that the call may give: it moves no fewer bytes than there are, or
   * than there is room for, when it begins (before), and fails only for want
   * of them, a blocking call only after it has seen the host inactive.
   */
  ghost predicate Answers(call: Call, reply: Reply, before: Summary, after: Summary) {
    match call
    case ReadCall(space, nonBlocking) =>
      && Min(space, before.rx) <= |reply.bytes| <= space
      && reply.r == CallResult(|reply.bytes|, nonBlocking, reply.r == StillWaiting)
      && (reply.r == IoError && space > 0 ==> after.gaveUp && after.rx == 0)
      && (reply.r == StillWaiting ==> reply.bytes == [] && !nonBlocking && after.rx == 0)
    case WriteCall(data, nonBlocking) =>
      && reply.bytes <= data && |reply.bytes| >= Min(|data|, BUF_LEN - 1 - before.tx)
      && reply.r == CallResult(|reply.bytes|, nonBlocking, reply.r == StillWaiting)
      && (|reply.bytes| < |data| && !nonBlocking && reply.r != StillWaiting ==> after.inactive > 0)
      && (reply.r == StillWaiting ==> |reply.bytes| < |data| && !nonBlocking && after.tx == BUF_LEN - 1)
    case CloseCall(nonBlocking) =>
      && reply.bytes == []
      && (reply.r == Bytes(0) ==> after.tx == 0 || after.gaveUp)
      && (reply.r == WouldBlock ==> nonBlocking && before.tx > 0)
      && (reply.r == StillWaiting ==> !nonBlocking && after.tx > 0)
      && reply.r != IoError && (reply.r.Bytes? ==> reply.r == Bytes(0))
  }

  /** A call from its beginning to its end: what was so before, what happened, what is so after. */
  datatype Episode = Episode(call: Call, reply: Reply, before: Summary, log: seq<Step>, after: Summary)

  ghost predicate Proper(e: Episode, limit: nat) {
    && Leads(e.before, e.log, e.after, limit) && e.after.lawful
    && Answers(e.call, e.reply, e.before, e.after)
    && e.after.taken == e.before.taken + |Read(e.call, e.reply)|
    && e.after.accepted == e.before.accepted + Wrote(e.call, e.reply)
  }

  /** What answers at some moment answers also what was so before, when the rings had fewer bytes to give and less room. */
  lemma AnswersEarlier(call: Call, reply: Reply, before: Summary, mid: Summary, after: Summary)
    requires Answers(call, reply, mid, after) && before.rx <= mid.rx && mid.tx <= before.tx
    ensures Answers(call, reply, before, after)
  {
  }

  /** The three kinds of call. */
  method ServeRead(uart: Uart, space: nat, nonBlocking: bool) returns (reply: Reply)
    requires uart.Live() && !uart.readerOwes
    modifies uart`rxIn, uart`popped, uart`re, uart`deviceRe, uart`txOut, uart`sent, uart`we, uart`deviceWe,
             uart`hostInactive, uart`world, uart`book, uart`rxOut, uart`delivered, uart`readerOwes, uart.rxBuf
    ensures uart.Live() && !uart.readerOwes && |uart.world| <= |old(uart.world)|
    ensures Answers(ReadCall(space, nonBlocking), reply, old(uart.book.now), uart.book.now)
    ensures uart.delivered == old(uart.delivered) + reply.bytes && (reply.r == StillWaiting ==> uart.world == [])
  {
    var buffer := new Byte[space];
    var r, n := uart.Read(buffer, nonBlocking);
    reply := Reply(r, buffer[..n]);
  }

  method ServeWrite(uart: Uart, data: seq<Byte>, nonBlocking: bool) returns (reply: Reply)
    requires uart.Live() && !uart.writerOwes
    modifies uart`rxIn, uart`popped, uart`re, uart`deviceRe, uart`txOut, uart`sent, uart`we, uart`deviceWe,
             uart`hostInactive, uart`world, uart`book, uart`txIn, uart`accepted, uart`writerOwes, uart.rxBuf, uart.txBuf
    ensures uart.Live() && !uart.writerOwes && |uart.world| <= |old(uart.world)|
    ensures Answers(WriteCall(data, nonBlocking), reply, old(uart.book.now), uart.book.now)
    ensures uart.accepted == old(uart.accepted) + reply.bytes && (reply.r == StillWaiting ==> uart.world == [])
  {
    var r, n := uart.Write(data, nonBlocking);
    reply := Reply(r, data[..n]);
  }

  method ServeClose(uart: Uart, nonBlocking: bool) returns (reply: Reply)
    requires uart.Live()
    modifies uart`rxIn, uart`popped, uart`re, uart`deviceRe, uart`txOut, uart`sent, uart`we, uart`deviceWe,
             uart`hostInactive, uart`world, uart`book, uart.rxBuf
    ensures uart.Live() && |uart.world| <= |old(uart.world)|
    ensures Answers(CloseCall(nonBlocking), reply, old(uart.book.now), uart.book.now)
    ensures reply.bytes == [] && (reply.r == StillWaiting ==> uart.world == [])
  {
    var r := uart.Close(nonBlocking);
    reply := Reply(r, []);
  }

  /** One call. */
  method Serve(uart: Uart, call: Call) returns (reply: Reply)
    requires uart.Live() && !uart.readerOwes && !uart.writerOwes
    modifies uart, uart.rxBuf, uart.txBuf
    ensures uart.Live() && !uart.readerOwes && !uart.writerOwes && uart.base == old(uart.base)
    ensures Answers(call, reply, old(uart.book.now), uart.book.now)
    ensures uart.delivered == old(uart.delivered) + Read(call, reply)
    ensures uart.accepted == old(uart.accepted) + Wrote(call, reply)
    ensures |uart.world| <= |old(uart.world)| && (reply.r == StillWaiting ==> uart.world == [])
  {
    match call
    case ReadCall(space, nonBlocking) => reply := ServeRead(uart, space, nonBlocking);
    case WriteCall(data, nonBlocking) => reply := ServeWrite(uart, data, nonBlocking);
    case CloseCall(nonBlocking) => reply := ServeClose(uart, nonBlocking);
  }

  /** One call, and what happens before it. */
  method Perform(uart: Uart, call: Call) returns (reply: Reply, ghost e: Episode)
    requires uart.Live() && !uart.readerOwes && !uart.writerOwes
    modifies uart, uart.rxBuf, uart.txBuf
    ensures uart.Live() && !uart.readerOwes && !uart.writerOwes
    ensures Proper(e, uart.timeout) && e.call == call && e.reply == reply
    ensures e.before == Afresh(old(uart.book.now), uart.timeout) && e.after == uart.book.now
    ensures uart.delivered == old(uart.delivered) + Read(call, reply)
    ensures uart.accepted == old(uart.accepted) + Wrote(call, reply)
    ensures |uart.world| < |old(uart.world)| || uart.world == []
    ensures reply.r == StillWaiting ==> uart.world == []
  {
    uart.TurnPage();
    uart.Preempt();
    ghost var mid := uart.book.now;
    reply := Serve(uart, call);
    AnswersEarlier(call, reply, uart.base, mid, uart.book.now);
    e := Episode(call, reply, uart.base, uart.book.log, uart.book.now);
  }

  /** The calls in order, each beginning where the one before it ended; only the last may still be waiting. */
  ghost predicate Story(calls: seq<Call>, es: seq<Episode>, limit: nat) {
    |es| <= |calls| && (es != [] ==>
      var i := |es| - 1;
      && Story(calls, es[..i], limit) && !Waits(es[..i])
      && Proper(es[i], limit) && es[i].call == calls[i] && es[i].before == Afresh(Ending(es[..i]), limit))
  }

  /** The last of the calls still waits. */
  ghost predicate Waits(es: seq<Episode>) {
    es != [] && es[|es| - 1].reply.r == StillWaiting
  }

  /** What the story has come to. */
  ghost function Ending(es: seq<Episode>): (s: Summary) {
    if es == [] then START else es[|es| - 1].after
  }

  /** All the bytes that reads returned, call after call. */
  ghost function Got(es: seq<Episode>): (bs: seq<Byte>) {
    if es == [] then [] else Got(es[..|es| - 1]) + Read(es[|es| - 1].call, es[|es| - 1].reply)
  }

  function Replies(es: seq<Episode>): (rs: seq<Reply>)
    ensures |rs| == |es|
  {
    seq(|es|, i requires 0 <= i < |es| => es[i].reply)
  }

  lemma OneMore(calls: seq<Call>, es: seq<Episode>, e: Episode, limit: nat)
    requires Story(calls, es, limit) && |es| < |calls| && !Waits(es)
    requires Proper(e, limit) && e.call == calls[|es|] && e.before == Afresh(Ending(es), limit)
    ensures Story(calls, es + [e], limit) && Ending(es + [e]) == e.after
    ensures Got(es + [e]) == Got(es) + Read(e.call, e.reply) && Replies(es + [e]) == Replies(es) + [e.reply]
  {
    assert (es + [e])[..|es|] == es;
  }

  /**
   * Any sequence of calls from initialisation, under any interrupts. The
   * episodes, one a call, are the whole history of the rings: every step of
   * it was possible, what the world brought is the script as far as it has
   * been played, at least a gap of it for every call, and every call is
   * answered as the rings allow. What the reads returned, call after call,
   * then what waits in the ring, is what the device yielded; what the writes
   * took is what the device was sent, then what waits.
   */
  method Session(calls: seq<Call>, timeout: Seconds, world: seq<seq<Event>>)
    returns (uart: Uart, replies: seq<Reply>, ghost es: seq<Episode>)
    ensures uart.Live() && !uart.readerOwes && !uart.writerOwes
    ensures Story(calls, es, timeout) && Ending(es) == uart.book.now && Ending(es).gaps + uart.world == world
    ensures replies == Replies(es)
    ensures Ending(es).popped == Got(es) + uart.RxRing() && Ending(es).accepted == uart.sent + uart.TxRing()
    ensures |uart.world| + |replies| <= |world| || uart.world == []
    ensures |replies| < |calls| ==> Waits(es) && uart.world == []
  {
    uart := new Uart.Init(timeout, world);
    replies, es := [], [];
    var waiting := false;
    while |replies| < |calls| && !waiting
      invariant uart.Live() && !uart.readerOwes && !uart.writerOwes && fresh(uart) && fresh(uart.rxBuf) && fresh(uart.txBuf)
      invariant uart.timeout == timeout && uart.script == world
      invariant Story(calls, es, timeout) && Ending(es) == uart.book.now && Got(es) == uart.delivered
      invariant replies == Replies(es)
      invariant |uart.world| + |replies| <= |world| || uart.world == []
      invariant waiting == Waits(es) && (waiting ==> uart.world == [])
      decreases |calls| - |replies|, !waiting
    {
      var reply;
      ghost var e;
      reply, e := Perform(uart, calls[|replies|]);
      OneMore(calls, es, e, timeout);
      replies, es := replies + [reply], es + [e];
      waiting := reply.r == StillWaiting;
    }
  }
}
