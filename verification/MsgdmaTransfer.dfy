/**
 * The MSGDMA transfer routines against arbitrary hardware: every register
 * read yields whatever the bus says next. Locks, interrupt state and the
 * number of polls are what is at stake.
 */
module MsgdmaTransfer {
  import opened Options

  datatype Result = Success | NoSpace | NotPermitted | TimedOut | Busy | ErrorMask(mask: nat)

  /** How long a wait may be, in polls. */
  const LAST_COUNT: nat := 5000
  const MOST_POLLS: nat := 5001

  /** STOP_STATE, RESET_STATE, STOPPED_ON_ERROR and STOPPED_ON_EARLY_TERMINATION in the status register. */
  datatype Errors = Errors(stopState: bool, resetState: bool, stoppedOnError: bool, stoppedOnEarly: bool)

  const NO_ERROR := Errors(false, false, false, false)
  const ALL_ERRORS := Errors(true, true, true, true)
  const ERROR_BITS: nat := 0x1E0

  /** The bits of the status register. */
  function Mask(e: Errors): (mask: nat) {
    (if e.stopState then 0x20 else 0) + (if e.resetState then 0x40 else 0)
    + (if e.stoppedOnError then 0x80 else 0) + (if e.stoppedOnEarly then 0x100 else 0)
  }

  /** The dispatcher's control register. */
  datatype Control = Control(stop: bool, reset: bool, stopOnError: bool, stopOnEarly: bool,
                             interrupt: bool, stopDescriptors: bool)

  const STOPPED := Control(false, false, false, false, false, true)

  /** The prefetcher's control register. */
  datatype Prefetcher = Prefetcher(run: bool, poll: bool, reset: bool, interrupt: bool, park: bool)

  /** What one register read shows, whichever register it is. */
  datatype Reg = Reg(readFill: nat, writeFill: nat, busy: bool, full: bool, errors: Errors, control: Control,
                     prefetcher: Prefetcher, pollFrequency: nat)

  datatype Descriptor = Standard(id: int) | Extended(id: int)

  /** What a bounded wait polls for: a free descriptor slot, room in both FIFOs, the end of the transfer. */
  datatype Wait = ForSlot | ForRoom | ForEnd

  /** How a synchronous transfer ends, and how far it came. */
  datatype Outcome = Outcome(r: Result, begun: bool, submitted: bool)

  class Dma {
    const bus: nat -> Reg
    const fifoDepth: nat
    const hasCallback: bool
    /** the user's control setting */
    const userControl: Control

    /** how many register reads there have been, and busy-sleeps */
    var clock: nat
    var sleeps: nat
    var locked: bool
    var irqEnabled: bool
    /** what has been written to the device */
    var control: Control
    var prefetcher: Prefetcher
    var nextDescriptor: nat
    var pollFrequency: Option<nat>
    var written: seq<Descriptor>

    constructor (bus: nat -> Reg, fifoDepth: nat, hasCallback: bool, userControl: Control)
      ensures !locked && irqEnabled && clock == 0 && written == []
      ensures this.bus == bus && this.fifoDepth == fifoDepth && this.userControl == userControl
    {
      this.bus, this.fifoDepth, this.hasCallback, this.userControl := bus, fifoDepth, hasCallback, userControl;
      clock, sleeps, locked, irqEnabled := 0, 0, false, true;
      control, written := STOPPED, [];
      prefetcher, nextDescriptor, pollFrequency := Prefetcher(false, false, false, false, false), 0, None;
    }

    method Iord() returns (r: Reg)
      modifies this`clock
      ensures clock == old(clock) + 1 && r == bus(old(clock))
    {
      r := bus(clock);
      clock := clock + 1;
    }

    /** alt_msgdma_write_standard_descriptor and its extended twin: refuse when the descriptor buffer is full. */
    method WriteDescriptor(d: Descriptor) returns (ok: bool)
      modifies this`clock, this`written
      ensures clock == old(clock) + 1 && ok == !bus(old(clock)).full
      ensures written == if ok then old(written) + [d] else old(written)
    {
      var status := Iord();
      if status.full { return false; }
      written := written + [d];
      return true;
    }

    /** The k-th poll of a wait that starts at clock c finds what it waits for. */
    ghost predicate Hits(wait: Wait, c: nat, k: nat) {
      match wait
      case ForSlot => !bus(c + k).full
      case ForRoom => Room(c + 2 * k)
      case ForEnd => bus(c + k).errors != NO_ERROR || !bus(c + k).busy
    }

    ghost predicate Missed(wait: Wait, c: nat, n: nat) {
      forall k | 0 <= k < n :: !Hits(wait, c, k)
    }

    /** Which of the first n polls is the first to hit. */
    ghost function First(wait: Wait, c: nat, n: nat): (k: Option<nat>)
      ensures k.None? <==> Missed(wait, c, n)
      ensures k.Some? ==> k.value < n && Hits(wait, c, k.value) && Missed(wait, c, k.value)
    {
      if n == 0 then None
      else if First(wait, c, n - 1).Some? then First(wait, c, n - 1)
      else if Hits(wait, c, n - 1) then Some(n - 1) else None
    }

    /** The wait loop around it: at most MOST_POLLS tries, one microsecond apart. */
    method WriteOrTimeOut(d: Descriptor) returns (ok: bool)
      modifies this`clock, this`sleeps, this`written
      ensures old(clock) < clock <= old(clock) + MOST_POLLS && sleeps <= old(sleeps) + MOST_POLLS
      ensures First(ForSlot, old(clock), MOST_POLLS) == if ok then Some(clock - 1 - old(clock)) else None
      ensures written == if ok then old(written) + [d] else old(written)
    {
      var counter := 0;
      while true
        invariant counter <= LAST_COUNT && clock == old(clock) + counter && sleeps == old(sleeps) + counter
        invariant Missed(ForSlot, old(clock), counter) && written == old(written)
        decreases LAST_COUNT - counter
      {
        ok := WriteDescriptor(d);
        assert ok == Hits(ForSlot, old(clock), counter);
        if ok { return; }
        sleeps := sleeps + 1;
        if LAST_COUNT <= counter { return; }
        counter := counter + 1;
      }
    }

    /** Stop the dispatcher and clear its status. */
    method StopDispatcher()
      modifies this`control, this`clock
      ensures control == STOPPED && clock == old(clock) + 1
    {
      control := STOPPED;
      var status := Iord();
    }

    /** Read both fill levels: is neither descriptor buffer full? */
    method ReadLevels() returns (room: bool)
      modifies this`clock
      ensures clock == old(clock) + 2 && room == Room(old(clock))
    {
      var readLevel := Iord();
      var writeLevel := Iord();
      return !(fifoDepth <= writeLevel.writeFill || fifoDepth <= readLevel.readFill);
    }

    /** What a running dispatcher's control register is set to. */
    function Running(interrupt: bool): (r: Control) {
      userControl.(stopOnError := true, stopDescriptors := false, interrupt := interrupt)
    }

    /** Exactly one kind of descriptor must be given. */
    static function Choice(standard: Option<int>, extended: Option<int>): (r: Option<Descriptor>) {
      if standard.Some? && extended.None? then Some(Standard(standard.value))
      else if standard.None? && extended.Some? then Some(Extended(extended.value))
      else None
    }

    /** Both fill levels, from one read each, leave room. */
    predicate Room(c: nat) {
      bus(c).readFill < fifoDepth && bus(c + 1).writeFill < fifoDepth
    }

    /** The descriptor write of both transfers: one of two waits, or none for a conflict of types. */
    method Submit(standard: Option<int>, extended: Option<int>) returns (r: Result)
      modifies this`clock, this`sleeps, this`written
      ensures r == Submission(old(clock), Choice(standard, extended))
      ensures clock <= old(clock) + MOST_POLLS && sleeps <= old(sleeps) + MOST_POLLS
      ensures r == Success ==> clock == Submitted(old(clock))
      ensures written == if r == Success then old(written) + [Choice(standard, extended).value] else old(written)
    {
      if standard.Some? && extended.None? {
        var ok := WriteOrTimeOut(Standard(standard.value));
        if !ok { return TimedOut; }
      } else if standard.None? && extended.Some? {
        var ok := WriteOrTimeOut(Extended(extended.value));
        if !ok { return TimedOut; }
      } else {
        return NotPermitted;
      }
      return Success;
    }

    /** How a submission that starts at clock c ends. */
    ghost function Submission(c: nat, choice: Option<Descriptor>): (r: Result) {
      if choice.None? then NotPermitted else if Missed(ForSlot, c, MOST_POLLS) then TimedOut else Success
    }

    /** The clock at which a successful submission that starts at clock c is over. */
    ghost function Submitted(c: nat): (r: nat)
      requires !Missed(ForSlot, c, MOST_POLLS)
    {
      c + First(ForSlot, c, MOST_POLLS).value + 1
    }

    ghost function AsyncOutcome(c: nat, choice: Option<Descriptor>): (r: Result) {
      if !Room(c) then NoSpace else Submission(c + 3, choice)
    }

    /**
     * alt_msgdma_descriptor_async_transfer. Whatever the hardware answers, the
     * lock is released and the interrupt state is what it was; but only a
     * success leaves the dispatcher running again.
     */
    method AsyncTransfer(standard: Option<int>, extended: Option<int>) returns (r: Result)
      requires !locked
      modifies this
      ensures !locked && irqEnabled == old(irqEnabled)
      ensures clock <= old(clock) + 3 + MOST_POLLS && sleeps <= old(sleeps) + MOST_POLLS
      ensures r == AsyncOutcome(old(clock), Choice(standard, extended))
      ensures written == if r == Success then old(written) + [Choice(standard, extended).value] else old(written)
      ensures control == if r == NoSpace then old(control) else if r == Success then Running(hasCallback) else STOPPED
    {
      var room := ReadLevels();
      if !room { return NoSpace; }
      locked := true;
      var context := irqEnabled;
      irqEnabled := false;
      StopDispatcher();
      irqEnabled := context;
      r := Submit(standard, extended);
      if r != Success {
        locked := false;
        return;
      }
      context := irqEnabled;
      irqEnabled := false;
      control := Running(hasCallback);
      irqEnabled := context;
      locked := false;
    }

    // ----- synchronous

    /** Wait for room in the descriptor FIFO: the first look, then as many again. */
    method WaitForRoom() returns (ok: bool, ghost k: nat)
      modifies this`clock, this`sleeps
      ensures clock == old(clock) + 2 * k + 2 && k < MOST_POLLS && sleeps <= old(sleeps) + MOST_POLLS
      ensures First(ForRoom, old(clock), MOST_POLLS) == if ok then Some(k) else None
    {
      var counter := 0;
      var room := ReadLevels();
      while !room
        invariant counter <= LAST_COUNT && clock == old(clock) + 2 * counter + 2 && sleeps == old(sleeps) + counter
        invariant room == Hits(ForRoom, old(clock), counter) && Missed(ForRoom, old(clock), counter)
        decreases LAST_COUNT - counter
      {
        sleeps := sleeps + 1;
        if LAST_COUNT <= counter { return false, counter; }
        counter := counter + 1;
        room := ReadLevels();
      }
      return true, counter;
    }

    /** Wait for the transfer to end, one way or the other. */
    method WaitForEnd() returns (ok: bool, failed: bool)
      modifies this`clock, this`sleeps
      ensures old(clock) < clock <= old(clock) + MOST_POLLS && sleeps <= old(sleeps) + MOST_POLLS
      ensures First(ForEnd, old(clock), MOST_POLLS) == if ok then Some(clock - 1 - old(clock)) else None
      ensures ok ==> failed == (bus(clock - 1).errors != NO_ERROR)
    {
      var counter := 0;
      var status := Iord();
      while status.errors == NO_ERROR && status.busy
        invariant counter <= LAST_COUNT && clock == old(clock) + counter + 1 && sleeps == old(sleeps) + counter
        invariant status == bus(clock - 1) && Missed(ForEnd, old(clock), counter)
        invariant Hits(ForEnd, old(clock), counter) == (status.errors != NO_ERROR || !status.busy)
        decreases LAST_COUNT - counter
      {
        sleeps := sleeps + 1;
        if LAST_COUNT <= counter { return false, false; }
        counter := counter + 1;
        status := Iord();
      }
      return true, status.errors != NO_ERROR;
    }

    /** What a submitted transfer ends in, when the wait for it starts at clock c. */
    ghost function Ending(c: nat): (r: Result) {
      match First(ForEnd, c, MOST_POLLS)
      case None => TimedOut
      case Some(k) => if bus(c + k).errors != NO_ERROR then ErrorMask(ERROR_BITS) else Success
    }

    lemma HitAtOnce(wait: Wait, c: nat)
      requires Hits(wait, c, 0)
      ensures First(wait, c, MOST_POLLS) == Some(0)
    {
    }

    /** A device that shows room, a free slot and an error at the first look for each ends the transfer with the error. */
    lemma ErrorAtOnce(c: nat, choice: Option<Descriptor>)
      requires Hits(ForRoom, c, 0) && Hits(ForSlot, c + 3, 0) && bus(c + 4).errors != NO_ERROR && choice.Some?
      ensures SyncOutcome(c, choice) == Outcome(ErrorMask(ERROR_BITS), true, true)
    {
      HitAtOnce(ForRoom, c);
      HitAtOnce(ForSlot, c + 3);
      assert Hits(ForEnd, c + 4, 0);
      HitAtOnce(ForEnd, c + 4);
    }

    /** When the wait ends on an error, the mask returned is what the deciding read shows if and only if that shows all four bits. */
    lemma ReportIsExactIff(c: nat)
      requires Ending(c).ErrorMask?
      ensures var shown := bus(c + First(ForEnd, c, MOST_POLLS).value).errors;
              shown != NO_ERROR && (Ending(c).mask == Mask(shown) <==> shown == ALL_ERRORS)
    {
    }

    /** What the bus makes of a synchronous transfer that starts at clock c. */
    ghost function SyncOutcome(c: nat, choice: Option<Descriptor>): (r: Outcome) {
      match First(ForRoom, c, MOST_POLLS)
      case None => Outcome(TimedOut, false, false)
      case Some(k) =>
        var c1 := c + 2 * k + 3;
        if Submission(c1, choice) != Success then Outcome(Submission(c1, choice), true, false)
        else Outcome(Ending(Submitted(c1)), true, true)
    }

    /**
     * alt_msgdma_descriptor_sync_transfer. The lock is released on every exit
     * and each of the three waits is bounded; but interrupts stay disabled
     * exactly when the routine has found room and the descriptor could not be
     * submitted. A device error is reported by the constant mask of all error
     * bits, whichever of them was set.
     */
    method SyncTransfer(standard: Option<int>, extended: Option<int>) returns (r: Result, ghost o: Outcome)
      requires !locked
      modifies this
      ensures !locked
      ensures o == SyncOutcome(old(clock), Choice(standard, extended)) && r == o.r
      ensures irqEnabled == (old(irqEnabled) && (o.begun ==> o.submitted))
      ensures clock <= old(clock) + 4 * MOST_POLLS + 3 && sleeps <= old(sleeps) + 3 * MOST_POLLS
      ensures written == if o.submitted then old(written) + [Choice(standard, extended).value] else old(written)
      ensures !o.begun ==> control == old(control)
      ensures o.begun && !o.submitted ==> control == STOPPED
      ensures o.submitted && r != Success ==> control == Running(false)
      ensures r == Success ==> clock >= 2 && control == bus(clock - 2).control.(stopDescriptors := true)
    {
      o := SyncOutcome(clock, Choice(standard, extended));
      var ok, k := WaitForRoom();
      r := TimedOut;
      if ok { r := StartTransfer(standard, extended); }
      if r == Success { r := Conclude(); }
    }

    /** Take the lock, stop the dispatcher, submit, and start it again; after a failure only the lock is given back. */
    method StartTransfer(standard: Option<int>, extended: Option<int>) returns (r: Result)
      modifies this`clock, this`sleeps, this`control, this`irqEnabled, this`locked, this`written
      ensures r == Submission(old(clock) + 1, Choice(standard, extended))
      ensures locked == (r == Success) && irqEnabled == (old(irqEnabled) && r == Success)
      ensures clock <= old(clock) + MOST_POLLS + 1 && sleeps <= old(sleeps) + MOST_POLLS
      ensures r == Success ==> clock == Submitted(old(clock) + 1)
      ensures written == if r == Success then old(written) + [Choice(standard, extended).value] else old(written)
      ensures control == if r == Success then Running(false) else STOPPED
    {
      locked := true;
      var context := irqEnabled;
      irqEnabled := false;
      StopDispatcher();
      r := Submit(standard, extended);
      if r != Success {
        locked := false;
        return;
      }
      control := Running(false);
      irqEnabled := context;
    }

    /** The transfer is on its way: wait for its end, and after a success stop the dispatcher again. */
    method Conclude() returns (r: Result)
      modifies this`clock, this`sleeps, this`control, this`irqEnabled, this`locked
      ensures !locked && irqEnabled == old(irqEnabled) && r == Ending(old(clock))
      ensures clock <= old(clock) + MOST_POLLS + 2 && sleeps <= old(sleeps) + MOST_POLLS
      ensures r != Success ==> control == old(control)
      ensures r == Success ==> clock >= 2 && control == bus(clock - 2).control.(stopDescriptors := true)
    {
      var done, failed := WaitForEnd();
      if !done {
        locked := false;
        return TimedOut;
      }
      if failed {
        locked := false;
        return ErrorMask(ERROR_BITS);
      }
      var now := Iord();
      var context := irqEnabled;
      irqEnabled := false;
      control := now.control.(stopDescriptors := true);
      var status := Iord();
      irqEnabled := context;
      locked := false;
      return Success;
    }

    ghost predicate Found(wait: Wait, c: nat, k: nat) {
      k < MOST_POLLS && Hits(wait, c, k) && Missed(wait, c, k)
    }

    /**
     * Interrupts are left disabled exactly when some look finds room, and from
     * there on no try of the submission finds a free slot, or the caller gave
     * not exactly one descriptor.
     */
    lemma LeftDisabledIff(c: nat, choice: Option<Descriptor>)
      ensures var o := SyncOutcome(c, choice);
              o.begun && !o.submitted <==>
                exists k: nat :: Found(ForRoom, c, k) && (choice.None? || Missed(ForSlot, c + 2 * k + 3, MOST_POLLS))
    {
      forall k: nat, m: nat | Found(ForRoom, c, k) && Found(ForRoom, c, m) ensures k == m {
        assert k < m ==> !Hits(ForRoom, c, k);
        assert m < k ==> !Hits(ForRoom, c, m);
      }
      var first := First(ForRoom, c, MOST_POLLS);
      if first.Some? {
        assert Found(ForRoom, c, first.value);
      }
    }

    // ----- prefetcher

    /** Stop the dispatcher and set both control registers, interrupts off for each. */
    method Arm(read: Prefetcher) returns (ctl: Prefetcher)
      modifies this`control, this`prefetcher, this`irqEnabled, this`clock
      ensures irqEnabled == old(irqEnabled) && clock == old(clock) + 1
      ensures ctl == read.(interrupt := hasCallback) && control == Running(hasCallback) && prefetcher == ctl
    {
      var context := irqEnabled;
      irqEnabled := false;
      StopDispatcher();
      irqEnabled := context;
      ctl := read.(interrupt := hasCallback);
      context := irqEnabled;
      irqEnabled := false;
      control := Running(hasCallback);
      prefetcher := ctl;
      irqEnabled := context;
    }

    /** alt_msgdma_start_prefetcher_with_list_addr: refuses a prefetcher that runs, otherwise starts it on the list. */
    method StartPrefetcher(listAddr: nat, park: bool, poll: bool) returns (r: Result)
      requires !locked
      modifies this
      ensures !locked && irqEnabled == old(irqEnabled) && clock <= old(clock) + 3
      ensures r == if bus(old(clock)).prefetcher.run then Busy else Success
      ensures r == Busy ==>
                && control == old(control) && prefetcher == old(prefetcher)
                && nextDescriptor == old(nextDescriptor) && pollFrequency == old(pollFrequency)
      ensures r == Success ==>
                && control == Running(hasCallback) && nextDescriptor == listAddr
                && prefetcher == Prefetcher(true, poll, bus(old(clock)).prefetcher.reset, hasCallback, park)
                && pollFrequency == if poll && bus(old(clock) + 2).pollFrequency == 0 then Some(0xFF) else old(pollFrequency)
    {
      locked := true;
      var read := Iord();
      var ctl := read.prefetcher;
      if ctl.run {
        locked := false;
        return Busy;
      }
      ctl := Arm(ctl);
      Launch(listAddr, ctl, park, poll);
      locked := false;
      return Success;
    }

    /** The list's address, the two mode bits, a default poll frequency if there is none, and the run bit last. */
    method Launch(listAddr: nat, pfc: Prefetcher, park: bool, poll: bool)
      modifies this`clock, this`prefetcher, this`nextDescriptor, this`pollFrequency
      ensures clock <= old(clock) + 1 && nextDescriptor == listAddr
      ensures prefetcher == pfc.(park := park, poll := poll, run := true)
      ensures pollFrequency == if poll && bus(old(clock)).pollFrequency == 0 then Some(0xFF) else old(pollFrequency)
    {
      nextDescriptor := listAddr;
      var ctl := pfc.(park := park, poll := poll);
      if poll {
        var frequency := Iord();
        if frequency.pollFrequency == 0 { pollFrequency := Some(0xFF); }
      }
      prefetcher := ctl.(run := true);
    }
  }

  /** A device that has stopped on an error and shows that one bit is reported with all four. */
  method OneErrorReported() returns (r: Result)
    ensures r == ErrorMask(0x1E0) && Mask(Errors(false, false, true, false)) == 0x80
  {
    var shown := Errors(false, false, true, false);
    var reg := Reg(0, 0, true, false, shown, STOPPED, Prefetcher(false, false, false, false, false), 0);
    var dma := new Dma(_ => reg, 8, false, STOPPED);
    dma.ErrorAtOnce(0, Some(Standard(1)));
    ghost var o;
    r, o := dma.SyncTransfer(Some(1), None);
  }
}
