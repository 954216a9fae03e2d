# Models of an 8x8 systolic NPU and of the Nios II support code around it

Dafny models of this repository's matrix multiplier, from the generator script
and the committed RTL to the host code that feeds it, and of the concurrent and
pointer-based cores of its board support package. `dafny verify dfyconfig.toml`
checks everything. Nothing here executes the original programs.

## The multiplier

- `SystolicNetlist.dfy` is `gen_unrolled_systolic.py` as loops that append
  lines of a netlist, for every size N. `SystolicRun.dfy` gives the lines their
  clocked meaning and proves latency, product, valid alignment and weight
  loading for every input stream. The generator instantiates a `mac_pe` whose
  port list differs from the one in `rtl/`; the body of that PE is not part of
  the repository. `SystolicRun.Holds` states the one assumption about it: x and
  valid pass through a register, `y_out` takes `y_in + weight * x_in`, and the
  weight takes `x_in` under `load_weight`. Runs start after reset.
- The committed `rtl/` core is a different design, with valid/ready handshakes
  in both directions and a shadow and an active weight per PE.
  `ElasticCore.dfy` is that circuit; `ElasticMultiply.dfy` proves that it refines
  a single stallable pipeline of rows and weight beats, and exactly when it does
  not, `ElasticLoad.dfy` that loading, draining and latching put the right
  weights in place, `LatchDelay.dfy` how long the drain has to be,
  `BeatBehindRow.dfy` what a beat does to a row that still waits.
- `StreamCtrl.dfy` is the output FIFO and serializer, `NpuUnit.dfy` the two
  together, `NpuDrain.dfy` their progress, `NpuPackets.dfy` the packets of whole
  batches.
- `HostPacking.dfy` is the host's packing, parsing and CPU product.
  `EndToEnd.dfy` composes all of it. Whether the read DMA reverses the bytes of
  a beat as the write DMA does is not stated by the source; the theorems hold
  for both (`swapped`), because reversing the lanes of both operands leaves
  every dot product alone.

## The board support package

- `JtagUart.dfy`: reader, writer, interrupt and timeout routine over two rings
  (`Rings.dfy`). `Preempt` stands between any two foreground statements outside
  the critical sections, between the two looks of a waiting loop and between
  calls, and plays the next gap of an arbitrary script of interrupts; a spinning
  caller whose script ends returns `StillWaiting`. What has happened to the rings
  is kept as a history whose steps `UartWorld.dfy` defines. Device rule: a data
  register read without RVALID has RAVAIL zero.
- `AlarmTime.dfy`: deadlines over the wrapping tick counter. `AlarmList.dfy`: the
  walk of the linked list while callbacks start and stop alarms, proved to
  compute the tick that `AlarmWalk.dfy` defines on values; `AlarmRuns.dfy` proves
  what that means for the alarms. A scripted action that would start a listed
  alarm, or unlink the saved successor, is not taken: the source leaves those to
  the callers. A callback may stop its own alarm and start it anew.
- `FdPool.dfy`: descriptors and exclusive locks, the flags changed as bits of a
  word. `DescriptorList.dfy`: MSGDMA descriptor rings. `MsgdmaTransfer.dfy`:
  transfers against arbitrary hardware.
- `LogPrintf.dfy`, `WallClock.dfy`, `CacheFlush.dfy`: number printing, time of
  day, cache ranges.

## Where the code and its comments differ

The models follow the code.

- `alt_fd_lock.c:43-45` promises a lock only to a sole user; the scan stops
  below `alt_max_fd` and can miss one (`FdPool.LockNeedNotBeSole`).
- `alt_fd_lock.c:47` has close release a lock; for descriptors 0 to 2 it does
  not (`FdPool.CloseKeepsLock`).
- `altera_msgdma.c:522-523` invites callers to look at the bits of the returned
  error; the value returned is the constant mask of all four bits, which is what
  the status register shows only when it shows all four
  (`MsgdmaTransfer.Dma.ReportIsExactIff`, `MsgdmaTransfer.OneErrorReported`).
- `altera_msgdma.c` leaves interrupts disabled on three exits of the synchronous
  transfer (`MsgdmaTransfer.Dma.LeftDisabledIff`), and the dispatcher stopped on
  every refused or timed-out submission.
- `seq_busy`, which the host polls before latching weights, has no driver in
  `rtl/npu_unit.v`, so the unit enforces no wait. A latch works for every matrix
  exactly when 2N-2 silent clocks precede it (`LatchDelay.UnitDelayIff`);
  `LatchDelay.UnitTooSoon` is a run from reset in which it does not.
- `rtl/mac_pe.v:54-80` loads a weight without regard to its stalled sum. A beat
  that reaches the last column behind a row that waits there clears that row's
  sum; that is the only way a row is lost (`ElasticMultiply.RefinesIff`,
  `BeatBehindRow.RowIsLost`).
- `alt_alarm_start` with the largest interval fires on the next tick, unless the
  counter is at its last value (`AlarmTime.StartIsExactIff`).
- `alt_settod.c:83-84` multiplies in 32 bits what `alt_gettod.c:93` multiplies
  in 64 (`WallClock.ExactIff`).

## Model

| member | source | states |
|---|---|---|
| SystolicNetlist.GenSystolicArray | scripts/gen_unrolled_systolic.py:28-56 | the three loops emit exactly the lines that give every x_wire, y_wire, v_wire, PE output and output slice its one source, each line once, for every N |
| SystolicNetlist.GenPeRow | scripts/gen_unrolled_systolic.py:40-56 | one pass of the PE loop emits exactly the N PE instances of its row |
| SystolicNetlist.GenSystolicCore | scripts/gen_unrolled_systolic.py:86-162 | skew, array connection and de-skew loops emit exactly the core's assignments and register updates, each once |
| SystolicNetlist.GenSkewRow | scripts/gen_unrolled_systolic.py:93-117 | a skew row is exactly its i-stage chains of x, valid and load registers and their exits |
| SystolicNetlist.ConnectArray | scripts/gen_unrolled_systolic.py:120-134 | the instance connects exactly the skewed inputs, y_in and the two un-skewed outputs |
| SystolicNetlist.GenDeskewColumn | scripts/gen_unrolled_systolic.py:139-162 | a column is delayed by N-1-j stages, by none when that is zero |
| SystolicNetlist.DriversAreUnique | scripts/gen_unrolled_systolic.py:28-162 | no two emitted lines drive the same signal, within a module or across them |
| SystolicNetlist.DriverOf | scripts/gen_unrolled_systolic.py:28-162 | every signal that must be driven has an emitted line that drives it |
| SystolicNetlist.DrivenExactlyOnce | scripts/gen_unrolled_systolic.py:28-162 | in the emitted text every wire, register and output slice has exactly one driver |
| SystolicRun.PeStep | scripts/gen_unrolled_systolic.py:42-55 | the assumed step of one PE at its place in the mesh, as every run obeys it |
| SystolicRun.SkewDelay | scripts/gen_unrolled_systolic.py:93-111 | stage k of row i shows what entered the row k+1 clocks before |
| SystolicRun.RowEntry | scripts/gen_unrolled_systolic.py:86-128 | row i of the array sees x, valid and load i clocks after the core's pins |
| SystolicRun.RowShift | scripts/gen_unrolled_systolic.py:40-54 | the element of row i reaches column j exactly j clocks later, valid with it |
| SystolicRun.ColumnSum | scripts/gen_unrolled_systolic.py:35-54 | at row i of column j the partial sum of the row that entered at t stands at clock t+i+j, wrapped |
| SystolicRun.DeskewDelay | scripts/gen_unrolled_systolic.py:145-158 | stage k of column j shows the array's output of k+1 clocks before |
| SystolicRun.ColumnExit | scripts/gen_unrolled_systolic.py:139-161 | every column leaves the core at t+2N-1, whatever its own delay |
| SystolicRun.ProductAtFixedLatency | scripts/gen_unrolled_systolic.py:28-162 | for every N and every input stream, all columns of the row of clock t leave together at t+2N-1 and equal y_in sampled at t+j plus row times weights, modulo the accumulator |
| SystolicRun.ValidMarksItsRow | scripts/gen_unrolled_systolic.py:30-161 | valid_out[j] at t+2N-1 is valid_in[j] at t, although valid leaves by rows and data by columns |
| SystolicRun.LoadedWeight | scripts/gen_unrolled_systolic.py:40-55 | with load high on all rows for N clocks, PE (i,j) keeps the element of beat N-1-j for good, although load reaches a whole row at once |
| SystolicRun.LoadThenMultiply | scripts/gen_unrolled_systolic.py:28-162 | weights streamed column-reversed, then rows: every row from the next clock on is multiplied by exactly those weights |
| SystolicRun.RunExists | scripts/gen_unrolled_systolic.py:28-162 | the netlist has a run for every input stream, so the results above are not about nothing |
| ElasticMultiply.FireIff | rtl/mac_pe.v:48-62 | under any valid and ready, a PE multiplies (loads) exactly when the row (beat) in front of it enters its pipeline place and that place is not stalled |
| ElasticMultiply.PeStep | rtl/mac_pe.v:43-96 | one clock of a PE carries its share of the pipeline slot: x, partial sum modulo 2^32 and both valid bits |
| ElasticMultiply.SkewStep | rtl/systolic_core.v:39-86 | one clock of a skew register carries its share of the slot |
| ElasticMultiply.DeskewStep | rtl/systolic_core.v:123-159 | one clock of a de-skew register carries its share of the slot |
| ElasticMultiply.OutputOf | rtl/systolic_core.v:161-171 | valid_out is high exactly when the last place holds a row, and y_out is that row times the weights |
| ElasticMultiply.ClockRefines | rtl/systolic_core.v:39-171 | the whole mesh with its two-way handshakes refines one stallable pipeline of rows and weight beats, clock by clock, for every N, unless a beat stands behind a row that waits in the last column |
| ElasticMultiply.BeatClearsRow | rtl/mac_pe.v:43-85 | such a beat is taken and clears the waiting row's sum in the last column |
| ElasticMultiply.RefinesIff | rtl/mac_pe.v:43-96 | so a clock without a latch is a step of the pipeline if and only if no beat stands there |
| ElasticMultiply.OfferTakenIff | rtl/systolic_core.v:33-58 | ready_out on an offered row or beat is high exactly when all rows of the mesh take their element together |
| ElasticMultiply.PlacesConserve | rtl/systolic_core.v:39-166 | one step of that pipeline neither loses, repeats nor reorders a row |
| ElasticMultiply.RowsSurvive | rtl/systolic_core.v:15-171 | over any run of rows and weight beats, any valid and any stalls in which no beat comes to stand there: rows delivered, then products of rows in flight, are the products of the rows taken, in order |
| ElasticMultiply.ReadyRunIsSafe | rtl/mac_pe.v:48-62 | a consumer that stays ready makes every such run safe |
| ElasticMultiply.NothingLostOrRepeated | rtl/systolic_core.v:15-171 | the same for rows alone, under every pattern of valid and ready and without further condition |
| ElasticMultiply.DrainEmpties | rtl/systolic_core.v:39-166 | 2N-1 clocks with a ready consumer and no new row leave nothing inside |
| ElasticLoad.LoadFires | rtl/mac_pe.v:54-62 | while loading, a PE shifts exactly when a beat stands in front of it, and never multiplies |
| ElasticLoad.LoadPeStep | rtl/mac_pe.v:75-85 | one clock of a PE's shadow register as a stage of its row's shift register |
| ElasticLoad.LoadRun | rtl/systolic_core.v:39-171 | load beats are all accepted at once, gaps change nothing, and nothing comes out |
| ElasticLoad.LatchActivates | rtl/mac_pe.v:75-78 | after 2N-2 silent clocks, one latch pulse makes the last N beats the active weights, last beat in column 0 |
| ElasticLoad.LatchTakes | rtl/mac_pe.v:75-85 | drained or not, a latch makes active in each PE its share of the beat j behind the last that has come so far |
| LatchDelay.DelayIff | rtl/systolic_core.v:15-171 | for every N: a latch after d silent clocks makes every loaded matrix active if and only if d is at least 2N-2 |
| LatchDelay.TooSoon | rtl/mac_pe.v:75-85 | with fewer, zeros then ones leave the last PE with a zero, from any idle core |
| ElasticLoad.LoadLatchMultiply | rtl/systolic_core.v:15-171 | load, 2N-2 silent clocks, latch, multiply: what is delivered is the product of the accepted rows with the loaded matrix |
| StreamCtrl.QueueStep | rtl/npu_stream_ctrl.v:68-113 | the circular buffer with its three registers is a queue, also when push and pop coincide |
| StreamCtrl.UnsentStep | rtl/npu_stream_ctrl.v:115-153 | the shift register sends the flits of the popped row, lowest first, and reloads without a gap |
| StreamCtrl.ClockConserves | rtl/npu_stream_ctrl.v:93-159 | per clock: flit sent, then what is pending, is what was pending, then the row pushed |
| StreamCtrl.NoFlitLost | rtl/npu_stream_ctrl.v:68-163 | for every ready pattern, flits sent and pending are the rows taken, cut in four, in order |
| StreamCtrl.CountStep | rtl/npu_stream_ctrl.v:126-135 | the row tracker follows the flit count modulo the sequence length |
| StreamCtrl.PacketMarks | rtl/npu_stream_ctrl.v:165-169 | a packet opens exactly every 4*total flits and closes exactly on the flit before the next opens |
| NpuUnit.ResetIsIdle | rtl/npu_stream_ctrl.v:98-106 | after reset the unit is idle and holds nothing |
| NpuUnit.RowsCross | rtl/npu_unit.v:135-152 | every row the core hands over enters the FIFO, and nothing else does |
| NpuUnit.RowsAreProducts | rtl/npu_unit.v:135-152 | rows in the FIFO, then rows inside the core, are the rows taken times the weights, weight beats among them or not |
| NpuUnit.StreamComputesProduct | rtl/npu_unit.v:96-152 | flits sent, pending and inside are exactly the products of the rows taken, under any stalls on either side, with weight beats between and behind the rows as long as none catches up with a waiting row |
| BeatBehindRow.RowIsLost | rtl/npu_unit.v:96-152 | from any ready unit, ten rows and a beat against a consumer that is not ready for 24 clocks: all are taken, and however long one waits then, only nine rows leave the core |
| NpuUnit.LoadMakesReady | rtl/npu_unit.v:135-152 | load beats with any gaps, 2N-2 silent clocks, one latch pulse: nothing is sent and the loaded matrix is active |
| LatchDelay.UnitTooSoon | rtl/npu_unit.v:135-152 | from reset, with at most 2N-3 silent clocks, the unit multiplies by a weight that was not loaded |
| LatchDelay.UnitDelayIff | rtl/npu_unit.v:135-152 | the unit multiplies by the loaded matrix, whatever it is, if and only if the latch waits 2N-2 silent clocks |
| NpuDrain.WeightStep | rtl/systolic_core.v:39-166 | a pipeline step never adds to the clocks still needed, and takes one off every row when the consumer is ready |
| NpuDrain.DrainClock | rtl/npu_unit.v:96-152 | every clock with a ready consumer brings the unit nearer to empty |
| NpuDrain.EveryRowComesOut | rtl/npu_unit.v:96-152 | 239 such clocks after any run, every flit of every accepted row's product has been sent once, in order |
| NpuDrain.ReadyAgain | rtl/npu_unit.v:96-152 | and the unit is idle again with its weights, ready for the next batch or load |
| NpuDrain.OfferIsTaken | rtl/npu_unit.v:96-152 | however full the unit, a row offered to it with a ready consumer is taken within what the shift register holds and one clock, at most five |
| NpuDrain.NextRowIsTaken | rtl/npu_unit.v:96-152 | so after any run of rows the next row is in within five clocks |
| NpuPackets.RunsJoin | rtl/npu_stream_ctrl.v:115-163 | flits and marks of one run, then of the next, are those of the two runs as one |
| NpuPackets.BatchIsOnePacket | rtl/npu_stream_ctrl.v:126-169 | a batch of as many rows as seq_total_rows is exactly one packet, marks on its first and last flit only, and the next batch opens a new one |
| HostPacking.OrOfDisjoint | linux_software/npu_test/main.c:121-124 | C's bitwise or of bytes shifted to different places is their sum |
| HostPacking.PackRow | linux_software/npu_test/main.c:117-125 | the two words of a beat hold the row's eight signed chars, byte k in lane k |
| HostPacking.PackColumn | linux_software/npu_test/main.c:135-142 | the same for a column |
| HostPacking.FormatInputs | linux_software/npu_test/main.c:115-129 | beat r of the region carries row r, and no other word changes |
| HostPacking.FormatWeights | linux_software/npu_test/main.c:131-146 | beat t of the region carries column 7-t, and no other word changes |
| HostPacking.BswapTwice | linux_software/npu_test/main.c:153 | the byte swap undoes itself |
| HostPacking.ParseOutput | linux_software/npu_test/main.c:148-157 | element (r,c) is the byte-swapped word at column c with its lowest bit flipped |
| HostPacking.CpuMatmul | linux_software/npu_test/main.c:441-451 | the CPU's result is the matrix product |
| HostPacking.SumsInRange | linux_software/npu_test/main.c:441-451 | no partial sum of signed chars leaves the signed 32-bit range |
| EndToEnd.DotReversed | software/npu/main.c:49-64 | a dot product over reversed lanes is the same sum from the other end |
| EndToEnd.WeightBeats | software/npu/main.c:49-64 | the packed weight region streams the columns in the order the array needs, in either lane order |
| EndToEnd.BatchesConcatenate | linux_software/npu_test/main.c:520-523 | batches packed one after the other are one packed batch |
| EndToEnd.StoredWordIsSwapped | software/npu/main.c:70-75 | a 64-bit beat stored byte-reversed reads back as its two words swapped in place and in bytes |
| EndToEnd.ParsedElement | software/npu/main.c:67-79 | parsing undoes that store: word (r,c) is element c of result row r |
| EndToEnd.NpuMatchesCpu | linux_software/npu_test/main.c:460-575 | for all signed-char matrices, any number of input rows, any gaps and stalls, either lane order: what is parsed equals the CPU's 32-bit result, no CPU sum overflows, and with seq_total_rows set to the rows the batch is exactly one packet |
| EndToEnd.GeneratedCoreMatchesCpu | linux_software/npu_test/main.c:460-575 | the same for the generated core fed on consecutive clocks with y_in zero |
| Rings.ReadRunIsMaximal | software/npu_bsp/drivers/src/altera_avalon_jtag_uart_read.c:122-134 | a read run is all the bytes there are up to the end of the buffer |
| Rings.WriteRunIsMaximal | software/npu_bsp/drivers/src/altera_avalon_jtag_uart_write.c:105-120 | the three free-space cases give all free slots but one up to the end of the buffer: a full ring never looks empty |
| JtagUart.Uart.Store | software/npu_bsp/drivers/src/altera_avalon_jtag_uart_init.c:149-150 | a byte popped from the device goes to the back of the receive ring |
| JtagUart.Uart.Send | software/npu_bsp/drivers/src/altera_avalon_jtag_uart_init.c:176-178 | the byte at the front of the transmit ring goes to the device |
| JtagUart.Uart.Receive | software/npu_bsp/drivers/src/altera_avalon_jtag_uart_init.c:125-167 | exactly the bytes of the reads made are appended, up to an empty device or a full ring, and receive interrupts are masked exactly when the last read said more |
| JtagUart.Uart.Transmit | software/npu_bsp/drivers/src/altera_avalon_jtag_uart_init.c:169-195 | min(space, ring) bytes are sent and transmit interrupts are masked exactly when space is left over |
| JtagUart.Uart.Turn | software/npu_bsp/drivers/src/altera_avalon_jtag_uart_init.c:117-196 | one turn: what it receives, sends and masks |
| JtagUart.Uart.Irq | software/npu_bsp/drivers/src/altera_avalon_jtag_uart_init.c:117-196 | the turns up to an idle control register: their bytes are appended, each reading turn runs to an empty device or a full ring, and the transmit ring shrinks by min(space, ring) a turn |
| JtagUart.Uart.PassGap | software/npu_bsp/drivers/src/altera_avalon_jtag_uart_init.c:111-225 | what a gap's interrupts and seconds do, one after the other, is what the history says |
| JtagUart.Uart.Preempt | software/npu_bsp/drivers/src/altera_avalon_jtag_uart_init.c:111-225 | what may happen between two foreground statements: the next gap of the script goes into the history, the receive ring only grows, the transmit ring only shrinks |
| JtagUart.Uart.Timeout | software/npu_bsp/drivers/src/altera_avalon_jtag_uart_init.c:203-225 | host_inactive counts seconds without activity, saturating, and the enable bits are rewritten unchanged |
| JtagUart.Uart.Init | software/npu_bsp/drivers/src/altera_avalon_jtag_uart_init.c:66-100 | empty rings, receive interrupts on, transmit interrupts off |
| JtagUart.Uart.CopyOut | software/npu_bsp/drivers/src/altera_avalon_jtag_uart_read.c:136 | a byte-wise copy with interrupts between the bytes still delivers the ring's prefix: no slot being copied is overwritten |
| JtagUart.Uart.Release | software/npu_bsp/drivers/src/altera_avalon_jtag_uart_read.c:137-140 | advancing rx_out hands exactly the copied bytes over |
| JtagUart.Uart.FindStretch | software/npu_bsp/drivers/src/altera_avalon_jtag_uart_read.c:122-134 | a stretch found with a stale rx_in is still there |
| JtagUart.Uart.ReadAvailable | software/npu_bsp/drivers/src/altera_avalon_jtag_uart_read.c:120-142 | the copying loop delivers the ring's bytes in order across the wrap, at least all that were there, and stops short only on an empty ring |
| JtagUart.Uart.Read | software/npu_bsp/drivers/src/altera_avalon_jtag_uart_read.c:100-203 | the returned count is exactly the bytes delivered, in order, and at least min(space, bytes in the ring); a blocked reader always finds an empty ring and receive interrupts enabled; an error means the host was inactive for as long as the limit says |
| JtagUart.Uart.FindSpace | software/npu_bsp/drivers/src/altera_avalon_jtag_uart_write.c:105-120 | space found with a stale tx_out is still free |
| JtagUart.Uart.PutAhead | software/npu_bsp/drivers/src/altera_avalon_jtag_uart_write.c:122 | a byte copied into a free slot changes neither ring |
| JtagUart.Uart.Commit | software/npu_bsp/drivers/src/altera_avalon_jtag_uart_write.c:123-126 | advancing tx_in appends exactly the copied bytes |
| JtagUart.Uart.WriteAvailable | software/npu_bsp/drivers/src/altera_avalon_jtag_uart_write.c:103-127 | the copying loop accepts a prefix of the data, at least what is free, and stops short only on a ring seen full |
| JtagUart.Uart.Write | software/npu_bsp/drivers/src/altera_avalon_jtag_uart_write.c:83-215 | a positive result is exactly the number of bytes enqueued, at least min(data, free slots); a blocked writer always finds a full ring and transmit interrupts enabled |
| JtagUart.Uart.Close | software/npu_bsp/drivers/src/altera_avalon_jtag_uart_init.c:241-254 | close returns success only when everything accepted was sent or the host was inactive up to the limit; refuses only when bytes wait |
| JtagUart.Perform | software/npu_bsp/drivers/src/altera_avalon_jtag_uart_write.c:83-215 | a call is one episode of the history: it answers as the rings allow and moves exactly the bytes it reports, no fewer than there is room or data for when it begins, and fails when blocking only after an inactive host |
| JtagUart.Session | software/npu_bsp/drivers/src/altera_avalon_jtag_uart_read.c:100-203 | over any calls and any script of interrupts: the episodes are the whole history of the rings, what the world brought is the script as far as it was played, at least a gap a call; the bytes the reads returned plus the ring are the bytes the device yielded, the prefixes the writes took are the bytes sent plus the ring |
| AlarmTime.TickIsExact | software/npu_bsp/HAL/src/alt_tick.c:109-138 | against an unbounded clock the one-bit flag is exact: an alarm expires at the tick it is set for and at no other |
| AlarmTime.ArmedWaits | software/npu_bsp/HAL/src/alt_alarm_start.c:80-96 | arming sets the time nticks+1 ahead, across a wrap |
| AlarmTime.StartIsExactIff | software/npu_bsp/HAL/src/alt_alarm_start.c:80-96 | the first callback comes exactly nticks+1 ticks after the start if and only if nticks is below 2^32-1 or the counter is at its last value; otherwise it comes on the next tick |
| AlarmTime.FiringsKeepSchedule | software/npu_bsp/HAL/src/alt_tick.c:96-141 | over any number of ticks and wraps, callbacks come at the sums of the returned periods: never early, late or drifting |
| LinkedRing.Insert | software/npu_bsp/HAL/inc/sys/alt_llist.h:90-98 | the entry becomes the first element of a well-formed ring |
| LinkedRing.Remove | software/npu_bsp/HAL/inc/sys/alt_llist.h:105-117 | the entry leaves the ring, and removing it again changes nothing |
| AlarmList.AlarmSystem.StopAlarm | software/npu_bsp/HAL/src/alt_tick.c:66-73 | the list is the old one without the alarm, the rest in order |
| AlarmList.AlarmSystem.StartAlarm | software/npu_bsp/HAL/src/alt_alarm_start.c:64-112 | error results without a clock or an alarm, otherwise listed first with the fields arming gives |
| AlarmList.AlarmSystem.Act | software/npu_bsp/HAL/src/alt_tick.c:117 | a lawful start or stop inside a callback changes the list and the times as on values, and the saved successor is still the next alarm |
| AlarmList.AlarmSystem.Fire | software/npu_bsp/HAL/src/alt_tick.c:117-138 | the callback, whatever it starts and stops, its own alarm included, then out of the list or set one period on |
| AlarmList.AlarmSystem.Visit | software/npu_bsp/HAL/src/alt_tick.c:102-140 | one turn of the loop is one turn of the walk on values; the successor saved before the callback is the next alarm after it |
| AlarmList.AlarmSystem.Tick | software/npu_bsp/HAL/src/alt_tick.c:87-141 | the alarms called, the list and all times after the tick are exactly those of the walk on values, and the ring stays well formed |
| AlarmWalk.WalkServes | software/npu_bsp/HAL/src/alt_tick.c:99-141 | an alarm that no callback stops is called once if expired and not otherwise, stays listed unless its callback returned zero, and has the times that says |
| AlarmWalk.FiredGrows | software/npu_bsp/HAL/src/alt_tick.c:99-141 | only alarms listed when the tick began are called, none twice |
| AlarmWalk.WalkTimely | software/npu_bsp/HAL/src/alt_tick.c:105-138 | after the walk everybody listed is set for its due clock, those dealt with, those started meanwhile and those restarted |
| AlarmWalk.PostponedIsExact | software/npu_bsp/HAL/src/alt_tick.c:126-138 | an alarm that its own callback started anew is put off from its new time, as long as 32 bits can express that |
| AlarmRuns.TickIsGood | software/npu_bsp/HAL/src/alt_tick.c:87-141 | a tick keeps the list duplicate-free and everybody set for the right clock, and calls listed alarms once each |
| AlarmRuns.TickServes | software/npu_bsp/HAL/src/alt_tick.c:99-141 | an alarm that nobody stops is called if and only if its clock has come; not called it keeps its place and due time, called it is due one period on |
| AlarmRuns.TickKeepsOrder | software/npu_bsp/HAL/inc/sys/alt_llist.h:90-117 | the list after a tick is the alarms started during it, then old ones; those neither stopped nor retired keep their order |
| AlarmRuns.TickBringsNoOther | software/npu_bsp/HAL/src/alt_tick.c:99-141 | only a start brings an alarm into the list |
| AlarmRuns.TickRetires | software/npu_bsp/HAL/src/alt_tick.c:119-124 | a callback that returns zero takes its alarm out, unless a later callback starts it again |
| AlarmRuns.CallsKeepSchedule | software/npu_bsp/HAL/src/alt_tick.c:96-141 | over any ticks and foreground starts and stops, an alarm nobody stops is called exactly at its due clock and at the sums of the returned periods, across wraps |
| AlarmRuns.StartedKeepsSchedule | software/npu_bsp/HAL/src/alt_alarm_start.c:78-99 | an alarm started between ticks is first called exactly nticks+1 ticks later, and then on that schedule |
| AlarmList.AlarmSystem.Foreground | software/npu_bsp/HAL/src/alt_alarm_start.c:64-112 | a start or stop between ticks changes the list as on values |
| AlarmList.Session | software/npu_bsp/HAL/src/alt_tick.c:87-141 | the linked list after any run of ticks, starts and stops is the run on values, so its results hold of the code |
| FdPool.Pool.GetFd | software/npu_bsp/HAL/src/alt_get_fd.c:77-100 | the lowest free descriptor and the high-water mark, or EMFILE with nothing changed |
| FdPool.Pool.ReleaseFd | software/npu_bsp/HAL/src/alt_release_fd.c:44-51 | frees a descriptor above the standard streams |
| FdPool.Pool.FileLocked | software/npu_bsp/HAL/src/alt_open.c:72-91 | finds a holder among the other descriptors exactly when there is one in reach |
| FdPool.Verdict | software/npu_bsp/HAL/src/alt_open.c:79-91 | and every holder is in reach |
| FdPool.Pool.OpenFile | software/npu_bsp/HAL/src/alt_open.c:105-171 | lowest free descriptor with clean marks; the exact error otherwise, EACCES for a held device; a failed open leaves the descriptors as they were |
| FdPool.Pool.Close | software/npu_bsp/HAL/src/alt_close.c:64-101 | frees the descriptor and with it the lock, except for a standard stream |
| FdPool.Pool.Lock | software/npu_bsp/HAL/src/alt_fd_lock.c:54-75 | granted exactly when the scan below alt_max_fd finds no other user |
| FdPool.HolderKeepsInv | software/npu_bsp/HAL/src/alt_fd_lock.c:61-69 | granting keeps the invariant: whoever the scan left out has a higher index |
| FdPool.Pool.Ioctl | software/npu_bsp/HAL/src/alt_ioctl.c:106-168 | lock and unlock only for devices, every other request goes to the driver |
| FdPool.Pool.SetFlags | software/npu_bsp/HAL/src/alt_fcntl.c:86-92 | changes two flag bits, never the lock or device mark |
| FdPool.Pool.Redirect | software/npu_bsp/HAL/src/alt_io_redirect.c:58-72 | a stream takes over the new descriptor's device without a lock exactly when the open can succeed, else stays as it was; nobody else changes |
| FdPool.InvGivesOneHolder | software/npu_bsp/HAL/src/alt_fd_lock.c:37-52 | no device has two holders |
| FdPool.LockIsSoleIff | software/npu_bsp/HAL/src/alt_fd_lock.c:61-69 | a granted lock means sole use if and only if the descriptor the scan skips is the holder or another device's |
| FdPool.LockNeedNotBeSole | software/npu_bsp/HAL/src/alt_fd_lock.c:61-69 | a run from reset in which a lock is granted although a second descriptor uses the device |
| FdPool.CloseKeepsLock | software/npu_bsp/HAL/src/alt_fd_lock.c:47-49 | a run from reset: a standard stream redirected, locked and closed; an open of the device then gives EACCES |
| FdPool.Boot | software/npu_bsp/HAL/src/alt_io_redirect.c:85-94 | each stream has its new device with clean marks exactly when that was found and its driver opened it, else the null device |
| FdPool.Perform | software/npu_bsp/HAL/src/alt_ioctl.c:106-168 | each call returns what its pool demands and leaves exactly the pool it should |
| FdPool.Session | software/npu_bsp/HAL/src/alt_io_redirect.c:85-94 | from boot, over any calls: the streams are redirected as the drivers answer, every call is answered as it should be, and between any two calls at most one holder per device |
| FdPool.HeldIsNotOpened | software/npu_bsp/HAL/src/alt_open.c:79-91 | in such a run every open of a device that is held at that moment fails and changes no descriptor |
| FdPool.LockLasts | software/npu_bsp/HAL/src/alt_fd_lock.c:37-52 | a lock lasts until its descriptor is unlocked or, above the standard streams, closed |
| FdPool.FlagsOfWord | software/npu_bsp/HAL/src/alt_fd_lock.c:69 | the flags can be read back from their word |
| FdPool.WithLock | software/npu_bsp/HAL/src/alt_fd_lock.c:69 | or-ing the lock bit in sets the lock and nothing else |
| FdPool.AsDevice | software/npu_bsp/HAL/src/alt_open.c:72 | or-ing the device bit in sets the mark and nothing else |
| FdPool.Opened | software/npu_bsp/HAL/src/alt_open.c:139 | the flags given to open set neither mark |
| FdPool.WithoutLock | software/npu_bsp/HAL/src/alt_fd_unlock.c:54 | clearing the lock bit clears the lock and nothing else |
| FdPool.Updated | software/npu_bsp/HAL/src/alt_fcntl.c:89-90 | the fcntl update reaches neither mark |
| DescriptorList.AppendedIsRing | software/npu_bsp/drivers/src/altera_msgdma.c:1095-1099 | relinking the last node and the new one lengthens the ring by one at its end |
| DescriptorList.SelfLinked | software/npu_bsp/drivers/src/altera_msgdma.c:1069-1092 | a self-linked descriptor is in no ring but its own, so the duplicate check inside the walk can only repeat the root check |
| DescriptorList.Memory.LastStandard | software/npu_bsp/drivers/src/altera_msgdma.c:1083-1094 | the walk ends, at the last node or on a descriptor already in the list |
| DescriptorList.Memory.AddStandard | software/npu_bsp/drivers/src/altera_msgdma.c:1059-1100 | succeeds exactly for a self-linked descriptor not yet listed, yields the old ring plus it and changes no other field; otherwise changes nothing |
| DescriptorList.Memory.LastExtended | software/npu_bsp/drivers/src/altera_msgdma.c:1132-1152 | the same walk over pointers split in two words |
| DescriptorList.Memory.AddExtended | software/npu_bsp/drivers/src/altera_msgdma.c:1102-1161 | the same append over split pointers |
| DescriptorList.SameWords | software/npu_bsp/drivers/src/altera_msgdma.c:1137-1149 | comparing the two words is comparing the addresses |
| DescriptorList.MarkedOnce | software/npu_bsp/drivers/src/altera_msgdma.c:1190-1214 | the marking visits every node once and leaves the rest of memory alone |
| DescriptorList.OwnedSetsTheBit | software/npu_bsp/drivers/src/altera_msgdma.c:1195-1213 | sets or clears bit 30 |
| DescriptorList.OwnedKeepsTheRest | software/npu_bsp/drivers/src/altera_msgdma.c:1195-1213 | keeps every other control bit |
| DescriptorList.Memory.OwnStandard | software/npu_bsp/drivers/src/altera_msgdma.c:1173-1224 | marks the ring, last node to software on request, counts its nodes and keeps its links |
| DescriptorList.Memory.OwnExtended | software/npu_bsp/drivers/src/altera_msgdma.c:1236-1293 | the same over split pointers |
| MsgdmaTransfer.Dma.WriteDescriptor | software/npu_bsp/drivers/src/altera_msgdma.c:101-123 | refused exactly when the status read shows a full buffer |
| MsgdmaTransfer.Dma.WriteOrTimeOut | software/npu_bsp/drivers/src/altera_msgdma.c:396-445 | at most 5001 polls; succeeds at the first that shows a free slot, fails exactly when none does |
| MsgdmaTransfer.Dma.AsyncTransfer | software/npu_bsp/drivers/src/altera_msgdma.c:347-502 | for any hardware: bounded, lock released and interrupt state restored on every exit, the result a function of what was read; only a success leaves the dispatcher running |
| MsgdmaTransfer.Dma.WaitForRoom | software/npu_bsp/drivers/src/altera_msgdma.c:549-569 | at most 5001 looks; ends at the first that finds room, gives up exactly when none does |
| MsgdmaTransfer.Dma.WaitForEnd | software/npu_bsp/drivers/src/altera_msgdma.c:669-693 | at most 5001 polls; ends at the first that shows an idle device or an error, gives up exactly when none does |
| MsgdmaTransfer.Dma.StartTransfer | software/npu_bsp/drivers/src/altera_msgdma.c:571-665 | lock, stop, submit, start: a failure gives the lock back but neither the interrupts nor the dispatcher |
| MsgdmaTransfer.Dma.Conclude | software/npu_bsp/drivers/src/altera_msgdma.c:667-734 | the end of the transfer as the first decisive read shows it, lock released and interrupts restored |
| MsgdmaTransfer.Dma.SyncTransfer | software/npu_bsp/drivers/src/altera_msgdma.c:527-734 | bounded and lock released on every exit; begun, submitted and the result, a device error being the constant mask, are fixed by what the bus shows; interrupts are left disabled exactly when it has begun and not submitted |
| MsgdmaTransfer.Dma.LeftDisabledIff | software/npu_bsp/drivers/src/altera_msgdma.c:571-665 | that is, exactly when some look finds room and then no try finds a free slot or the caller gave not exactly one descriptor |
| MsgdmaTransfer.Dma.ReportIsExactIff | software/npu_bsp/drivers/src/altera_msgdma.c:696-706 | the error mask returned is what the deciding read shows if and only if that shows all four error bits |
| MsgdmaTransfer.OneErrorReported | software/npu_bsp/drivers/src/altera_msgdma.c:544-547 | a device that shows one error bit is reported with all four |
| MsgdmaTransfer.Dma.StartPrefetcher | software/npu_bsp/drivers/src/altera_msgdma.c:1333-1456 | refuses a running prefetcher with nothing changed, otherwise sets list, modes and run bit; lock and interrupt state restored |
| LogPrintf.CountDigits | software/npu_bsp/HAL/src/alt_log_printf.c:236-244 | digit count and largest place value, which never passes the word |
| LogPrintf.PlaceBounds | software/npu_bsp/HAL/src/alt_log_printf.c:236-244 | no place value reached exceeds the number |
| LogPrintf.PrintDigits | software/npu_bsp/HAL/src/alt_log_printf.c:276-291 | the digits printed are the number in positional notation, in the conversion's case |
| LogPrintf.FieldParses | software/npu_bsp/HAL/src/alt_log_printf.c:246-274 | sign and either padding parse back to the number |
| LogPrintf.PrintInteger | software/npu_bsp/HAL/src/alt_log_printf.c:195-300 | for every word, width and conversion: parses back to the value, no needless digit, length max(width, digits + sign) |
| WallClock.Elapsed | software/npu_bsp/HAL/src/alt_gettod.c:91-93 | seconds and leftover microseconds of n ticks add up to n tick lengths |
| WallClock.WrapIsHarmlessIff | software/npu_bsp/HAL/src/alt_settod.c:83-84 | the 32-bit product is harmless exactly when 15625 divides what it loses |
| WallClock.SetThenGet | software/npu_bsp/HAL/src/alt_settod.c:72-96 | a read before the counter wraps returns exactly the time set plus the ticks since, normalised; the clamp is out of reach |
| WallClock.ExactIff | software/npu_bsp/HAL/src/alt_settod.c:82-84 | all reads before the counter wraps are exact if and only if the set tick is such |
| WallClock.UnfaithfulReadIsOff | software/npu_bsp/HAL/src/alt_settod.c:83-84 | otherwise an immediate read already differs |
| WallClock.WrapGoesBack | software/npu_bsp/HAL/src/alt_gettod.c:91-112 | a read after the counter has wrapped is 2^32 ticks behind |
| WallClock.SmallTicksAreFaithful | software/npu_bsp/HAL/src/alt_settod.c:83-84 | a product below 2^32 suffices |
| WallClock.ReadsAreMonotone | software/npu_bsp/HAL/src/alt_gettod.c:91-112 | later reads are never earlier |
| WallClock.Clock.GetTime | software/npu_bsp/HAL/src/alt_gettod.c:89-123 | the two loops and the clamp compute the normal form |
| WallClock.Clock.SetTime | software/npu_bsp/HAL/src/alt_settod.c:75-95 | whatever normal time is set, all reads up to the counter's wrap show it plus the ticks since if and only if the tick of the setting is faithful |
| WallClock.UnfaithfulReadIsOffLater | software/npu_bsp/HAL/src/alt_settod.c:83-84 | at an unfaithful tick every time set reads wrong one second later |
| WallClock.SetPassGet | software/npu_bsp/HAL/src/alt_gettod.c:89-123 | set, let ticks pass, get: exactly the time set and those ticks, when the setting tick is faithful |
| CacheFlush.DcacheFlush | software/npu_bsp/HAL/src/alt_dcache_flush.c:46-70 | every line that meets the range is flushed, and at most one line beyond it |
| CacheFlush.IcacheFlush | software/npu_bsp/HAL/src/alt_icache_flush.c:42-84 | even with the length cut to the cache size, every index the range maps to is flushed |

## Left out

- SystolicRun.LoadThenMultiply: the PE body is an assumption, see above, and reset clocks are not modelled.
- ElasticMultiply.NothingLostOrRepeated: y_in is zero, as npu_unit ties it, and sums are modulo 2^32.
- EndToEnd.NpuMatchesCpu: takes as given that the read DMA streams the packed regions in address order and that the write DMA stores the flits in order; the DMA cores and npu_ctrl's registers are not modelled.
- JtagUart.Uart.Read: single foreground thread; the uC/OS-II semaphores and event flags are not modelled.
- AlarmRuns.CallsKeepSchedule: an alarm started with an interval that cannot be expressed carries no timing claim; AlarmTime.StartIsExactIff says what happens to it.
- FdPool.Pool.OpenFile: name lookup and the driver's open callback are parameters, and the callback does not touch the pool.
- FdPool.Session: calls on descriptors that are not open are left out of the runs; the source does not guard against them.
- DescriptorList.Memory.AddStandard: addresses are taken to fit the 32-bit next pointer, as they do on Nios II.
- DescriptorList.Memory.OwnStandard: the cache flush of a non-contiguous list is only counted.
- MsgdmaTransfer.Dma.AsyncTransfer: registers are records of their fields; the write-one-to-clear of the status register has no effect in the model, because the next read is arbitrary anyway.
- LogPrintf.PrintInteger: the integer conversions with flag and width already parsed; %c, %s and the format scanner are not modelled.
- WallClock.SetThenGet: tick rates divide a million, and tv_sec is unbounded.
- CacheFlush.DcacheFlush: ranges that wrap around the address space are not modelled.
- Menus, timing reports, mmap, DMA register pushes in the two main.c files: input and output only.
- Small driver variants, uC/OS-II branches, direct drivers: not in this configuration.
- Syscall stubs, boot, exceptions, flash and DMA wrappers: no property beyond one branch.
