/**
 The sampling firmware itself: the interrupt handlers and the main loop, updating their shared
 variables in place. Handlers may run between any two steps of the main loop; every execution is
 a run of the transition system, so what is proved of runs holds of it.
 */
module SamplingFirmware {
  import opened Words
  import opened Sampling
  import opened SamplingInvariant

  lemma {:induction false} RunDetermined(states: seq<State>, states': seq<State>, acts: seq<Action>, i: nat)
    requires IsRun(states, acts) && IsRun(states', acts) && states[0] == states'[0] && i < |states|
    ensures states[i] == states'[i]
    decreases i
  {
    if i == 0 {
    } else {
      RunDetermined(states, states', acts, i - 1);
      assert states[i] == Step(states[i - 1], acts[i - 1]) == states'[i];
    }
  }

  lemma PointerSet(states: seq<State>, acts: seq<Action>)
    requires IsRun(states, acts)
    ensures states[|acts|].timer.uif ==> states[|acts|].ring.raddr >= 0
  {
    RunKeeps(states, acts, |acts|);
  }

  lemma PacketFits(states: seq<State>, acts: seq<Action>)
    requires IsRun(states, acts)
    ensures states[|acts|].pc.ClearSent? ==> PacketBytes(states[|acts|].pc.p) <= PACKET_BYTES
  {
    RunKeeps(states, acts, |acts|);
  }

  class Firmware {
    const i2cBuf: array<u16>
    const sendPkt: array<u16>
    var cfg: Config
    var wr: u8
    var rd: u8
    var raddr: int
    var timerFlg: bool
    var sendErr: u8
    var allRd: u32
    var packetSent: bool
    var rx: Option<Command>
    // the timer and the endpoint
    var running: bool
    var uif: bool
    var epValid: bool
    var pma: Packet

    ghost var pc: Pc
    ghost var hist: History
    ghost var trace: seq<State>
    ghost var acts: seq<Action>

    ghost function View(): State
      reads this, i2cBuf, sendPkt
    {
      State(pc, cfg, Ring(i2cBuf[..], wr, rd, raddr), Timer(timerFlg, sendErr, running, uif),
            Usb(packetSent, epValid, pma), sendPkt[..], allRd, rx, hist)
    }

    /** The execution so far is a run that ends in the present state. */
    ghost predicate Valid()
      reads this, i2cBuf, sendPkt
    {
      i2cBuf != sendPkt && IsRun(trace, acts) && trace[|acts|] == View() && WellFormed(View())
    }

    /** The execution has gone on from run `tr`, `ac` by `n` actions at least. (First state and
        actions determine a run: RunDetermined.) */
    ghost predicate Extends(tr: seq<State>, ac: seq<Action>, n: nat)
      reads this
    {
      |tr| > 0 && |trace| > 0 && trace[0] == tr[0] && ac <= acts && |acts| >= |ac| + n
    }

    /** What the handlers leave alone. */
    twostate predicate MainOwned()
      reads this, i2cBuf, sendPkt
    {
      && pc == old(pc) && cfg == old(cfg) && rd == old(rd) && allRd == old(allRd) && timerFlg == old(timerFlg)
      && sendPkt[..] == old(sendPkt[..])
      && (old(packetSent) ==> packetSent)
      && Extends(old(trace), old(acts), 0)
    }

    /** Action `a` has just been carried out, starting from the last recorded state. */
    ghost method Record(s: State, a: Action)
      requires i2cBuf != sendPkt && IsRun(trace, acts) && trace[|acts|] == s
      requires WellFormed(s) && Enabled(s, a) && View() == Step(s, a)
      modifies `trace, `acts
      ensures Valid() && Extends(old(trace), old(acts), 1) && acts == old(acts) + [a]
    {
      RunExtends(trace, acts, a);
      trace, acts := trace + [View()], acts + [a];
    }

    // ---------- interrupts ----------

    method TimerTicks()
      requires Valid() && running
      modifies this
      ensures Valid() && MainOwned()
    {
      ghost var s := View();
      uif := true;
      Record(s, Tick);
    }

    method GetNewRegData(ok: bool, value: u16)
      requires i2cBuf != sendPkt && WellFormed(View()) && timerFlg && raddr >= 0
      modifies this, i2cBuf
      ensures View() == if ok then ReadOk(old(View()), value) else ReadFailed(old(View()))
      ensures trace == old(trace) && acts == old(acts)
    {
      ghost var s := View();
      var slot := wr;
      wr := (wr + 1) % RING;
      if ok {
        i2cBuf[slot] := value;
        raddr := raddr + 1;
        if raddr > MAX_READ_REGS - 1 || cfg.rd[raddr].dev == 0 {
          raddr := 0;
        }
      } else {
        running := false;
        sendErr := 2;
      }
      hist := Attempt(s, if ok then Some(Sample(RegAt(s), value)) else None);
    }

    method TIM2_IRQHandler(ok: bool, value: u16, again: bool)
      requires Valid() && uif
      modifies this, i2cBuf
      ensures Valid() && MainOwned()
    {
      ghost var s := View();
      PointerSet(trace, acts);
      HandleUpdate(ok, value, again);
      Record(s, TimerIrq(ok, value, again));
    }

    /** Acknowledges the event and, if sampling is allowed, takes a sample. */
    method HandleUpdate(ok: bool, value: u16, again: bool)
      requires i2cBuf != sendPkt && WellFormed(View()) && raddr >= 0
      modifies this, i2cBuf
      ensures View() == TimerIrqStep(old(View()), ok, value, again)
      ensures trace == old(trace) && acts == old(acts)
    {
      uif := again && running;
      if timerFlg {
        GetNewRegData(ok, value);
      }
    }

    method EP1_IN_Callback()
      requires Valid() && epValid
      modifies this
      ensures Valid() && MainOwned()
    {
      ghost var s := View();
      epValid := false;
      packetSent := true;
      hist := HostTakes(s).hist;
      Record(s, InDone);
    }

    method EP3_OUT_Callback(cmd: Command)
      requires Valid() && AcceptableCommand(cmd)
      modifies this
      ensures Valid() && MainOwned()
    {
      ghost var s := View();
      rx := Some(cmd);
      Record(s, OutReceived(cmd));
    }

    /** Any number of handlers run, with any bus results, ticks and host actions. */
    method Interrupts()
      requires Valid()
      modifies this, i2cBuf
      ensures Valid() && MainOwned()
    {
      var n: nat := *;
      while n > 0
        invariant Valid() && MainOwned()
      {
        var which: int := *;
        if which == 0 && running {
          TimerTicks();
        } else if which == 1 && uif {
          var ok: bool, value: u16, again: bool := *, *, *;
          TIM2_IRQHandler(ok, value, again);
        } else if which == 2 && epValid {
          EP1_IN_Callback();
        } else if which == 3 {
          var cmd: Command :| AcceptableCommand(cmd);
          EP3_OUT_Callback(cmd);
        }
        n := n - 1;
      }
    }

    // ---------- the main loop ----------

    method FlushI2CBuf()
      modifies this
      ensures View() == old(View()).(ring := Flush(old(View()).ring))
      ensures trace == old(trace) && acts == old(acts)
    {
      var r := timerFlg;
      timerFlg := false;
      raddr := 0;
      wr := 0;
      rd := 0;
      timerFlg := r;
    }

    // The three steps of CDC_Send_DATA, each after any interrupts.

    method ClearSentFlag(p: Packet)
      requires Valid() && pc == ClearSent(p)
      modifies this, i2cBuf
      ensures Valid() && pc == FillMemory(p) && Extends(old(trace), old(acts), 1)
    {
      Interrupts();
      PacketFits(trace, acts);
      ghost var s := View();
      packetSent := false;
      pc := FillMemory(p);
      Record(s, Main(true));
    }

    method CopyToMemory(p: Packet)
      requires Valid() && pc == FillMemory(p)
      modifies this, i2cBuf
      ensures Valid() && pc == MarkValid(p) && Extends(old(trace), old(acts), 1)
    {
      Interrupts();
      ghost var s := View();
      pma := p;
      pc := MarkValid(p);
      Record(s, Main(true));
    }

    method SetTxValid(ghost p: Packet)
      requires Valid() && pc == MarkValid(p)
      modifies this, i2cBuf
      ensures Valid() && pc == AfterSend(p) && Extends(old(trace), old(acts), 1)
    {
      Interrupts();
      ghost var s := View();
      epValid := true;
      pc := AfterSend(p);
      Record(s, Main(true));
    }

    method CDC_Send_DATA(p: Packet) returns (sent: bool)
      requires Valid() && pc == ClearSent(p)
      modifies this, i2cBuf
      ensures Valid() && sent && pc == AfterSend(p) && Extends(old(trace), old(acts), 1)
    {
      PacketFits(trace, acts);
      sent := PacketBytes(p) <= PACKET_BYTES;
      if sent {
        ClearSentFlag(p);
        CopyToMemory(p);
        SetTxValid(p);
      }
    }

    method InitFails(ghost boot: bool)
      modifies this
      ensures View() == InitFailed(old(View()), boot)
      ensures trace == old(trace) && acts == old(acts)
    {
      cfg := cfg.(pktcnt := 0);
      running := false;
      pc := if boot then Top else ClearSent(Reply);
    }

    /** Clamps the packet size and checks the period. */
    method CheckConfig(ghost boot: bool) returns (ok: bool)
      requires Valid() && pc == InitDevice(boot)
      modifies this, i2cBuf
      ensures Valid() && Extends(old(trace), old(acts), 1)
      ensures pc == if ok then FlushBefore(boot) else if boot then Top else ClearSent(Reply)
    {
      Interrupts();
      ghost var s := View();
      ok := ClampAndTest(boot);
      Record(s, Main(true));
    }

    method ClampAndTest(ghost boot: bool) returns (ok: bool)
      modifies this
      ensures View() == InitDeviceStep(old(View()), boot) && ok == (old(cfg).time >= 63)
      ensures trace == old(trace) && acts == old(acts)
    {
      cfg := cfg.(pktcnt := ClampPktcnt(cfg.pktcnt));
      ok := cfg.time >= 63;
      if ok {
        pc := FlushBefore(boot);
      } else {
        InitFails(boot);
      }
    }

    method FirstFlush(ghost boot: bool)
      requires Valid() && pc == FlushBefore(boot)
      modifies this, i2cBuf
      ensures Valid() && pc == StartTimer(boot) && Extends(old(trace), old(acts), 1)
    {
      Interrupts();
      ghost var s := View();
      FlushI2CBuf();
      pc := StartTimer(boot);
      Record(s, Main(true));
    }

    method StartOrStopTimer(ghost boot: bool)
      requires Valid() && pc == StartTimer(boot)
      modifies this, i2cBuf
      ensures Valid() && pc == FlushAfter(boot) && Extends(old(trace), old(acts), 1)
    {
      Interrupts();
      ghost var s := View();
      SetTimer(boot);
      Record(s, Main(true));
    }

    method SetTimer(ghost boot: bool)
      modifies `running, `allRd, `hist, `pc
      ensures View() == StartStep(old(View()), boot)
    {
      if cfg.pktcnt != 0 {
        running := true;
        allRd := 0;
        hist := History(cfg.rd, [], [], []);
      } else {
        running := false;
      }
      pc := FlushAfter(boot);
    }

    method SecondFlush(ghost boot: bool)
      requires Valid() && pc == FlushAfter(boot)
      modifies this, i2cBuf
      ensures Valid() && pc == InitNext(0, boot) && Extends(old(trace), old(acts), 1)
    {
      Interrupts();
      ghost var s := View();
      FlushI2CBuf();
      pc := InitNext(0, boot);
      Record(s, Main(true));
    }

    /** Begins writing the `i`-th initial register, if there is one. */
    method NextInitReg(i: nat, ghost boot: bool) returns (more: bool)
      requires Valid() && pc == InitNext(i, boot)
      modifies this, i2cBuf
      ensures Valid() && Extends(old(trace), old(acts), 0) && (more ==> i < MAX_INIT_REGS)
      ensures if more then pc == InitBus(i, boot) else pc == InitNext(i, boot) && AllWritten(i)
    {
      Interrupts();
      more := i < MAX_INIT_REGS && cfg.init[i] != 0;
      if more {
        ghost var s := View();
        pc := InitBus(i, boot);
        Record(s, Main(true));
      }
    }

    ghost predicate AllWritten(i: nat)
      reads this
    {
      !(i < |cfg.init| && cfg.init[i] != 0)
    }

    method WriteInitReg(i: nat, ghost boot: bool) returns (ok: bool)
      requires Valid() && pc == InitBus(i, boot)
      modifies this, i2cBuf
      ensures Valid() && Extends(old(trace), old(acts), 1)
      ensures pc == if ok then InitNext(i + 1, boot) else if boot then Top else ClearSent(Reply)
    {
      Interrupts();
      ghost var s := View();
      ok := *;
      if ok {
        pc := InitNext(i + 1, boot);
      } else {
        InitFails(boot);
      }
      Record(s, Main(ok));
    }

    method WriteInitRegs(ghost boot: bool) returns (ok: bool)
      requires Valid() && pc == InitNext(0, boot)
      modifies this, i2cBuf
      ensures Valid() && Extends(old(trace), old(acts), 0)
      ensures if ok then pc.InitNext? && pc.boot == boot && AllWritten(pc.n)
              else pc == if boot then Top else ClearSent(Reply)
    {
      ok := true;
      var i := 0;
      var more := NextInitReg(i, boot);
      while more
        invariant Valid() && Extends(old(trace), old(acts), 0) && ok
        invariant if more then pc == InitBus(i, boot) && i < MAX_INIT_REGS else pc == InitNext(i, boot) && AllWritten(i)
        decreases MAX_INIT_REGS - i, more
      {
        ok, more := WriteAndNext(i, boot);
        if !ok {
          return;
        }
        i := i + 1;
      }
    }

    /** Writes the `i`-th initial register and, if that succeeds, begins with the next. */
    method WriteAndNext(i: nat, ghost boot: bool) returns (ok: bool, more: bool)
      requires Valid() && pc == InitBus(i, boot)
      modifies this, i2cBuf
      ensures Valid() && Extends(old(trace), old(acts), 1) && (ok && more ==> i + 1 < MAX_INIT_REGS)
      ensures pc == if !ok then (if boot then Top else ClearSent(Reply))
                    else if more then InitBus(i + 1, boot) else InitNext(i + 1, boot)
      ensures ok && !more ==> AllWritten(i + 1)
    {
      more := false;
      ok := WriteInitReg(i, boot);
      if ok {
        more := NextInitReg(i + 1, boot);
      }
    }

    method InitExtDevice(ghost boot: bool) returns (ok: bool)
      requires Valid() && pc == InitDevice(boot)
      modifies this, i2cBuf
      ensures Valid() && Extends(old(trace), old(acts), 1)
      ensures if ok then pc.InitNext? && pc.boot == boot && AllWritten(pc.n)
              else pc == if boot then Top else ClearSent(Reply)
    {
      ok := CheckConfig(boot);
      if ok {
        FirstFlush(boot);
        StartOrStopTimer(boot);
        SecondFlush(boot);
        ok := WriteInitRegs(boot);
      }
    }

    /** Initialization has succeeded: a commanded one lets the handler sample. */
    method InitDone(ghost boot: bool, commanded: bool)
      requires Valid() && pc.InitNext? && pc.boot == boot == !commanded && AllWritten(pc.n)
      modifies this, i2cBuf
      ensures Valid() && Extends(old(trace), old(acts), 1)
      ensures pc == if boot then Top else ClearSent(Reply)
    {
      Interrupts();
      ghost var s := View();
      if commanded {
        timerFlg := true;
      }
      pc := if boot then Top else ClearSent(Reply);
      Record(s, Main(true));
    }

    /** What the command leads to at once: a new configuration or a bus transaction masks sampling. */
    method BeginCommand(cmd: Command)
      requires Valid() && pc == Dispatch && rx == Some(cmd)
      modifies this
      ensures Valid() && Extends(old(trace), old(acts), 1)
      ensures pc == match cmd
                    case Query => ClearSent(Reply)
                    case Configure(c) => NewConfig(c)
                    case Register => RegisterBus
    {
      ghost var s := View();
      match cmd {
        case Query =>
          pc := ClearSent(Reply);
        case Configure(c) =>
          timerFlg := false;
          pc := NewConfig(c);
        case Register =>
          timerFlg := false;
          pc := RegisterBus;
      }
      Record(s, Main(true));
    }

    method StoreConfig(c: Config)
      requires Valid() && pc == NewConfig(c)
      modifies this, i2cBuf
      ensures Valid() && pc == InitDevice(false) && Extends(old(trace), old(acts), 1)
    {
      Interrupts();
      ghost var s := View();
      cfg := c;
      pc := InitDevice(false);
      Record(s, Main(true));
    }

    /** One register transaction on the bus, of either result. */
    method RegisterTransaction()
      requires Valid() && pc == RegisterBus
      modifies this, i2cBuf
      ensures Valid() && pc == ClearSent(Reply) && Extends(old(trace), old(acts), 1)
    {
      Interrupts();
      ghost var s := View();
      timerFlg := true;
      pc := ClearSent(Reply);
      Record(s, Main(true));
    }

    method DoCommand(cmd: Command)
      requires Valid() && pc == Dispatch && rx == Some(cmd)
      modifies this, i2cBuf
      ensures Valid() && pc == ClearSent(Reply) && Extends(old(trace), old(acts), 1)
    {
      BeginCommand(cmd);
      match cmd {
        case Query =>
        case Configure(c) =>
          Reconfigure(c);
        case Register =>
          RegisterTransaction();
      }
    }

    method Reconfigure(c: Config)
      requires Valid() && pc == NewConfig(c)
      modifies this, i2cBuf
      ensures Valid() && pc == ClearSent(Reply) && Extends(old(trace), old(acts), 1)
    {
      StoreConfig(c);
      var ok := InitExtDevice(false);
      if ok {
        InitDone(false, true);
      }
    }

    /** One iteration of the copy loop. */
    method CopyOne(i: nat)
      requires Valid() && pc == Copy(i) && i < cfg.pktcnt
      modifies this, i2cBuf, sendPkt
      ensures Valid() && pc == Copy(i + 1) && cfg == old(cfg) && Extends(old(trace), old(acts), 1)
    {
      Interrupts();
      ghost var s := View();
      sendPkt[i] := i2cBuf[rd];
      rd := (rd + 1) % RING;
      pc := Copy(i + 1);
      hist := CopyWord(s, i).hist;
      Record(s, Main(true));
    }

    method FinishCopy() returns (p: Packet)
      requires Valid() && pc == Copy(cfg.pktcnt)
      modifies this, i2cBuf
      ensures Valid() && pc == ClearSent(p) && p.Data? && Extends(old(trace), old(acts), 1)
    {
      Interrupts();
      ghost var s := View();
      allRd := (allRd + cfg.pktcnt) % 0x1_0000_0000;
      p := Data(sendPkt[..cfg.pktcnt]);
      pc := ClearSent(p);
      Record(s, Main(true));
    }

    /** The copy loop, with interrupts before any of its iterations. */
    method CopyPacket() returns (p: Packet)
      requires Valid() && pc == Copy(0)
      modifies this, i2cBuf, sendPkt
      ensures Valid() && pc == ClearSent(p) && p.Data? && Extends(old(trace), old(acts), 1)
    {
      var n := cfg.pktcnt;
      for i := 0 to n
        invariant Valid() && pc == Copy(i) && cfg.pktcnt == n && Extends(old(trace), old(acts), 0)
      {
        CopyOne(i);
      }
      p := FinishCopy();
    }

    method TestError() returns (failed: bool, p: Packet)
      requires Valid() && pc == CheckError
      modifies this, i2cBuf
      ensures Valid() && Extends(old(trace), old(acts), 1) && p.Failure?
      ensures pc == if failed then ClearSent(p) else CheckRing
    {
      Interrupts();
      ghost var s := View();
      failed, p := sendErr != 0, Failure(allRd, sendErr);
      pc := if failed then ClearSent(p) else CheckRing;
      Record(s, Main(true));
    }

    method ForgetError()
      requires Valid() && pc == ClearError
      modifies this, i2cBuf
      ensures Valid() && pc == Top && Extends(old(trace), old(acts), 1)
    {
      Interrupts();
      ghost var s := View();
      sendErr := 0;
      pc := Top;
      Record(s, Main(true));
    }

    method TestRing() returns (full: bool)
      requires Valid() && pc == CheckRing
      modifies this, i2cBuf
      ensures Valid() && Extends(old(trace), old(acts), 1)
      ensures pc == if full then Copy(0) else Top
    {
      Interrupts();
      ghost var s := View();
      full := IsFull();
      Record(s, Main(true));
    }

    method IsFull() returns (full: bool)
      modifies `pc
      ensures View() == CheckRingStep(old(View())) && pc == if full then Copy(0) else Top
    {
      full := cfg.pktcnt != 0 && (wr - rd) % RING > cfg.pktcnt;
      pc := if full then Copy(0) else Top;
    }

    method SendErrorOrSamples()
      requires Valid() && pc == CheckError
      modifies this, i2cBuf, sendPkt
      ensures Valid() && pc == Top && Extends(old(trace), old(acts), 1)
    {
      var failed, p := TestError();
      if failed {
        var _ := CDC_Send_DATA(p);
        ForgetError();
      } else {
        SendSamples();
      }
    }

    method SendSamples()
      requires Valid() && pc == CheckRing
      modifies this, i2cBuf, sendPkt
      ensures Valid() && pc == Top && Extends(old(trace), old(acts), 1)
    {
      var full := TestRing();
      if full {
        var p := CopyPacket();
        var _ := CDC_Send_DATA(p);
      }
    }

    method TestSent() returns (ready: bool)
      requires Valid() && pc == Top
      modifies this, i2cBuf
      ensures Valid() && Extends(old(trace), old(acts), 1)
      ensures pc == if ready then Dispatch else Top
    {
      Interrupts();
      ghost var s := View();
      ready := packetSent;
      pc := if ready then Dispatch else Top;
      Record(s, Main(true));
    }

    method NoCommand()
      requires Valid() && pc == Dispatch && rx == None
      modifies this
      ensures Valid() && pc == CheckError && Extends(old(trace), old(acts), 1)
    {
      ghost var s := View();
      pc := CheckError;
      Record(s, Main(true));
    }

    method ForgetCommand()
      requires Valid() && pc == ClearCommand
      modifies this, i2cBuf
      ensures Valid() && pc == Top && Extends(old(trace), old(acts), 1)
    {
      Interrupts();
      ghost var s := View();
      rx := None;
      pc := Top;
      Record(s, Main(true));
    }

    /** One pass of the endless loop of a configured device. */
    method MainPass()
      requires Valid() && pc == Top
      modifies this, i2cBuf, sendPkt
      ensures Valid() && pc == Top && Extends(old(trace), old(acts), 1)
    {
      var ready := TestSent();
      if !ready {
        return;
      }
      Interrupts();
      match rx {
        case Some(cmd) =>
          DoCommand(cmd);
          var sent := CDC_Send_DATA(Reply);
          if sent {
            ForgetCommand();
          }
        case None =>
          NoCommand();
          SendErrorOrSamples();
      }
    }

    method ResetBus()
      requires Valid() && pc == PowerOnReset
      modifies this, i2cBuf
      ensures Valid() && pc == InitDevice(true) && Extends(old(trace), old(acts), 1)
    {
      Interrupts();
      ghost var s := View();
      pc := InitDevice(true);
      Record(s, Main(true));
    }

    ghost method BeginTrace()
      requires i2cBuf != sendPkt && Initial(View())
      modifies `trace, `acts
      ensures Valid() && acts == [] && trace == [old(View())]
    {
      InitialInv(View());
      trace, acts := [View()], [];
    }

    /** The firmware from reset, for any number of passes of its main loop: whatever the bus, the
        timer and the host do, the execution is a run of the transition system. */
    method Run(passes: nat)
      requires i2cBuf != sendPkt && Initial(View())
      modifies this, i2cBuf, sendPkt
      ensures IsRun(trace, acts) && trace[0] == old(View()) && trace[|acts|] == View()
      ensures pc == Top && |acts| >= passes
    {
      BeginTrace();
      ResetBus();
      var ok := InitExtDevice(true);
      if ok {
        InitDone(true, false);
      }
      for i := 0 to passes
        invariant Valid() && pc == Top && trace[0] == old(View()) && |acts| >= i
      {
        MainPass();
      }
    }
  }
}
