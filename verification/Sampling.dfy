/**
 The sampling pipeline as an interleaved transition system.

 The timer interrupt reads the configured registers round-robin into a ring of 256 words with
 8-bit indices; the main loop drains the ring into USB packets and serves host commands. A step is
 one action of the timer, of one interrupt handler (which runs to completion), of the host, or of
 the main loop between two accesses to variables it shares with a handler.
 */
module Sampling {
  import opened Words

  const RING := 256
  const MAX_READ_REGS := 4
  const MAX_INIT_REGS := 4
  /** Words that fit into one packet, and bytes of a packet. */
  const PACKET_WORDS := 31
  const PACKET_BYTES := 64

  datatype Reg = Reg(dev: u8, adr: u8)

  /** `init` holds the bus addresses of the registers written before a run starts. */
  datatype Config = Config(pktcnt: u8, time: u16, init: seq<u8>, rd: seq<Reg>)

  datatype Packet = Data(words: seq<u16>) | Failure(count: u32, err: u8) | Reply

  /** What the host may ask for: something answered at once, a new configuration, or one
      transaction with a device register. */
  datatype Command = Query | Configure(cfg: Config) | Register

  /** Where the main loop is. `boot` tells the initialization at power-on from a commanded one. */
  datatype Pc =
    | PowerOnReset
    | Top | Dispatch | CheckError | CheckRing
    | Copy(i: nat)
    | ClearSent(p: Packet) | FillMemory(p: Packet) | MarkValid(p: Packet)
    | ClearError | ClearCommand
    | RegisterBus
    | NewConfig(cfg: Config)
    | InitDevice(boot: bool) | FlushBefore(boot: bool) | StartTimer(boot: bool) | FlushAfter(boot: bool)
    | InitNext(n: nat, boot: bool) | InitBus(n: nat, boot: bool)

  /** `raddr` indexes the register to read next; it is -1 before the first flush. */
  datatype Ring = Ring(buf: seq<u16>, wr: u8, rd: u8, raddr: int)

  /** `flg` lets the handler sample, `err` is the error it left, `uif` a pending update event. */
  datatype Timer = Timer(flg: bool, err: u8, running: bool, uif: bool)

  /** `valid`: the endpoint holds the packet in memory `pma`, which the host has not taken yet. */
  datatype Usb = Usb(packetSent: bool, valid: bool, pma: Packet)

  datatype Sample = Sample(reg: Reg, value: u16)

  /** A word put into a packet, and which read attempt of the run it came from, if any. */
  datatype Word = Word(value: u16, src: Option<nat>)

  /** Record of the run since sampling was last started: the registers to scan, the read attempts
      (None when the bus failed), the words copied into packets, the words the host received. */
  datatype History = History(regs: seq<Reg>, attempts: seq<Option<Sample>>, sent: seq<Word>, wire: seq<u16>)

  datatype State = State(
    pc: Pc,
    cfg: Config,
    ring: Ring,
    timer: Timer,
    usb: Usb,
    sendPkt: seq<u16>,
    allRd: u32,
    rx: Option<Command>,
    hist: History)

  datatype Action =
    | Tick
    | TimerIrq(ok: bool, value: u16, again: bool)
    | InDone
    | OutReceived(cmd: Command)
    | Main(ok: bool)

  // ---------- the scan ----------

  /** The register read after `rd[i]`. */
  function NextReg(rd: seq<Reg>, i: int): (r: int)
    requires |rd| == MAX_READ_REGS
    ensures 0 <= r < MAX_READ_REGS
  {
    if 0 <= i + 1 < MAX_READ_REGS && rd[i + 1].dev != 0 then i + 1 else 0
  }

  function RegAt(s: State): Reg {
    if 0 <= s.ring.raddr < |s.cfg.rd| then s.cfg.rd[s.ring.raddr] else Reg(0, 0)
  }

  /** The last successful read attempt that went to ring slot `j`. */
  function Source(attempts: seq<Option<Sample>>, j: nat): (r: Option<nat>)
    ensures r.Some? ==> r.value < |attempts| && r.value % RING == j && attempts[r.value].Some?
    ensures forall i: nat | i < |attempts| && i % RING == j && attempts[i].Some? :: r.Some? && i <= r.value
  {
    if attempts == [] then None
    else
      var n := |attempts| - 1;
      if attempts[n].Some? && n % RING == j then Some(n) else Source(attempts[..n], j)
  }

  // ---------- the timer interrupt ----------

  /** Only attempts made while sampling is configured belong to the run. */
  function Attempt(s: State, r: Option<Sample>): History {
    if s.cfg.pktcnt != 0 then s.hist.(attempts := s.hist.attempts + [r]) else s.hist
  }

  function ReadOk(s: State, value: u16): State
    requires s.ring.wr < |s.ring.buf| && |s.cfg.rd| == MAX_READ_REGS
  {
    var r := s.ring;
    s.(ring := Ring(r.buf[r.wr := value], (r.wr + 1) % RING, r.rd, NextReg(s.cfg.rd, r.raddr)),
       hist := Attempt(s, Some(Sample(RegAt(s), value))))
  }

  function ReadFailed(s: State): State {
    s.(ring := s.ring.(wr := (s.ring.wr + 1) % RING),
       timer := s.timer.(running := false, err := 2),
       hist := Attempt(s, None))
  }

  /** The handler clears the pending event first. `again`: while the handler is busy, with the timer
      still running, another update event is raised. */
  function Acknowledge(s: State, again: bool): State {
    s.(timer := s.timer.(uif := again && s.timer.running))
  }

  function TimerIrqStep(s: State, ok: bool, value: u16, again: bool): State
    requires s.ring.wr < |s.ring.buf| && |s.cfg.rd| == MAX_READ_REGS
  {
    var s' := Acknowledge(s, again);
    if !s.timer.flg then s' else if ok then ReadOk(s', value) else ReadFailed(s')
  }

  // ---------- the main loop ----------

  function Flush(r: Ring): Ring {
    r.(raddr := 0, wr := 0, rd := 0)
  }

  function ClampPktcnt(pktcnt: u8): u8 {
    if pktcnt > 2 * PACKET_WORDS then 2 * PACKET_WORDS else pktcnt
  }

  function PacketBytes(p: Packet): nat {
    match p
    case Data(words) => 2 * |words| + 2
    case Failure(_, _) => 9 + 2
    case Reply => 38 + 2
  }

  function AfterSend(p: Packet): Pc {
    match p
    case Data(_) => Top
    case Failure(_, _) => ClearError
    case Reply => ClearCommand
  }

  function DispatchStep(s: State): State {
    match s.rx
    case None => s.(pc := CheckError)
    case Some(Query) => s.(pc := ClearSent(Reply))
    case Some(Configure(c)) => s.(timer := s.timer.(flg := false), pc := NewConfig(c))
    case Some(Register) => s.(timer := s.timer.(flg := false), pc := RegisterBus)
  }

  function CheckErrorStep(s: State): State {
    if s.timer.err != 0 then s.(pc := ClearSent(Failure(s.allRd, s.timer.err))) else s.(pc := CheckRing)
  }

  function Unread(r: Ring): nat {
    (r.wr - r.rd) % RING
  }

  function CheckRingStep(s: State): State {
    if s.cfg.pktcnt != 0 && Unread(s.ring) > s.cfg.pktcnt then s.(pc := Copy(0)) else s.(pc := Top)
  }

  function CopyWord(s: State, i: nat): State
    requires s.ring.rd < |s.ring.buf| && i < |s.sendPkt|
  {
    var w := s.ring.buf[s.ring.rd];
    s.(sendPkt := s.sendPkt[i := w],
       ring := s.ring.(rd := (s.ring.rd + 1) % RING),
       pc := Copy(i + 1),
       hist := s.hist.(sent := s.hist.sent + [Word(w, Source(s.hist.attempts, s.ring.rd))]))
  }

  function CopyDone(s: State): State
    requires s.cfg.pktcnt <= |s.sendPkt|
  {
    s.(allRd := (s.allRd + s.cfg.pktcnt) % 0x1_0000_0000, pc := ClearSent(Data(s.sendPkt[..s.cfg.pktcnt])))
  }

  function ClearSentStep(s: State, p: Packet): State {
    if PacketBytes(p) <= PACKET_BYTES then s.(usb := s.usb.(packetSent := false), pc := FillMemory(p))
    else s.(pc := if p.Reply? then Top else AfterSend(p))
  }

  function InitFailed(s: State, boot: bool): State {
    s.(timer := s.timer.(running := false), cfg := s.cfg.(pktcnt := 0),
       pc := if boot then Top else ClearSent(Reply))
  }

  function InitDeviceStep(s: State, boot: bool): State {
    var s' := s.(cfg := s.cfg.(pktcnt := ClampPktcnt(s.cfg.pktcnt)));
    if s.cfg.time < 63 then InitFailed(s', boot) else s'.(pc := FlushBefore(boot))
  }

  function StartStep(s: State, boot: bool): State {
    if s.cfg.pktcnt != 0 then
      s.(timer := s.timer.(running := true), allRd := 0, hist := History(s.cfg.rd, [], [], []), pc := FlushAfter(boot))
    else
      s.(timer := s.timer.(running := false), pc := FlushAfter(boot))
  }

  function InitNextStep(s: State, n: nat, boot: bool): State {
    if n < |s.cfg.init| && s.cfg.init[n] != 0 then s.(pc := InitBus(n, boot))
    else if boot then s.(pc := Top)
    else s.(timer := s.timer.(flg := true), pc := ClearSent(Reply))
  }

  /** `ok`: result of the bus transaction the main loop is in, if it is in one. */
  function MainStep(s: State, ok: bool): State
    requires WellFormed(s)
  {
    match s.pc
    case PowerOnReset => s.(pc := InitDevice(true))
    case Top => if s.usb.packetSent then s.(pc := Dispatch) else s
    case Dispatch => DispatchStep(s)
    case CheckError => CheckErrorStep(s)
    case CheckRing => CheckRingStep(s)
    case Copy(i) => if i < s.cfg.pktcnt then CopyWord(s, i) else CopyDone(s)
    case ClearSent(p) => ClearSentStep(s, p)
    case FillMemory(p) => s.(usb := s.usb.(pma := p), pc := MarkValid(p))
    case MarkValid(p) => s.(usb := s.usb.(valid := true), pc := AfterSend(p))
    case ClearError => s.(timer := s.timer.(err := 0), pc := Top)
    case ClearCommand => s.(rx := None, pc := Top)
    case RegisterBus => s.(timer := s.timer.(flg := true), pc := ClearSent(Reply))
    case NewConfig(c) => s.(cfg := c, pc := InitDevice(false))
    case InitDevice(boot) => InitDeviceStep(s, boot)
    case FlushBefore(boot) => s.(ring := Flush(s.ring), pc := StartTimer(boot))
    case StartTimer(boot) => StartStep(s, boot)
    case FlushAfter(boot) => s.(ring := Flush(s.ring), pc := InitNext(0, boot))
    case InitNext(n, boot) => InitNextStep(s, n, boot)
    case InitBus(n, boot) => if ok then s.(pc := InitNext(n + 1, boot)) else InitFailed(s, boot)
  }

  // ---------- the transition system ----------

  /** A configuration the host may send: its packets fit the packet buffer. */
  predicate Acceptable(c: Config) {
    c.pktcnt <= PACKET_WORDS && |c.rd| == MAX_READ_REGS && |c.init| == MAX_INIT_REGS
  }

  predicate AcceptableCommand(c: Command) {
    c.Configure? ==> Acceptable(c.cfg)
  }

  predicate WellFormed(s: State) {
    && Acceptable(s.cfg) && |s.ring.buf| == RING && |s.sendPkt| == PACKET_WORDS
    && -1 <= s.ring.raddr < MAX_READ_REGS
    && (s.rx.Some? ==> AcceptableCommand(s.rx.value))
    && (s.pc.NewConfig? ==> Acceptable(s.pc.cfg))
    && (s.pc.Copy? ==> s.pc.i <= s.cfg.pktcnt)
  }

  predicate Enabled(s: State, a: Action) {
    match a
    case Tick => s.timer.running
    case TimerIrq(_, _, _) => s.timer.uif
    case InDone => s.usb.valid
    case OutReceived(cmd) => AcceptableCommand(cmd)
    case Main(_) => true
  }

  function HostTakes(s: State): State {
    s.(usb := s.usb.(valid := false, packetSent := true),
       hist := if s.usb.pma.Data? then s.hist.(wire := s.hist.wire + s.usb.pma.words) else s.hist)
  }

  function Step(s: State, a: Action): State
    requires WellFormed(s)
  {
    match a
    case Tick => s.(timer := s.timer.(uif := true))
    case TimerIrq(ok, value, again) => TimerIrqStep(s, ok, value, again)
    case InDone => HostTakes(s)
    case OutReceived(cmd) => s.(rx := Some(cmd))
    case Main(ok) => MainStep(s, ok)
  }

  predicate Zeroed(words: seq<u16>) {
    forall j | 0 <= j < |words| :: words[j] == 0
  }

  /** Just before the power-on reset of the bus: nothing samples, nothing is in flight, and the
      buffers are zero. Only the configuration may have come from the flash. */
  predicate Initial(s: State) {
    && WellFormed(s) && s.pc == PowerOnReset && s.cfg.pktcnt == 0
    && s.ring.wr == 0 && s.ring.rd == 0 && s.ring.raddr == -1
    && Zeroed(s.ring.buf) && Zeroed(s.sendPkt) && s.timer == Timer(false, 0, false, false)
    && s.allRd == 0 && s.usb.packetSent && !s.usb.valid && s.rx == None
    && s.hist == History(s.cfg.rd, [], [], [])
  }

  /** Every finite execution: each state comes from the one before it by an enabled action.
      (Well-formedness is kept by every step; it is repeated here so that `Step` may be applied.) */
  predicate IsRun(states: seq<State>, acts: seq<Action>) {
    && |states| == |acts| + 1
    && Initial(states[0])
    && (forall i | 0 <= i < |acts| ::
          WellFormed(states[i]) && Enabled(states[i], acts[i]) && states[i + 1] == Step(states[i], acts[i]))
  }
}
