/** What every step of the sampling pipeline keeps, whatever the timer, the bus and the host do. */
module SamplingInvariant {
  import opened Words
  import opened Arith
  import opened Sampling

  // ---------- program points ----------

  /** Points at which the main loop has cleared the sampling flag. */
  predicate MaskedAt(pc: Pc) {
    || pc.PowerOnReset? || pc.RegisterBus? || pc.NewConfig?
    || pc.InitDevice? || pc.FlushBefore? || pc.StartTimer? || pc.FlushAfter? || pc.InitNext? || pc.InitBus?
  }

  /** Points at which the main loop is inside a bus transaction, or resets the bus. */
  predicate UsesBus(pc: Pc) {
    pc.PowerOnReset? || pc.RegisterBus? || pc.InitBus? || pc.InitDevice?
  }

  /** Points from the first flush of a configuration to the end of its bus writes. */
  predicate FlushedAt(pc: Pc) {
    pc.StartTimer? || pc.FlushAfter? || pc.InitNext? || pc.InitBus?
  }

  /** Points at which a new configuration is stored but its run has not begun. */
  predicate Unsettled(pc: Pc) {
    pc.InitDevice? || pc.FlushBefore? || pc.StartTimer?
  }

  /** A run is going on (or has stopped because of a bus failure) and its record is kept. */
  predicate Active(s: State) {
    s.cfg.pktcnt != 0 && !Unsettled(s.pc)
  }

  // ---------- the invariant ----------

  ghost predicate Handshake(pc: Pc, u: Usb) {
    match pc
    case FillMemory(_) => !u.packetSent && !u.valid
    case MarkValid(p) => !u.packetSent && !u.valid && u.pma == p
    case Top => u.valid <==> !u.packetSent
    case ClearError => u.valid <==> !u.packetSent
    case ClearCommand => u.valid <==> !u.packetSent
    case _ => u.packetSent && !u.valid
  }

  ghost predicate Masking(s: State) {
    && (MaskedAt(s.pc) ==> !s.timer.flg)
    && (s.timer.running || s.timer.uif || FlushedAt(s.pc) ==> s.ring.raddr >= 0)
    && (FlushedAt(s.pc) ==> s.ring.wr == 0 && s.ring.rd == 0 && s.ring.raddr == 0)
    && (FlushedAt(s.pc) && Active(s) ==> s.hist.attempts == [] && s.hist.sent == [])
  }

  ghost predicate RingHolds(buf: seq<u16>, attempts: seq<Option<Sample>>)
    requires |buf| == RING
  {
    forall j: nat | j < RING :: SlotHolds(buf, attempts, j)
  }

  ghost predicate SlotHolds(buf: seq<u16>, attempts: seq<Option<Sample>>, j: nat)
    requires j < |buf|
  {
    var r := Source(attempts, j);
    r.Some? ==> attempts[r.value].value.value == buf[j]
  }

  ghost predicate Indices(s: State)
    requires WellFormed(s)
  {
    var a, n := |s.hist.attempts|, |s.hist.sent|;
    && s.ring.wr == a % RING && s.ring.rd == n % RING && n <= a
    && (s.pc.Copy? ==> n + (s.cfg.pktcnt - s.pc.i) < a)
    && RingHolds(s.ring.buf, s.hist.attempts)
  }

  /** Words already counted in the run but still waiting to be added to the sample counter. */
  function Uncounted(pc: Pc): nat {
    if pc.Copy? then pc.i else 0
  }

  ghost predicate Counted(s: State) {
    && Uncounted(s.pc) <= |s.hist.sent|
    && s.allRd == (|s.hist.sent| - Uncounted(s.pc)) % 0x1_0000_0000
  }

  function Payload(p: Packet): seq<u16> {
    if p.Data? then p.words else []
  }

  /** Words on their way to the host: being collected, being sent, or waiting in the endpoint. */
  function InFlight(s: State): seq<u16>
    requires WellFormed(s)
  {
    match s.pc
    case Copy(i) => s.sendPkt[..i]
    case ClearSent(p) => Payload(p)
    case FillMemory(p) => Payload(p)
    case MarkValid(p) => Payload(p)
    case _ => if s.usb.valid then Payload(s.usb.pma) else []
  }

  function Values(ws: seq<Word>): seq<u16> {
    seq(|ws|, i requires 0 <= i < |ws| => ws[i].value)
  }

  ghost predicate WordHolds(attempts: seq<Option<Sample>>, w: Word, k: nat) {
    w.src.Some? ==>
      && w.src.value < |attempts| && w.src.value % RING == k % RING
      && attempts[w.src.value].Some? && attempts[w.src.value].value.value == w.value
  }

  ghost predicate WordsHold(h: History) {
    forall k | 0 <= k < |h.sent| :: WordHolds(h.attempts, h.sent[k], k)
  }

  ghost predicate Packets(s: State)
    requires WellFormed(s)
  {
    && (s.pc.Copy? ==> s.cfg.pktcnt != 0)
    && (s.pc.ClearSent? ==> PacketBytes(s.pc.p) <= PACKET_BYTES)
    && Values(s.hist.sent) == s.hist.wire + InFlight(s)
  }

  ghost predicate Inv(s: State) {
    && WellFormed(s) && Handshake(s.pc, s.usb) && Masking(s)
    && (Active(s) ==> Indices(s))
    && Counted(s) && Packets(s) && WordsHold(s.hist)
  }

  // ---------- the ring ----------

  lemma RingStores(buf: seq<u16>, attempts: seq<Option<Sample>>, r: Option<Sample>)
    requires |buf| == RING && RingHolds(buf, attempts)
    ensures RingHolds(if r.Some? then buf[|attempts| % RING := r.value.value] else buf, attempts + [r])
  {
    var buf' := if r.Some? then buf[|attempts| % RING := r.value.value] else buf;
    assert (attempts + [r])[..|attempts|] == attempts;
    forall j: nat | j < RING ensures SlotHolds(buf', attempts + [r], j) {
      assert SlotHolds(buf, attempts, j);
    }
  }

  lemma NextIndex(n: nat)
    ensures (n % RING + 1) % RING == (n + 1) % RING
  {
    var q, r := n / 0x100, n % 0x100;
    if r == 0xFF {
      Mod256(n + 1, q + 1, 0);
    } else {
      Mod256(n + 1, q, r + 1);
    }
  }

  lemma UnreadIs(r: Ring, a: nat, n: nat)
    requires r.wr == a % RING && r.rd == n % RING && n <= a
    ensures Unread(r) == (a - n) % RING
  {
    var q, d := a / 0x100 - n / 0x100, a % 0x100 - n % 0x100;
    if d < 0 {
      Mod256(a - n, q - 1, d + 0x100);
      Mod256(d, -1, d + 0x100);
    } else {
      Mod256(a - n, q, d);
      Mod256(d, 0, d);
    }
  }

  lemma ValuesAppend(ws: seq<Word>, w: Word)
    ensures Values(ws + [w]) == Values(ws) + [w.value]
  {
  }

  // ---------- every step keeps the invariant ----------

  lemma InitialInv(s: State)
    requires Initial(s)
    ensures Inv(s)
  {
  }

  lemma AcknowledgeKeeps(s: State, again: bool)
    requires Inv(s)
    ensures Inv(Acknowledge(s, again))
  {
  }

  /** Words already copied keep their source when another read is attempted. */
  lemma WordsStillHold(h: History, r: Option<Sample>)
    requires WordsHold(h)
    ensures WordsHold(h.(attempts := h.attempts + [r]))
  {
    forall k | 0 <= k < |h.sent| ensures WordHolds(h.attempts + [r], h.sent[k], k) {
      assert WordHolds(h.attempts, h.sent[k], k);
    }
  }

  lemma ReadOkIndices(s: State, value: u16)
    requires WellFormed(s) && Indices(s) && s.cfg.pktcnt != 0
    ensures WellFormed(ReadOk(s, value)) && Indices(ReadOk(s, value))
  {
    NextIndex(|s.hist.attempts|);
    RingStores(s.ring.buf, s.hist.attempts, Some(Sample(RegAt(s), value)));
  }

  lemma ReadOkKeeps(s: State, value: u16)
    requires Inv(s) && s.timer.flg && s.ring.raddr >= 0
    ensures Inv(ReadOk(s, value))
  {
    WordsStillHold(s.hist, Some(Sample(RegAt(s), value)));
    if Active(s) {
      ReadOkIndices(s, value);
    }
  }

  lemma ReadFailedKeeps(s: State)
    requires Inv(s) && s.timer.flg && s.ring.raddr >= 0
    ensures Inv(ReadFailed(s))
  {
    WordsStillHold(s.hist, None);
    if Active(s) {
      NextIndex(|s.hist.attempts|);
      RingStores(s.ring.buf, s.hist.attempts, None);
    }
  }

  lemma HostTakesKeeps(s: State)
    requires Inv(s) && s.usb.valid
    ensures Inv(HostTakes(s))
  {
  }

  lemma WordsAppend(h: History, w: Word)
    requires WordsHold(h) && WordHolds(h.attempts, w, |h.sent|)
    ensures WordsHold(h.(sent := h.sent + [w]))
  {
  }

  lemma CopyWordWords(s: State, i: nat)
    requires Inv(s) && s.pc == Copy(i) && i < s.cfg.pktcnt
    ensures WordsHold(CopyWord(s, i).hist)
  {
    var w := Word(s.ring.buf[s.ring.rd], Source(s.hist.attempts, s.ring.rd));
    assert SlotHolds(s.ring.buf, s.hist.attempts, s.ring.rd);
    WordsAppend(s.hist, w);
  }

  lemma CopyWordPackets(s: State, i: nat)
    requires Inv(s) && s.pc == Copy(i) && i < s.cfg.pktcnt
    ensures Packets(CopyWord(s, i))
  {
    var w := Word(s.ring.buf[s.ring.rd], Source(s.hist.attempts, s.ring.rd));
    ValuesAppend(s.hist.sent, w);
    assert s.sendPkt[i := w.value][..i + 1] == s.sendPkt[..i] + [w.value];
  }

  lemma CopyWordIndices(s: State, i: nat)
    requires WellFormed(s) && Indices(s) && s.pc == Copy(i) && i < s.cfg.pktcnt
    ensures WellFormed(CopyWord(s, i)) && Indices(CopyWord(s, i))
  {
    NextIndex(|s.hist.sent|);
  }

  lemma CopyWordCounted(s: State, i: nat)
    requires Inv(s) && s.pc == Copy(i) && i < s.cfg.pktcnt
    ensures Counted(CopyWord(s, i))
  {
  }

  lemma CopyWordKeeps(s: State, i: nat)
    requires Inv(s) && s.pc == Copy(i) && i < s.cfg.pktcnt
    ensures Inv(CopyWord(s, i))
  {
    CopyWordIndices(s, i);
    CopyWordCounted(s, i);
    CopyWordWords(s, i);
    CopyWordPackets(s, i);
  }

  lemma CountWrap(n: nat, i: nat)
    ensures (n % 0x1_0000_0000 + i) % 0x1_0000_0000 == (n + i) % 0x1_0000_0000
  {
    var q, x := n / 0x1_0000_0000, n % 0x1_0000_0000 + i;
    Mod32(n + i, q + x / 0x1_0000_0000, x % 0x1_0000_0000);
  }

  lemma CopyDoneCounted(s: State, i: nat)
    requires Inv(s) && s.pc == Copy(i) && i >= s.cfg.pktcnt
    ensures Counted(CopyDone(s))
  {
    CountWrap(|s.hist.sent| - i, i);
  }

  lemma CopyDonePackets(s: State, i: nat)
    requires Inv(s) && s.pc == Copy(i) && i >= s.cfg.pktcnt
    ensures Packets(CopyDone(s))
  {
    assert InFlight(CopyDone(s)) == InFlight(s);
  }

  lemma CopyDoneKeeps(s: State, i: nat)
    requires Inv(s) && s.pc == Copy(i) && i >= s.cfg.pktcnt
    ensures Inv(CopyDone(s))
  {
    CopyDoneCounted(s, i);
    CopyDonePackets(s, i);
  }

  lemma CheckRingKeeps(s: State)
    requires Inv(s) && s.pc == CheckRing
    ensures Inv(CheckRingStep(s))
  {
    if s.cfg.pktcnt != 0 {
      UnreadIs(s.ring, |s.hist.attempts|, |s.hist.sent|);
    }
  }

  lemma StartKeeps(s: State, boot: bool)
    requires Inv(s) && s.pc == StartTimer(boot)
    ensures Inv(StartStep(s, boot))
  {
  }

  lemma InitDeviceKeeps(s: State, boot: bool)
    requires Inv(s) && s.pc == InitDevice(boot)
    ensures Inv(InitDeviceStep(s, boot))
  {
  }

  lemma InitFailedKeeps(s: State, n: nat, boot: bool)
    requires Inv(s) && s.pc == InitBus(n, boot)
    ensures Inv(InitFailed(s, boot))
  {
  }

  lemma SendKeeps(s: State, ok: bool)
    requires Inv(s) && (s.pc.ClearSent? || s.pc.FillMemory? || s.pc.MarkValid? || s.pc.ClearError? || s.pc.ClearCommand?)
    ensures Inv(MainStep(s, ok))
  {
  }

  lemma CommandKeeps(s: State, ok: bool)
    requires Inv(s) && (s.pc.Top? || s.pc.CheckError? || s.pc.RegisterBus? || s.pc.NewConfig?)
    ensures Inv(MainStep(s, ok))
  {
  }

  lemma DispatchKeeps(s: State)
    requires Inv(s) && s.pc.Dispatch?
    ensures Inv(DispatchStep(s))
  {
  }

  lemma InitKeeps(s: State, ok: bool)
    requires Inv(s)
    requires s.pc.PowerOnReset? || s.pc.FlushBefore? || s.pc.FlushAfter? || s.pc.InitNext? || (s.pc.InitBus? && ok)
    ensures Inv(MainStep(s, ok))
  {
  }

  lemma MainKeeps(s: State, ok: bool)
    requires Inv(s)
    ensures Inv(MainStep(s, ok))
  {
    match s.pc {
      case CheckRing => CheckRingKeeps(s);
      case Copy(i) =>
        if i < s.cfg.pktcnt { CopyWordKeeps(s, i); } else { CopyDoneKeeps(s, i); }
      case StartTimer(boot) => StartKeeps(s, boot);
      case InitDevice(boot) => InitDeviceKeeps(s, boot);
      case InitBus(n, boot) =>
        if ok { InitKeeps(s, ok); } else { InitFailedKeeps(s, n, boot); }
      case PowerOnReset => InitKeeps(s, ok);
      case FlushBefore(_) => InitKeeps(s, ok);
      case FlushAfter(_) => InitKeeps(s, ok);
      case InitNext(_, _) => InitKeeps(s, ok);
      case Top => CommandKeeps(s, ok);
      case Dispatch => DispatchKeeps(s);
      case CheckError => CommandKeeps(s, ok);
      case RegisterBus => CommandKeeps(s, ok);
      case NewConfig(_) => CommandKeeps(s, ok);
      case _ => SendKeeps(s, ok);
    }
  }

  lemma StepKeeps(s: State, a: Action)
    requires Inv(s) && Enabled(s, a)
    ensures Inv(Step(s, a))
  {
    match a {
      case TimerIrq(ok, value, again) =>
        AcknowledgeKeeps(s, again);
        if s.timer.flg {
          if ok { ReadOkKeeps(Acknowledge(s, again), value); } else { ReadFailedKeeps(Acknowledge(s, again)); }
        }
      case InDone => HostTakesKeeps(s);
      case Main(ok) => MainKeeps(s, ok);
      case _ =>
    }
  }

  lemma {:induction false} RunKeeps(states: seq<State>, acts: seq<Action>, i: nat)
    requires IsRun(states, acts) && i < |states|
    ensures Inv(states[i])
    decreases i
  {
    if i == 0 {
      InitialInv(states[0]);
    } else {
      RunKeeps(states, acts, i - 1);
      StepKeeps(states[i - 1], acts[i - 1]);
    }
  }

  lemma RunExtends(states: seq<State>, acts: seq<Action>, a: Action)
    requires IsRun(states, acts) && WellFormed(states[|acts|]) && Enabled(states[|acts|], a)
    ensures IsRun(states + [Step(states[|acts|], a)], acts + [a]) && WellFormed(Step(states[|acts|], a))
  {
    RunKeeps(states, acts, |acts|);
    StepKeeps(states[|acts|], a);
  }
}
