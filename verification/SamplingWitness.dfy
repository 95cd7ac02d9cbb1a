/**
 A run in which the host receives a word that was never read: an update event is pending when a
 failed read stops the timer, so the handler runs once more, its sample lands behind the slot the
 failed read left unwritten, and that slot is then sent.
 */
module SamplingWitness {
  import opened Words
  import opened Sampling
  import opened SamplingInvariant

  ghost predicate Reachable(s: State) {
    exists states: seq<State>, acts: seq<Action> :: IsRun(states, acts) && states[|acts|] == s
  }

  lemma ReachStep(s: State, a: Action) returns (s': State)
    requires Reachable(s) && WellFormed(s) && Enabled(s, a)
    ensures s' == Step(s, a) && Reachable(s') && WellFormed(s')
  {
    s' := Step(s, a);
    var states: seq<State>, acts: seq<Action> :| IsRun(states, acts) && states[|acts|] == s;
    var states', acts' := states + [s'], acts + [a];
    RunExtends(states, acts, a);
    assert IsRun(states', acts') && states'[|acts'|] == s';
  }

  function Zeros(): seq<u16> {
    seq(RING, _ => 0)
  }

  /** One register is scanned, and nothing is written before. */
  function ConfigOf(pktcnt: u8): Config {
    Config(pktcnt, 100, [0, 0, 0, 0], [Reg(0x80, 1), Reg(0, 0), Reg(0, 0), Reg(0, 0)])
  }

  lemma PowerOn() returns (s: State)
    ensures Reachable(s) && Initial(s) && s.cfg.time == 0
  {
    s := State(PowerOnReset, Config(0, 0, [0, 0, 0, 0], [Reg(0, 0), Reg(0, 0), Reg(0, 0), Reg(0, 0)]),
               Ring(Zeros(), 0, 0, -1), Timer(false, 0, false, false), Usb(true, false, Reply),
               seq(PACKET_WORDS, _ => 0), 0, None, History([Reg(0, 0), Reg(0, 0), Reg(0, 0), Reg(0, 0)], [], [], []));
    var states, acts: seq<Action> := [s], [];
    assert IsRun(states, acts) && states[|acts|] == s;
  }

  /** The stored configuration has the period 0, so initialization stops at the period test. */
  lemma Boot() returns (s: State)
    ensures Reachable(s) && WellFormed(s) && s.pc == Top && s.rx == None && s.ring.buf == Zeros()
    ensures s.timer == Timer(false, 0, false, false) && s.usb.packetSent && s.hist.wire == []
  {
    s := PowerOn();
    s := ReachStep(s, Main(true));
    s := ReachStep(s, Main(true));
    assert s.ring.buf == Zeros();
  }

  lemma Sent(s: State) returns (s': State)
    requires Reachable(s) && WellFormed(s) && s.pc.ClearSent? && PacketBytes(s.pc.p) <= PACKET_BYTES
    ensures Reachable(s') && WellFormed(s') && s' == s.(usb := Usb(false, true, s.pc.p), pc := AfterSend(s.pc.p))
  {
    s' := Filled(s);
    s' := ReachStep(s', Main(true));
  }

  lemma Filled(s: State) returns (s': State)
    requires Reachable(s) && WellFormed(s) && s.pc.ClearSent? && PacketBytes(s.pc.p) <= PACKET_BYTES
    ensures Reachable(s') && WellFormed(s')
    ensures s' == s.(usb := Usb(false, s.usb.valid, s.pc.p), pc := MarkValid(s.pc.p))
  {
    s' := ReachStep(s, Main(true));
    s' := ReachStep(s', Main(true));
  }

  /** CDC_Send_DATA of a report or a reply, and what follows it. */
  lemma Returned(s: State) returns (s': State)
    requires Reachable(s) && WellFormed(s) && s.pc.ClearSent? && PacketBytes(s.pc.p) <= PACKET_BYTES && !s.pc.p.Data?
    ensures Reachable(s') && WellFormed(s')
    ensures s' == s.(usb := Usb(false, true, s.pc.p), pc := Top,
                     rx := if s.pc.p.Reply? then None else s.rx,
                     timer := if s.pc.p.Failure? then s.timer.(err := 0) else s.timer)
  {
    s' := Sent(s);
    s' := ReachStep(s', Main(true));
  }

  /** A packet sent, and taken by the host. */
  lemma Deliver(s: State) returns (s': State)
    requires Reachable(s) && WellFormed(s) && s.pc.ClearSent? && PacketBytes(s.pc.p) <= PACKET_BYTES
    ensures Reachable(s') && WellFormed(s')
    ensures s' == s.(usb := Usb(true, false, s.pc.p), pc := Top,
                     rx := if s.pc.p.Reply? then None else s.rx,
                     timer := if s.pc.p.Failure? then s.timer.(err := 0) else s.timer,
                     hist := s.hist.(wire := s.hist.wire + Payload(s.pc.p)))
  {
    if s.pc.p.Data? {
      s' := Sent(s);
    } else {
      s' := Returned(s);
    }
    s' := ReachStep(s', InDone);
    assert s.hist.wire + [] == s.hist.wire;
  }

  lemma Commanded(s: State, pktcnt: u8) returns (s': State)
    requires Reachable(s) && WellFormed(s) && 1 <= pktcnt <= PACKET_WORDS && s.pc == Top && s.usb.packetSent
    ensures Reachable(s') && WellFormed(s')
    ensures s' == s.(rx := Some(Configure(ConfigOf(pktcnt))), timer := s.timer.(flg := false),
                     cfg := ConfigOf(pktcnt), pc := InitDevice(false))
  {
    s' := Dispatched(s, pktcnt);
    s' := ReachStep(s', Main(true));
    s' := ReachStep(s', Main(true));
  }

  lemma Dispatched(s: State, pktcnt: u8) returns (s': State)
    requires Reachable(s) && WellFormed(s) && 1 <= pktcnt <= PACKET_WORDS && s.pc == Top && s.usb.packetSent
    ensures Reachable(s') && WellFormed(s') && s' == s.(rx := Some(Configure(ConfigOf(pktcnt))), pc := Dispatch)
  {
    s' := ReachStep(s, OutReceived(Configure(ConfigOf(pktcnt))));
    s' := ReachStep(s', Main(true));
  }

  lemma Initialized(s: State, pktcnt: u8) returns (s': State)
    requires Reachable(s) && WellFormed(s) && 1 <= pktcnt <= PACKET_WORDS && s.pc == InitDevice(false) && s.cfg == ConfigOf(pktcnt)
    ensures Reachable(s') && WellFormed(s')
    ensures s' == s.(ring := Flush(s.ring), timer := s.timer.(running := true), allRd := 0,
                     hist := History(s.cfg.rd, [], [], []), pc := FlushAfter(false))
  {
    s' := Flushed(s, pktcnt);
    s' := ReachStep(s', Main(true));
  }

  lemma Flushed(s: State, pktcnt: u8) returns (s': State)
    requires Reachable(s) && WellFormed(s) && 1 <= pktcnt <= PACKET_WORDS && s.pc == InitDevice(false) && s.cfg == ConfigOf(pktcnt)
    ensures Reachable(s') && WellFormed(s') && s' == s.(ring := Flush(s.ring), pc := StartTimer(false))
  {
    s' := ReachStep(s, Main(true));
    s' := ReachStep(s', Main(true));
  }

  lemma Start(s: State, pktcnt: u8) returns (s': State)
    requires Reachable(s) && WellFormed(s) && 1 <= pktcnt <= PACKET_WORDS && s.pc == Top && s.usb.packetSent
    requires s.ring.buf == Zeros() && s.timer == Timer(false, 0, false, false)
    ensures Reachable(s') && WellFormed(s') && s'.pc == ClearSent(Reply) && s'.cfg == ConfigOf(pktcnt)
    ensures s'.ring == Ring(Zeros(), 0, 0, 0) && s'.timer == Timer(true, 0, true, false)
    ensures s'.hist == History(ConfigOf(pktcnt).rd, [], [], [])
  {
    s' := Commanded(s, pktcnt);
    s' := Initialized(s', pktcnt);
    s' := ReachStep(s', Main(true));
    s' := ReachStep(s', Main(true));
  }

  /** The first read fails with an update event pending; the handler runs again and succeeds. */
  lemma ReadTwice(s: State) returns (s': State)
    requires Reachable(s) && WellFormed(s) && s.timer == Timer(true, 0, true, false)
    requires s.cfg == ConfigOf(1) && s.ring == Ring(Zeros(), 0, 0, 0)
    requires s.hist == History(s.cfg.rd, [], [], [])
    ensures Reachable(s') && WellFormed(s')
    ensures s' == s.(ring := Ring(Zeros()[1 := 9], 2, 0, 0), timer := Timer(true, 2, false, false),
                     hist := s.hist.(attempts := [None, Some(Sample(Reg(0x80, 1), 9))]))
  {
    s' := FailOnce(s);
    s' := ReachStep(s', TimerIrq(true, 9, false));
  }

  lemma FailOnce(s: State) returns (s': State)
    requires Reachable(s) && WellFormed(s) && s.timer == Timer(true, 0, true, false)
    requires s.cfg == ConfigOf(1) && s.ring == Ring(Zeros(), 0, 0, 0)
    requires s.hist == History(s.cfg.rd, [], [], [])
    ensures Reachable(s') && WellFormed(s')
    ensures s' == s.(ring := Ring(Zeros(), 1, 0, 0), timer := Timer(true, 2, false, true),
                     hist := s.hist.(attempts := [None]))
  {
    s' := ReachStep(s, Tick);
    s' := ReachStep(s', TimerIrq(false, 0, true));
  }

  /** A reachable state in which the host has received the word 0, while the only value ever read in
      the run is 9. */
  lemma StaleWordReachable() returns (s: State)
    ensures Reachable(s)
    ensures s.hist.attempts == [None, Some(Sample(Reg(0x80, 1), 9))]
    ensures s.hist.wire == [0]
  {
    s := Boot();
    s := Start(s, 1);
    s := Deliver(s);
    s := ReadTwice(s);
    s := Drained(s);
    s := CopiedStale(s);
    s := Deliver(s);
  }

  /** The main loop reports the failure and then finds enough unread words for a packet. */
  lemma Drained(s: State) returns (s': State)
    requires Reachable(s) && WellFormed(s) && s.pc == Top && s.usb.packetSent && s.rx == None
    requires s.timer.err != 0 && s.cfg.pktcnt != 0 && Unread(s.ring) > s.cfg.pktcnt
    ensures Reachable(s') && WellFormed(s') && s'.pc == Copy(0)
    ensures s'.cfg == s.cfg && s'.ring == s.ring && s'.hist == s.hist
  {
    s' := CheckedFailure(s);
    s' := Deliver(s');
    s' := CheckedRing(s');
  }

  lemma CopiedStale(s: State) returns (s': State)
    requires Reachable(s) && WellFormed(s) && s.pc == Copy(0) && s.cfg == ConfigOf(1)
    requires s.ring == Ring(Zeros()[1 := 9], 2, 0, 0) && s.hist.wire == []
    ensures Reachable(s') && WellFormed(s') && s'.pc == ClearSent(Data([0]))
    ensures s'.hist.attempts == s.hist.attempts && s'.hist.wire == []
  {
    s' := ReachStep(s, Main(true));
    assert s'.sendPkt[..1] == [0];
    s' := ReachStep(s', Main(true));
  }

  lemma Checking(s: State) returns (s': State)
    requires Reachable(s) && WellFormed(s) && s.pc == Top && s.usb.packetSent && s.rx == None
    ensures Reachable(s') && WellFormed(s') && s' == s.(pc := CheckError)
  {
    s' := ReachStep(s, Main(true));
    s' := ReachStep(s', Main(true));
  }

  lemma CheckedFailure(s: State) returns (s': State)
    requires Reachable(s) && WellFormed(s) && s.pc == Top && s.usb.packetSent && s.rx == None && s.timer.err != 0
    ensures Reachable(s') && WellFormed(s') && s' == s.(pc := ClearSent(Failure(s.allRd, s.timer.err)))
  {
    s' := Checking(s);
    s' := ReachStep(s', Main(true));
  }

  lemma CheckedRing(s: State) returns (s': State)
    requires Reachable(s) && WellFormed(s) && s.pc == Top && s.usb.packetSent && s.rx == None && s.timer.err == 0
    requires s.cfg.pktcnt != 0 && Unread(s.ring) > s.cfg.pktcnt
    ensures Reachable(s') && WellFormed(s') && s' == s.(pc := Copy(0))
  {
    s' := Checking(s);
    s' := ReachStep(s', Main(true));
    s' := ReachStep(s', Main(true));
  }

  /** The clamp applied to a requested packet size does not bound it by what fits into a packet: the
      length check of the sender passes exactly for requests of at most 31 words. */
  lemma ClampTooWide(pktcnt: u8, words: seq<u16>)
    requires |words| == ClampPktcnt(pktcnt)
    ensures PacketBytes(Data(words)) <= PACKET_BYTES <==> pktcnt <= PACKET_WORDS
  {
  }
}
