/**
 One pass of the main loop as a whole: what it does when nothing interrupts it, in each of its cases.
 */
module SamplingPass {
  import opened Words
  import opened Sampling
  import opened SamplingInvariant

  function Steps(s: State, n: nat): State {
    if n == 0 then s
    else
      var before := Steps(s, n - 1);
      if WellFormed(before) then MainStep(before, true) else before
  }

  /** The main loop alone gets from `s` to `t`, in at least one step. */
  ghost predicate Leads(s: State, t: State) {
    exists n: nat :: n > 0 && Steps(s, n) == t
  }

  /** One more step on the way from `from`. */
  lemma Go(from: State, s: State) returns (t: State)
    requires Inv(s) && (s == from || Leads(from, s))
    ensures t == MainStep(s, true) && Inv(t) && Leads(from, t)
  {
    MainKeeps(s, true);
    t := MainStep(s, true);
    var n: nat := 0;
    if s != from {
      n :| n > 0 && Steps(from, n) == s;
    }
    assert Steps(from, n + 1) == t;
  }

  // ---------- handing over a packet ----------

  /** The three steps of the sender. */
  lemma Handed(from: State, s: State) returns (t: State)
    requires Inv(s) && Leads(from, s) && s.pc.ClearSent?
    ensures Inv(t) && Leads(from, t)
    ensures t == s.(usb := Usb(false, true, s.pc.p), pc := AfterSend(s.pc.p))
  {
    t := Go(from, s);
    t := Go(from, t);
    t := Go(from, t);
  }

  /** ... and the step after it. */
  lemma HandedBack(from: State, s: State) returns (t: State)
    requires Inv(s) && Leads(from, s) && s.pc.ClearSent? && !s.pc.p.Data?
    ensures Leads(from, t)
    ensures t == s.(usb := Usb(false, true, s.pc.p), pc := Top,
                    rx := if s.pc.p.Reply? then None else s.rx,
                    timer := if s.pc.p.Reply? then s.timer else s.timer.(err := 0))
  {
    t := Handed(from, s);
    t := Go(from, t);
  }

  lemma Checking(s: State) returns (t: State)
    requires Inv(s) && s.pc == Top && s.usb.packetSent && s.rx == None
    ensures Inv(t) && Leads(s, t) && t == s.(pc := CheckError)
  {
    t := Go(s, s);
    t := Go(s, t);
  }

  // ---------- commands ----------

  /** A request answered at once is answered in one pass. */
  lemma QueryPass(s: State)
    requires Inv(s) && s.pc == Top && s.usb.packetSent && s.rx == Some(Query)
    ensures Leads(s, s.(usb := Usb(false, true, Reply), rx := None))
  {
    var t := Go(s, s);
    t := Go(s, t);
    t := HandedBack(s, t);
  }

  /** A register transaction is answered in one pass, and afterwards the handler may sample. */
  lemma RegisterPass(s: State)
    requires Inv(s) && s.pc == Top && s.usb.packetSent && s.rx == Some(Register)
    ensures Leads(s, s.(usb := Usb(false, true, Reply), rx := None, timer := s.timer.(flg := true)))
  {
    var t := Go(s, s);
    t := Go(s, t);
    t := Go(s, t);
    t := HandedBack(s, t);
  }

  // ---------- errors ----------

  /** Without a command an error is reported in one pass, and forgotten. */
  lemma ErrorPass(s: State)
    requires Inv(s) && s.pc == Top && s.usb.packetSent && s.rx == None && s.timer.err != 0
    ensures Leads(s, s.(usb := Usb(false, true, Failure(s.allRd, s.timer.err)), timer := s.timer.(err := 0)))
  {
    var t := Checking(s);
    t := Go(s, t);
    t := HandedBack(s, t);
  }

  // ---------- samples ----------

  /** Without a command, an error or enough unread words a pass changes nothing. */
  lemma IdlePass(s: State)
    requires Inv(s) && s.pc == Top && s.usb.packetSent && s.rx == None && s.timer.err == 0
    requires s.cfg.pktcnt == 0 || Unread(s.ring) <= s.cfg.pktcnt
    ensures Leads(s, s)
  {
    var t := Checking(s);
    t := Go(s, t);
    t := Go(s, t);
  }

  /** The oldest `n` unread words, oldest first. */
  function Oldest(r: Ring, n: nat): seq<u16>
    requires |r.buf| == RING
  {
    seq(n, j requires 0 <= j < n => r.buf[(r.rd + j) % RING])
  }

  /** The ring with its oldest `n` words taken out. */
  function Advanced(r: Ring, n: nat): Ring {
    r.(rd := (r.rd + n) % RING)
  }

  function CountUp(count: u32, n: nat): u32 {
    (count + n) % 0x1_0000_0000
  }

  /** `t` is `s` after `k` words have been copied. */
  ghost predicate CopiedSome(s: State, t: State, k: nat)
    requires |s.ring.buf| == RING
  {
    && k <= |t.sendPkt| && t.sendPkt[..k] == Oldest(s.ring, k)
    && t.ring == Advanced(s.ring, k)
    && t.pc == Copy(k) && t.allRd == s.allRd && SameControl(s, t)
  }

  predicate SameControl(s: State, t: State) {
    t.cfg == s.cfg && t.timer == s.timer && t.rx == s.rx
  }

  lemma CopyStep(s: State, t: State, k: nat)
    requires Inv(t) && |s.ring.buf| == RING && CopiedSome(s, t, k) && k < s.cfg.pktcnt
    ensures CopiedSome(s, CopyWord(t, k), k + 1)
  {
    NextIndex(s.ring.rd + k);
    var w := t.ring.buf[t.ring.rd];
    assert t.sendPkt[k := w][..k + 1] == t.sendPkt[..k] + [w];
    assert Oldest(s.ring, k + 1) == Oldest(s.ring, k) + [w];
  }

  lemma {:induction false} CopyLoop(from: State, s: State, k: nat) returns (t: State)
    requires Inv(s) && Leads(from, s) && s.pc == Copy(0) && k <= s.cfg.pktcnt
    ensures Inv(t) && Leads(from, t) && CopiedSome(s, t, k)
    decreases k
  {
    if k == 0 {
      t := s;
      NothingCopied(s);
    } else {
      var before := CopyLoop(from, s, k - 1);
      t := CopyNext(from, s, before, k - 1);
    }
  }

  lemma NothingCopied(s: State)
    requires |s.ring.buf| == RING && s.pc == Copy(0)
    ensures CopiedSome(s, s, 0)
  {
    assert Oldest(s.ring, 0) == s.sendPkt[..0];
  }

  lemma CopyNext(from: State, s: State, before: State, k: nat) returns (t: State)
    requires Inv(before) && Leads(from, before)
    requires |s.ring.buf| == RING && CopiedSome(s, before, k) && k < s.cfg.pktcnt
    ensures Inv(t) && Leads(from, t) && CopiedSome(s, t, k + 1)
  {
    CopyStep(s, before, k);
    t := Go(from, before);
  }

  lemma Beginning(s: State) returns (t: State)
    requires Inv(s) && s.pc == Top && s.usb.packetSent && s.rx == None && s.timer.err == 0
    requires s.cfg.pktcnt != 0 && Unread(s.ring) > s.cfg.pktcnt
    ensures Inv(t) && Leads(s, t) && t == s.(pc := Copy(0))
  {
    t := Checking(s);
    t := Go(s, t);
    t := Go(s, t);
  }

  /** Otherwise a pass sends the oldest unread words, as many as a packet has, and counts them. */
  lemma SamplesPass(s: State) returns (t: State)
    requires Inv(s) && s.pc == Top && s.usb.packetSent && s.rx == None && s.timer.err == 0
    requires s.cfg.pktcnt != 0 && Unread(s.ring) > s.cfg.pktcnt
    ensures Leads(s, t)
    ensures t.pc == Top && t.usb == Usb(false, true, Data(Oldest(s.ring, s.cfg.pktcnt))) && SameControl(s, t)
    ensures t.ring == Advanced(s.ring, s.cfg.pktcnt) && t.allRd == CountUp(s.allRd, s.cfg.pktcnt)
  {
    var begun := Beginning(s);
    var copied := CopyLoop(s, begun, s.cfg.pktcnt);
    var done := Counted(s, begun, copied);
    t := Handed(s, done);
  }

  lemma Counted(from: State, s: State, t: State) returns (t': State)
    requires Inv(t) && Leads(from, t) && |s.ring.buf| == RING && CopiedSome(s, t, s.cfg.pktcnt)
    ensures Inv(t') && Leads(from, t')
    ensures t'.pc == ClearSent(Data(Oldest(s.ring, s.cfg.pktcnt))) && SameControl(s, t')
    ensures t'.ring == t.ring && t'.allRd == CountUp(s.allRd, s.cfg.pktcnt)
  {
    DoneCounts(t);
    t' := Go(from, t);
  }

  lemma DoneCounts(t: State)
    requires t.cfg.pktcnt <= |t.sendPkt|
    ensures CopyDone(t).allRd == CountUp(t.allRd, t.cfg.pktcnt)
  {
  }
}
