/** What holds of the words, counters, flags and bus accesses in every run of the pipeline. */
module SamplingRuns {
  import opened Words
  import opened Arith
  import opened Sampling
  import opened SamplingInvariant
  import opened SamplingScan

  // ---------- any run ----------

  /** The main loop and the timer interrupt never use the bus at the same time. */
  lemma BusExclusion(states: seq<State>, acts: seq<Action>, i: nat)
    requires IsRun(states, acts) && i < |states| && UsesBus(states[i].pc)
    ensures !states[i].timer.flg
    ensures i < |acts| && acts[i].TimerIrq? ==> states[i + 1] == Acknowledge(states[i], acts[i].again)
  {
    RunKeeps(states, acts, i);
  }

  /** The register pointer is never followed before the first flush has set it. */
  lemma NoNullRead(states: seq<State>, acts: seq<Action>, i: nat)
    requires IsRun(states, acts) && i < |acts|
    ensures acts[i].TimerIrq? && states[i].timer.flg ==> 0 <= states[i].ring.raddr < MAX_READ_REGS
  {
    RunKeeps(states, acts, i);
  }

  /** At most one packet is in flight and no wake-up is lost. */
  lemma OnePacketInFlight(states: seq<State>, acts: seq<Action>, i: nat)
    requires IsRun(states, acts) && i < |states|
    ensures states[i].usb.valid ==> !states[i].usb.packetSent
    ensures !states[i].pc.FillMemory? && !states[i].pc.MarkValid? ==> (states[i].usb.valid <==> !states[i].usb.packetSent)
    ensures i < |acts| && states[i].usb.valid ==> states[i + 1].usb.pma == states[i].usb.pma
  {
    RunKeeps(states, acts, i);
  }

  /** The words taken out of the ring are, in order, those the host has received followed by those
      on their way to it: none is lost, repeated or altered. */
  lemma HostReceivesAll(states: seq<State>, acts: seq<Action>, i: nat)
    requires IsRun(states, acts) && i < |states|
    ensures WellFormed(states[i])
    ensures Values(states[i].hist.sent) == states[i].hist.wire + InFlight(states[i])
  {
    RunKeeps(states, acts, i);
  }

  /** Between packets the sample counter is the number of words sent. */
  lemma SampleCounter(states: seq<State>, acts: seq<Action>, i: nat)
    requires IsRun(states, acts) && i < |states| && !states[i].pc.Copy?
    ensures states[i].allRd == |states[i].hist.sent| % 0x1_0000_0000
  {
    RunKeeps(states, acts, i);
  }

  /** Read attempts are conserved modulo 256, however often the ring has overrun. */
  lemma Conservation(states: seq<State>, acts: seq<Action>, i: nat)
    requires IsRun(states, acts) && i < |states| && Active(states[i]) && !states[i].pc.Copy?
    ensures |states[i].hist.attempts| % RING == (states[i].allRd + Unread(states[i].ring)) % RING
  {
    RunKeeps(states, acts, i);
    var s := states[i];
    UnreadIs(s.ring, |s.hist.attempts|, |s.hist.sent|);
    ModuloConserved(|s.hist.attempts|, |s.hist.sent|);
  }

  lemma ModuloConserved(a: nat, n: nat)
    requires n <= a
    ensures a % RING == (n % 0x1_0000_0000 + (a - n) % RING) % RING
  {
    var q, v := n / 0x1_0000_0000, n % 0x1_0000_0000;
    var w, r := (a - n) / 0x100, (a - n) % 0x100;
    Mod256(a, q * 0x100_0000 + w + (v + r) / 0x100, (v + r) % 0x100);
  }

  // ---------- stale words ----------

  /** A failed read leaves its ring slot unwritten. Which words that makes stale, exactly: a word is
      fresh, from its own read or a later one of its slot, if and only if its own read succeeded;
      otherwise it comes from the read one ring length earlier, or, in the first round, is whatever
      the ring held. Such a word is the last one of the run, and its read was followed by one attempt
      only. */
  lemma StaleExactly(states: seq<State>, acts: seq<Action>, i: nat, k: nat)
    requires IsRun(states, acts) && i < |states| && k < |states[i].hist.sent|
    ensures var h := states[i].hist;
            && k + 1 < |h.attempts|
            && (WordFresh(h.sent[k], k) <==> h.attempts[k].Some?)
            && (h.attempts[k] == None ==> h.sent[k].src == if k < RING then None else Some(k - RING))
            && (h.attempts[k] == None ==> k == |h.attempts| - 2 && k == |h.sent| - 1)
  {
    RunScans(states, acts, i);
    var h := states[i].hist;
    assert WordFrom(h.attempts, h.sent[k], k);
    assert WordFrom(h.attempts, h.sent[|h.sent| - 1], |h.sent| - 1);
    assert AttemptHolds(h.regs, h.attempts, k);
  }

  /** What word `k` received by the host is, in every run: if its read succeeded, the value of that
      read or of one a whole number of ring lengths later, even after the timer has lapped the main
      loop; if it failed, the value of the read one ring length earlier. */
  lemma NoStaleWord(states: seq<State>, acts: seq<Action>, i: nat, k: nat) returns (src: Option<nat>)
    requires IsRun(states, acts) && i < |states| && k < |states[i].hist.wire|
    ensures var h := states[i].hist;
            && k + 1 < |h.attempts| && k < |h.sent| && src == h.sent[k].src
            && (src.Some? ==> src.value < |h.attempts| && src.value % RING == k % RING
                              && h.attempts[src.value].Some? && h.wire[k] == h.attempts[src.value].value.value)
            && (h.attempts[k].Some? <==> src.Some? && src.value >= k)
            && (h.attempts[k] == None ==> src == if k < RING then None else Some(k - RING))
  {
    RunScans(states, acts, i);
    var h := states[i].hist;
    assert Values(h.sent)[k] == h.wire[k];
    assert WordHolds(h.attempts, h.sent[k], k);
    StaleExactly(states, acts, i, k);
    src := h.sent[k].src;
  }

  /** No update event is raised while the handler is busy with a read that fails. */
  predicate Undisturbed(a: Action) {
    a.TimerIrq? && !a.ok ==> !a.again
  }

  /** Then a failed read is the last attempt of its run. */
  ghost predicate FailsLast(s: State) {
    && !FailedAt(s.hist.attempts, |s.hist.attempts| - 2)
    && (Active(s) && FailedAt(s.hist.attempts, |s.hist.attempts| - 1) ==> !s.timer.uif)
  }

  lemma FailsLastKept(s: State, a: Action)
    requires ScanInv(s) && FailsLast(s) && Enabled(s, a) && Undisturbed(a)
    ensures FailsLast(Step(s, a))
  {
    if a.Main? {
      MainFailsLast(s, a.ok);
    }
  }

  lemma MainFailsLast(s: State, ok: bool)
    requires ScanInv(s) && FailsLast(s)
    ensures FailsLast(MainStep(s, ok))
  {
    if !s.pc.StartTimer? {
      MainKeepsAttempts(s, ok);
    }
  }

  lemma MainKeepsAttempts(s: State, ok: bool)
    requires WellFormed(s) && !s.pc.StartTimer?
    ensures var s' := MainStep(s, ok);
            s'.hist.attempts == s.hist.attempts && s'.timer.uif == s.timer.uif && (Active(s') ==> Active(s))
  {
  }

  /** If no update event is raised during a failing read, no stale word is ever sent. */
  lemma {:induction false} UndisturbedRun(states: seq<State>, acts: seq<Action>, i: nat)
    requires IsRun(states, acts) && i < |states|
    requires forall j | 0 <= j < i :: Undisturbed(acts[j])
    ensures FailsLast(states[i])
    ensures forall k | 0 <= k < |states[i].hist.sent| :: WordFresh(states[i].hist.sent[k], k)
    decreases i
  {
    if i == 0 {
    } else {
      UndisturbedRun(states, acts, i - 1);
      RunScans(states, acts, i - 1);
      FailsLastKept(states[i - 1], acts[i - 1]);
    }
    forall k: nat | k < |states[i].hist.sent| ensures WordFresh(states[i].hist.sent[k], k) {
      StaleExactly(states, acts, i, k);
    }
  }

  // ---------- register alignment ----------

  /** The register word `k` of the host was read from, in every run, is the one of its source's
      place in the scan. That is register `k mod m` always if `m` divides 256 and the attempt before
      the source did not fail, and in general exactly under the condition stated. */
  lemma Alignment(states: seq<State>, acts: seq<Action>, i: nat, k: nat) returns (src: Option<nat>)
    requires IsRun(states, acts) && i < |states| && k < |states[i].hist.wire|
    ensures var h := states[i].hist;
            && |h.regs| == MAX_READ_REGS && k < |h.attempts| && (h.attempts[k].Some? ==> src.Some?)
            && (src.Some? ==>
                  && src.value < |h.attempts| && h.attempts[src.value].Some?
                  && h.wire[k] == h.attempts[src.value].value.value
                  && h.attempts[src.value].value.reg == h.regs[Place(h.attempts, src.value) % ScanLength(h.regs)]
                  && (Place(h.attempts, src.value) % ScanLength(h.regs) == k % ScanLength(h.regs) <==>
                      AlignedAfter((src.value - k) / RING, ScanLength(h.regs), FailedAt(h.attempts, src.value - 1))))
  {
    src := NoStaleWord(states, acts, i, k);
    RunScans(states, acts, i);
    var h := states[i].hist;
    if src.Some? {
      assert AttemptHolds(h.regs, h.attempts, src.value);
      LapsKeepPlace(src.value, k, ScanLength(h.regs), FailedAt(h.attempts, src.value - 1));
    }
  }

  /** The condition: a scan of three registers needs whole turns of the scan, 256 being 1 modulo 3; a
      read that follows a failed one is a place behind. */
  predicate AlignedAfter(laps: int, m: nat, afterFailure: bool) {
    if afterFailure then m == 1 || (m == 3 && laps % 3 == 1) else m != 3 || laps % 3 == 0
  }

  lemma LapsKeepPlace(src: nat, k: nat, m: nat, afterFailure: bool)
    requires src % RING == k % RING && 1 <= m <= MAX_READ_REGS && (afterFailure ==> src > 0)
    ensures (if afterFailure then src - 1 else src) % m == k % m
       <==> AlignedAfter((src - k) / RING, m, afterFailure)
  {
    var laps := (src - k) / RING;
    assert src == k + 256 * laps;
    var back := if afterFailure then 1 else 0;
    match m {
      case 1 =>
      case 2 => ShiftMod2(k, laps, back);
      case 3 => ShiftMod3(k, laps, back);
      case 4 => ShiftMod4(k, laps, back);
    }
  }

  lemma ShiftMod2(k: int, laps: int, back: int)
    requires 0 <= back <= 1
    ensures (k + 256 * laps - back) % 2 == k % 2 <==> back == 0
  {
    assert k + 256 * laps - back == 2 * (k / 2 + 128 * laps) + (k % 2 - back);
  }

  lemma ShiftMod4(k: int, laps: int, back: int)
    requires 0 <= back <= 1
    ensures (k + 256 * laps - back) % 4 == k % 4 <==> back == 0
  {
    assert k + 256 * laps - back == 4 * (k / 4 + 64 * laps) + (k % 4 - back);
  }

  lemma ShiftMod3(k: int, laps: int, back: int)
    requires 0 <= back <= 1
    ensures (k + 256 * laps - back) % 3 == k % 3 <==> laps % 3 == back
  {
    assert k + 256 * laps - back == 3 * (k / 3 + 85 * laps + laps / 3) + (k % 3 + laps % 3 - back);
  }

  // ---------- order ----------

  /** A later read has taken the slot of attempt `k`. */
  predicate Overwritten(attempts: seq<Option<Sample>>, k: nat) {
    k + RING < |attempts| && attempts[k + RING].Some?
  }

  /** The word to be copied next has not been overwritten; it cannot have been while at most 256
      attempts wait. */
  predicate NoOverrun(s: State) {
    !Overwritten(s.hist.attempts, |s.hist.sent|)
  }

  /** In every run a word is copied in order if and only if its own read succeeded and its sample has
      not been overwritten. */
  lemma InOrderExactly(states: seq<State>, acts: seq<Action>, i: nat)
    requires IsRun(states, acts) && i < |acts| && acts[i].Main?
    requires states[i].pc.Copy? && states[i].pc.i < states[i].cfg.pktcnt
    ensures var h, h' := states[i].hist, states[i + 1].hist;
            var n := |h.sent|;
            && |h'.sent| == n + 1 && n < |h.attempts|
            && (h'.sent[n].src == Some(n) <==> h.attempts[n].Some? && NoOverrun(states[i]))
  {
    RunScans(states, acts, i);
    InOrderCopy(states[i], states[i].pc.i);
  }

  lemma InOrderCopy(s: State, i: nat)
    requires ScanInv(s) && s.pc == Copy(i) && i < s.cfg.pktcnt
    ensures var n := |s.hist.sent|;
            && n < |s.hist.attempts|
            && (CopyWord(s, i).hist.sent[n].src == Some(n) <==> s.hist.attempts[n].Some? && NoOverrun(s))
  {
    LatestIs(s.hist.regs, s.hist.attempts, |s.hist.sent|);
  }

  lemma LatestIs(regs: seq<Reg>, attempts: seq<Option<Sample>>, n: nat)
    requires AttemptsHold(regs, attempts) && n < |attempts|
    ensures Source(attempts, n % RING) == Some(n) <==> attempts[n].Some? && !Overwritten(attempts, n)
  {
    var j := n % RING;
    NextRound(n);
    if attempts[n].Some? {
      LatestOfSlot(regs, attempts, n, n + RING, j);
    }
  }

  lemma NextRound(n: nat)
    ensures (n + RING) % RING == n % RING
  {
    Mod256(n + 0x100, n / 0x100 + 1, n % 0x100);
  }

  lemma LatestOfSlot(regs: seq<Reg>, attempts: seq<Option<Sample>>, n: nat, next: nat, j: nat)
    requires AttemptsHold(regs, attempts) && n < |attempts| && attempts[n].Some?
    requires next == n + RING && n % RING == j == next % RING
    ensures Source(attempts, j) == Some(n) <==> !(next < |attempts| && attempts[next].Some?)
  {
    var r := Source(attempts, j);
    if r != Some(n) {
      SameSlot(n, r.value);
      TakenFirst(regs, attempts, next, r.value);
    }
  }

  /** The first read that could take a slot has, if a later one has. */
  lemma TakenFirst(regs: seq<Reg>, attempts: seq<Option<Sample>>, next: nat, r: nat)
    requires AttemptsHold(regs, attempts) && next <= r < |attempts| && r % RING == next % RING
    requires attempts[r].Some?
    ensures attempts[next].Some?
  {
    SameSlot(next, r);
    assert AttemptHolds(regs, attempts, next);
  }

  lemma SentGrows(s: State, a: Action)
    requires Inv(s) && Enabled(s, a)
    requires a.Main? && s.pc.Copy? ==> s.pc.i >= s.cfg.pktcnt
    ensures Step(s, a).hist.sent == s.hist.sent || Step(s, a).hist.sent == []
  {
  }

  /** The words copied in order are those whose reads succeeded. */
  ghost predicate InOrder(h: History) {
    forall k | 0 <= k < |h.sent| ::
      k < |h.attempts| && (h.sent[k].src == Some(k) <==> h.attempts[k].Some?)
  }

  lemma InOrderStep(s: State, a: Action)
    requires ScanInv(s) && Enabled(s, a) && InOrder(s.hist) && NoOverrun(s)
    ensures InOrder(Step(s, a).hist)
  {
    if a.Main? && s.pc.Copy? && s.pc.i < s.cfg.pktcnt {
      InOrderCopy(s, s.pc.i);
    } else {
      SentGrows(s, a);
    }
  }

  lemma {:induction false} InOrderRun(states: seq<State>, acts: seq<Action>, i: nat)
    requires IsRun(states, acts) && i < |states|
    requires forall j | 0 <= j < i :: NoOverrun(states[j])
    ensures InOrder(states[i].hist)
    decreases i
  {
    if i == 0 {
    } else {
      InOrderRun(states, acts, i - 1);
      RunScans(states, acts, i - 1);
      InOrderStep(states[i - 1], acts[i - 1]);
    }
  }

  /** FIFO: in every run without overrun, the words the host has received and those on their way to it
      are a prefix of the sequence of samples read in scan order -- except the very last one, if its
      read failed. */
  lemma Fifo(states: seq<State>, acts: seq<Action>, i: nat, k: nat)
    requires IsRun(states, acts) && i < |states|
    requires forall j | 0 <= j < i :: NoOverrun(states[j])
    requires k < |states[i].hist.sent|
    ensures WellFormed(states[i])
    ensures var h, words := states[i].hist, states[i].hist.wire + InFlight(states[i]);
            && |h.regs| == MAX_READ_REGS && k + 1 < |h.attempts| && |words| == |h.sent|
            && (h.attempts[k].Some? ==>
                  && words[k] == h.attempts[k].value.value
                  && h.attempts[k].value.reg == h.regs[k % ScanLength(h.regs)])
            && (h.attempts[k] == None ==> k == |h.attempts| - 2 && k == |words| - 1)
  {
    RunScans(states, acts, i);
    InOrderRun(states, acts, i);
    var h := states[i].hist;
    assert Values(h.sent)[k] == (h.wire + InFlight(states[i]))[k];
    assert WordHolds(h.attempts, h.sent[k], k);
    StaleExactly(states, acts, i, k);
    assert AttemptHolds(h.regs, h.attempts, k);
    if k > 0 {
      assert AttemptHolds(h.regs, h.attempts, k - 1);
    }
  }
}
