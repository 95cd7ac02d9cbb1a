/**
 When the host receives the same sample twice. The ring has no overflow test, so a read may replace a
 word the main loop has yet to copy; the word then comes from a later attempt, and may come round again
 one ring length later.
 */
module SamplingRepeats {
  import opened Words
  import opened Arith
  import opened Sampling
  import opened SamplingInvariant
  import opened SamplingScan
  import opened SamplingRuns
  import opened SamplingWitness

  // ---------- sources of one slot never decrease ----------

  predicate NotBefore(w: Word, w': Word) {
    w.src.Some? ==> w'.src.Some? && w.src.value <= w'.src.value
  }

  /** Each word's source is no earlier than that of the word one ring length before. */
  ghost predicate SourcesOrdered(ws: seq<Word>) {
    forall k: nat | k + RING < |ws| :: NotBefore(ws[k], ws[k + RING])
  }

  lemma CopyOrdered(s: State, i: nat)
    requires ScanInv(s) && s.pc == Copy(i) && i < s.cfg.pktcnt && SourcesOrdered(s.hist.sent)
    ensures SourcesOrdered(CopyWord(s, i).hist.sent)
  {
    var h, ws := s.hist, CopyWord(s, i).hist.sent;
    forall k: nat | k + RING < |ws| ensures NotBefore(ws[k], ws[k + RING]) {
      if k + RING < |h.sent| {
        assert NotBefore(h.sent[k], h.sent[k + RING]);
      } else {
        NextRound(k);
        assert WordHolds(h.attempts, h.sent[k], k);
      }
    }
  }

  lemma {:induction false} RunOrdered(states: seq<State>, acts: seq<Action>, i: nat)
    requires IsRun(states, acts) && i < |states|
    ensures SourcesOrdered(states[i].hist.sent)
    decreases i
  {
    if i == 0 {
    } else {
      RunOrdered(states, acts, i - 1);
      RunScans(states, acts, i - 1);
      var s, a := states[i - 1], acts[i - 1];
      if a.Main? && s.pc.Copy? && s.pc.i < s.cfg.pktcnt {
        CopyOrdered(s, s.pc.i);
      } else {
        SentGrows(s, a);
      }
    }
  }

  lemma {:induction false} SlotOrdered(ws: seq<Word>, j: nat, k: nat)
    requires SourcesOrdered(ws) && j <= k < |ws| && j % RING == k % RING
    ensures NotBefore(ws[j], ws[k])
    decreases k
  {
    if j == k {
    } else {
      SameSlot(j, k);
      var before := k - RING;
      NextRound(before);
      SlotOrdered(ws, j, before);
      assert NotBefore(ws[before], ws[before + RING]);
    }
  }

  // ---------- repetition ----------

  /** Some word before word `k` is the same sample. */
  ghost predicate Repeats(ws: seq<Word>, k: nat)
    requires k < |ws|
  {
    exists j: nat :: j < k && ws[k].src.Some? && ws[j].src == ws[k].src
  }

  /** In every run, a sample sent before was also sent exactly one ring length before. */
  lemma RepeatsOneRoundOn(states: seq<State>, acts: seq<Action>, i: nat, k: nat)
    requires IsRun(states, acts) && i < |states| && k < |states[i].hist.sent|
    ensures var ws := states[i].hist.sent;
            Repeats(ws, k) <==> k >= RING && ws[k].src.Some? && ws[k - RING].src == ws[k].src
  {
    RunKeeps(states, acts, i);
    RunOrdered(states, acts, i);
    var h := states[i].hist;
    if Repeats(h.sent, k) {
      var j: nat :| j < k && h.sent[j].src == h.sent[k].src;
      assert WordHolds(h.attempts, h.sent[j], j) && WordHolds(h.attempts, h.sent[k], k);
      SameSlot(j, k);
      var before := k - RING;
      NextRound(before);
      SlotOrdered(h.sent, j, before);
      SlotOrdered(h.sent, before, k);
    }
  }

  /** In every run, the word copied next is a sample sent before if and only if it is not the first of
      its slot and either its own read failed, or the previous word of the slot had been lapped when
      it was copied and no read has taken the slot since. */
  lemma RepeatsExactly(states: seq<State>, acts: seq<Action>, i: nat)
    requires IsRun(states, acts) && i < |acts| && acts[i].Main?
    requires states[i].pc.Copy? && states[i].pc.i < states[i].cfg.pktcnt
    ensures var h, h' := states[i].hist, states[i + 1].hist;
            var n := |h.sent|;
            && |h'.sent| == n + 1 && n < |h.attempts|
            && (n >= RING ==> h.sent[n - RING].src.Some?)
            && (Repeats(h'.sent, n) <==>
                && n >= RING
                && (h.attempts[n] == None
                    || (h.sent[n - RING].src.value >= n && !Overwritten(h.attempts, h.sent[n - RING].src.value))))
  {
    RunScans(states, acts, i);
    var h, n := states[i].hist, |states[i].hist.sent|;
    RepeatsOneRoundOn(states, acts, i + 1, n);
    if n >= RING {
      var k := n - RING;
      assert WordHolds(h.attempts, h.sent[k], k) && WordFrom(h.attempts, h.sent[k], k);
      assert AttemptHolds(h.regs, h.attempts, k);
      NextRound(k);
      SameSource(h.regs, h.attempts, n, h.sent[k].src.value);
    }
  }

  /** What the slot of attempt `n` holds is still the sample `v` copied from it a round earlier. */
  lemma SameSource(regs: seq<Reg>, attempts: seq<Option<Sample>>, n: nat, v: nat)
    requires AttemptsHold(regs, attempts) && RING <= n && n + 1 < |attempts|
    requires n - RING <= v < |attempts| && v % RING == n % RING && attempts[v].Some?
    ensures Source(attempts, n % RING) == Some(v) <==>
            attempts[n] == None || (v >= n && !Overwritten(attempts, v))
  {
    assert AttemptHolds(regs, attempts, n);
    if attempts[n] == None {
      SourceOfFailed(regs, attempts, n);
      NotBehind(n, v, |attempts|);
      SameSlot(v, n);
    } else {
      LatestIs(regs, attempts, v);
    }
  }

  // ---------- a run that repeats ----------

  ghost predicate AllRead(attempts: seq<Option<Sample>>) {
    forall i | 0 <= i < |attempts| :: attempts[i].Some?
  }

  /** Sampling for packets of two words goes on and no read has failed. */
  ghost predicate Running(s: State) {
    && Reachable(s) && WellFormed(s) && s.cfg == ConfigOf(2) && s.timer == Timer(true, 0, true, false)
    && s.rx == None && s.usb.packetSent && AllRead(s.hist.attempts)
  }

  lemma ReachableInv(s: State)
    requires Reachable(s)
    ensures Inv(s)
  {
    var states: seq<State>, acts: seq<Action> :| IsRun(states, acts) && states[|acts|] == s;
    RunKeeps(states, acts, |acts|);
  }

  lemma ReadOne(s: State) returns (s': State)
    requires Running(s)
    ensures Running(s') && s'.pc == s.pc && s'.hist.sent == s.hist.sent
    ensures |s'.hist.attempts| == |s.hist.attempts| + 1
  {
    s' := ReachStep(s, Tick);
    s' := ReachStep(s', TimerIrq(true, 0, false));
  }

  lemma {:induction false} Reads(s: State, m: nat) returns (s': State)
    requires Running(s)
    ensures Running(s') && s'.pc == s.pc && s'.hist.sent == s.hist.sent
    ensures |s'.hist.attempts| == |s.hist.attempts| + m
    decreases m
  {
    if m == 0 {
      s' := s;
    } else {
      s' := Reads(s, m - 1);
      s' := ReadOne(s');
    }
  }

  /** The main loop finds enough unread words. */
  lemma Begun(s: State) returns (s': State)
    requires Running(s) && s.pc == Top
    requires |s.hist.sent| + 2 < |s.hist.attempts| < |s.hist.sent| + RING
    ensures Running(s') && s'.pc == Copy(0) && s'.hist == s.hist
  {
    ReachableInv(s);
    UnreadIs(s.ring, |s.hist.attempts|, |s.hist.sent|);
    s' := CheckedRing(s);
  }

  lemma CopiedOne(s: State) returns (s': State)
    requires Running(s) && s.pc.Copy? && s.pc.i < 2
    ensures Running(s') && s'.pc == Copy(s.pc.i + 1) && s'.hist.attempts == s.hist.attempts
    ensures s.hist.sent <= s'.hist.sent && |s'.hist.sent| == |s.hist.sent| + 1
    ensures s'.hist.sent[|s.hist.sent|].src == Source(s.hist.attempts, |s.hist.sent| % RING)
  {
    ReachableInv(s);
    s' := ReachStep(s, Main(true));
  }

  /** A packet of two words is copied and taken by the host. */
  lemma PacketSent(s: State) returns (s': State)
    requires Running(s) && s.pc == Copy(0)
    ensures Running(s') && s'.pc == Top && s'.hist.attempts == s.hist.attempts
    ensures s.hist.sent <= s'.hist.sent && |s'.hist.sent| == |s.hist.sent| + 2
    ensures s'.hist.sent[|s.hist.sent|].src == Source(s.hist.attempts, |s.hist.sent| % RING)
  {
    s' := CopiedOne(s);
    s' := CopiedOne(s');
    s' := ReachStep(s', Main(true));
    s' := Deliver(s');
  }

  lemma {:induction false} PacketsSent(s: State, m: nat) returns (s': State)
    requires Running(s) && s.pc == Top
    requires |s.hist.sent| + 2 * m < |s.hist.attempts| < |s.hist.sent| + RING
    ensures Running(s') && s'.pc == Top && s'.hist.attempts == s.hist.attempts
    ensures s.hist.sent <= s'.hist.sent && |s'.hist.sent| == |s.hist.sent| + 2 * m
    decreases m
  {
    if m == 0 {
      s' := s;
    } else {
      s' := PacketsSent(s, m - 1);
      s' := Begun(s');
      s' := PacketSent(s');
    }
  }

  lemma SourceIs(attempts: seq<Option<Sample>>, v: nat)
    requires AllRead(attempts) && v < |attempts| <= v + RING
    ensures Source(attempts, v % RING) == Some(v)
  {
    assert attempts[v].Some?;
    SameSlot(v, Source(attempts, v % RING).value);
  }

  lemma AllReceived(s: State)
    requires Running(s) && s.pc == Top
    ensures s.hist.wire == Values(s.hist.sent)
  {
    ReachableInv(s);
    assert s.hist.wire + [] == s.hist.wire;
  }

  lemma Started() returns (s: State)
    ensures Running(s) && s.pc == Top && s.hist.attempts == [] && s.hist.sent == []
  {
    s := Boot();
    s := Start(s, 2);
    s := Deliver(s);
  }

  /** 255 samples wait when the main loop begins a packet; two more reads come before its first word
      is copied. */
  lemma LappedFirst() returns (s: State)
    ensures Running(s) && s.pc == Top && |s.hist.attempts| == 257 && |s.hist.sent| == 2
    ensures s.hist.sent[0].src == Some(256)
  {
    s := Started();
    s := Reads(s, 255);
    s := Begun(s);
    s := Reads(s, 2);
    SourceIs(s.hist.attempts, 256);
    s := PacketSent(s);
  }

  /** The host may receive a sample twice although every read succeeds: its slot is reached again
      before it is retaken. */
  lemma RepeatReachable() returns (s: State)
    ensures Reachable(s) && AllRead(s.hist.attempts)
    ensures |s.hist.sent| == 258 && s.hist.wire == Values(s.hist.sent)
    ensures s.hist.sent[0].src == s.hist.sent[256].src == Some(256)
  {
    var first := LappedFirst();
    s := PacketsSent(first, 127);
    var drained := s.hist.sent;
    s := Reads(s, 2);
    s := Begun(s);
    SourceIs(s.hist.attempts, 256);
    s := PacketSent(s);
    assert s.hist.sent[0] == drained[0] == first.hist.sent[0];
    AllReceived(s);
  }
}
