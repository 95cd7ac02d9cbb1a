/**
 What every run keeps of the scan: which register each read attempt went to, where reads can have
 failed, and what became of each copied word.
 */
module SamplingScan {
  import opened Words
  import opened Arith
  import opened Sampling
  import opened SamplingInvariant

  // ---------- the scan ----------

  /** Number of registers in a scan: the first, and those that follow up to an empty entry. */
  function ScanLength(rd: seq<Reg>): (m: nat)
    requires |rd| == MAX_READ_REGS
    ensures 1 <= m <= MAX_READ_REGS
  {
    if rd[1].dev == 0 then 1 else if rd[2].dev == 0 then 2 else if rd[3].dev == 0 then 3 else 4
  }

  lemma NextRegCycles(rd: seq<Reg>, n: nat)
    requires |rd| == MAX_READ_REGS
    ensures NextReg(rd, n % ScanLength(rd)) == (n + 1) % ScanLength(rd)
  {
    NextMod(n, ScanLength(rd));
  }

  predicate FailedAt(attempts: seq<Option<Sample>>, i: int) {
    0 <= i < |attempts| && attempts[i] == None
  }

  /** Place in the scan of attempt `i`: a failed read leaves the register pointer where it is. */
  function Place(attempts: seq<Option<Sample>>, i: nat): nat {
    if FailedAt(attempts, i - 1) then i - 1 else i
  }

  /** All attempts but the last two succeeded, and each that did read the register of its place. */
  ghost predicate AttemptsHold(regs: seq<Reg>, attempts: seq<Option<Sample>>) {
    |regs| == MAX_READ_REGS && forall i | 0 <= i < |attempts| :: AttemptHolds(regs, attempts, i)
  }

  predicate AttemptHolds(regs: seq<Reg>, attempts: seq<Option<Sample>>, i: nat)
    requires i < |attempts| && |regs| == MAX_READ_REGS
  {
    && (i + 2 < |attempts| ==> attempts[i].Some?)
    && (attempts[i].Some? ==> attempts[i].value.reg == regs[Place(attempts, i) % ScanLength(regs)])
  }

  /** A failed read has stopped the timer; at most one more attempt follows it. */
  ghost predicate Scanning(s: State)
    requires |s.hist.regs| == MAX_READ_REGS
  {
    var a, n := s.hist.attempts, |s.hist.attempts|;
    && s.cfg.rd == s.hist.regs
    && (FailedAt(a, n - 1) ==> !s.timer.running)
    && (FailedAt(a, n - 2) ==> !s.timer.running && !s.timer.uif)
    && (!FailedAt(a, n - 2) ==> s.ring.raddr == Place(a, n) % ScanLength(s.hist.regs))
  }

  // ---------- copied words ----------

  /** Word `k` comes from read attempt `k`, or from a later one of its ring slot. */
  predicate WordFresh(w: Word, k: nat) {
    w.src.Some? && w.src.value >= k
  }

  /** A word whose own read failed repeats the word one ring length before it, or, in the first
      round, is whatever the ring held. */
  predicate WordFrom(attempts: seq<Option<Sample>>, w: Word, k: nat) {
    && k + 1 < |attempts|
    && (if attempts[k].Some? then WordFresh(w, k) else w.src == if k < RING then None else Some(k - RING))
  }

  ghost predicate WordsFrom(h: History) {
    forall k | 0 <= k < |h.sent| :: WordFrom(h.attempts, h.sent[k], k)
  }

  ghost predicate ScanInv(s: State) {
    && Inv(s)
    && AttemptsHold(s.hist.regs, s.hist.attempts)
    && WordsFrom(s.hist)
    && (Active(s) ==> Scanning(s))
  }

  // ---------- every step keeps it ----------

  lemma AttemptAppends(regs: seq<Reg>, attempts: seq<Option<Sample>>, r: Option<Sample>)
    requires AttemptsHold(regs, attempts) && !FailedAt(attempts, |attempts| - 2)
    requires r.Some? ==> r.value.reg == regs[Place(attempts, |attempts|) % ScanLength(regs)]
    ensures AttemptsHold(regs, attempts + [r])
  {
    forall i: nat | i < |attempts| + 1 ensures AttemptHolds(regs, attempts + [r], i) {
      assert Place(attempts + [r], i) == Place(attempts, i);
      if i < |attempts| {
        assert AttemptHolds(regs, attempts, i);
      }
    }
  }

  lemma WordsStillFrom(h: History, r: Option<Sample>)
    requires WordsFrom(h)
    ensures WordsFrom(h.(attempts := h.attempts + [r]))
  {
    forall k | 0 <= k < |h.sent| ensures WordFrom(h.attempts + [r], h.sent[k], k) {
      assert WordFrom(h.attempts, h.sent[k], k);
    }
  }

  lemma ReadScans(s: State, ok: bool, value: u16, again: bool)
    requires ScanInv(s) && Active(s) && s.timer.uif && s.timer.flg && s.ring.raddr >= 0
    ensures Scanning(TimerIrqStep(s, ok, value, again))
  {
    NextRegCycles(s.hist.regs, |s.hist.attempts|);
  }

  lemma ReadKeeps(s: State, ok: bool, value: u16, again: bool)
    requires ScanInv(s) && s.timer.uif && s.timer.flg
    ensures ScanInv(Step(s, TimerIrq(ok, value, again)))
  {
    StepKeeps(s, TimerIrq(ok, value, again));
    if Active(s) {
      var r := if ok then Some(Sample(RegAt(s), value)) else None;
      AttemptAppends(s.hist.regs, s.hist.attempts, r);
      WordsStillFrom(s.hist, r);
      ReadScans(s, ok, value, again);
    }
  }

  /** Two attempts at one slot lie at least a ring length apart. */
  lemma SameSlot(n: nat, r: nat)
    requires n <= r && r % RING == n % RING
    ensures r < n + RING ==> r == n
  {
  }

  /** What the word about to be copied is. */
  lemma CopiedWordFrom(regs: seq<Reg>, attempts: seq<Option<Sample>>, n: nat, value: u16)
    requires AttemptsHold(regs, attempts) && n + 1 < |attempts|
    ensures WordFrom(attempts, Word(value, Source(attempts, n % RING)), n)
  {
    if attempts[n] == None {
      assert AttemptHolds(regs, attempts, n);
      SourceOfFailed(regs, attempts, n);
    }
  }

  lemma SourceOfFailed(regs: seq<Reg>, attempts: seq<Option<Sample>>, n: nat)
    requires AttemptsHold(regs, attempts) && |attempts| == n + 2 && attempts[n] == None
    ensures Source(attempts, n % RING) == if n < RING then None else Some(n - RING)
  {
    var r := Source(attempts, n % RING);
    if r.Some? {
      NotBehind(n, r.value, |attempts|);
      SameSlot(r.value, n);
    }
    if n >= RING {
      var before := n - RING;
      assert before % RING == n % RING;
      assert AttemptHolds(regs, attempts, before);
      SameSlot(before, r.value);
    }
  }

  lemma NotBehind(n: nat, r: nat, a: nat)
    requires r < a <= n + 2 && r % RING == n % RING
    ensures r <= n
  {
    if n < r {
      SameSlot(n, r);
    }
  }

  lemma CopyKeeps(s: State, i: nat)
    requires ScanInv(s) && s.pc == Copy(i) && i < s.cfg.pktcnt
    ensures ScanInv(CopyWord(s, i))
  {
    CopyWordKeeps(s, i);
    var n, h := |s.hist.sent|, CopyWord(s, i).hist;
    CopiedWordFrom(s.hist.regs, s.hist.attempts, n, s.ring.buf[s.ring.rd]);
    forall k | 0 <= k < n + 1 ensures WordFrom(h.attempts, h.sent[k], k) {
      if k < n {
        assert WordFrom(s.hist.attempts, s.hist.sent[k], k);
      }
    }
  }

  lemma HandlerKeeps(s: State, a: Action)
    requires ScanInv(s) && Enabled(s, a) && !a.Main? && (a.TimerIrq? ==> !s.timer.flg)
    ensures ScanInv(Step(s, a))
  {
    StepKeeps(s, a);
  }

  lemma StartScans(s: State, ok: bool)
    requires ScanInv(s) && s.pc.StartTimer?
    ensures ScanInv(MainStep(s, ok))
  {
    MainKeeps(s, ok);
  }

  lemma InitScans(s: State, ok: bool)
    requires ScanInv(s)
    requires s.pc.InitDevice? || s.pc.FlushBefore? || s.pc.FlushAfter? || s.pc.InitNext? || s.pc.InitBus?
    ensures ScanInv(MainStep(s, ok))
  {
    MainKeeps(s, ok);
  }

  lemma CommandScans(s: State, ok: bool)
    requires ScanInv(s)
    requires s.pc.Top? || s.pc.Dispatch? || s.pc.CheckError? || s.pc.CheckRing? || s.pc.RegisterBus? || s.pc.NewConfig?
    ensures ScanInv(MainStep(s, ok))
  {
    MainKeeps(s, ok);
  }

  lemma MainScans(s: State, ok: bool)
    requires ScanInv(s) && (s.pc.Copy? ==> s.pc.i >= s.cfg.pktcnt)
    ensures ScanInv(MainStep(s, ok))
  {
    match s.pc {
      case StartTimer(_) => StartScans(s, ok);
      case InitDevice(_) => InitScans(s, ok);
      case FlushBefore(_) => InitScans(s, ok);
      case FlushAfter(_) => InitScans(s, ok);
      case InitNext(_, _) => InitScans(s, ok);
      case InitBus(_, _) => InitScans(s, ok);
      case Top => CommandScans(s, ok);
      case Dispatch => CommandScans(s, ok);
      case CheckError => CommandScans(s, ok);
      case CheckRing => CommandScans(s, ok);
      case RegisterBus => CommandScans(s, ok);
      case NewConfig(_) => CommandScans(s, ok);
      case _ => SendScans(s, ok);
    }
  }

  lemma SendScans(s: State, ok: bool)
    requires ScanInv(s) && (s.pc.Copy? ==> s.pc.i >= s.cfg.pktcnt)
    requires s.pc.PowerOnReset? || s.pc.Copy? || s.pc.ClearSent? || s.pc.FillMemory? || s.pc.MarkValid?
          || s.pc.ClearError? || s.pc.ClearCommand?
    ensures ScanInv(MainStep(s, ok))
  {
    MainKeeps(s, ok);
  }

  lemma StepScans(s: State, a: Action)
    requires ScanInv(s) && Enabled(s, a)
    ensures ScanInv(Step(s, a))
  {
    if a.TimerIrq? && s.timer.flg {
      ReadKeeps(s, a.ok, a.value, a.again);
    } else if a.Main? && s.pc.Copy? && s.pc.i < s.cfg.pktcnt {
      CopyKeeps(s, s.pc.i);
    } else if a.Main? {
      MainScans(s, a.ok);
    } else {
      HandlerKeeps(s, a);
    }
  }

  lemma {:induction false} RunScans(states: seq<State>, acts: seq<Action>, i: nat)
    requires IsRun(states, acts) && i < |states|
    ensures ScanInv(states[i])
    decreases i
  {
    if i == 0 {
      InitialInv(states[0]);
    } else {
      RunScans(states, acts, i - 1);
      StepScans(states[i - 1], acts[i - 1]);
    }
  }
}
