/**
 What every run keeps of the control of sampling: when the timer runs and when the handler may sample,
 and that errors and commands are forgotten only once they are answered.
 */
module SamplingControl {
  import opened Words
  import opened Sampling
  import opened SamplingInvariant
  import opened SamplingScan

  // ---------- the laws ----------

  /** The initialization at power-on, which samples nothing. */
  predicate Booting(pc: Pc) {
    || pc.PowerOnReset?
    || ((pc.InitDevice? || pc.FlushBefore? || pc.StartTimer? || pc.FlushAfter? || pc.InitNext? || pc.InitBus?) && pc.boot)
  }

  /** A configured device samples: outside bus transactions of the main loop and configuration changes
      the handler is allowed to, and only a device with a packet size and a period of at least 63
      microseconds has its timer running. */
  ghost predicate SamplingOn(s: State) {
    && (s.cfg.pktcnt != 0 && !MaskedAt(s.pc) ==> s.timer.flg)
    && (Booting(s.pc) ==> s.cfg.pktcnt == 0)
    && (s.cfg.pktcnt == 0 && !Unsettled(s.pc) ==> !s.timer.running)
    && (Active(s) || s.pc.FlushBefore? || s.pc.StartTimer? ==> s.cfg.pktcnt != 0 ==> s.cfg.time >= 63)
  }

  /** Some attempt of the run has failed. */
  predicate HasFailed(attempts: seq<Option<Sample>>) {
    FailedAt(attempts, |attempts| - 1) || FailedAt(attempts, |attempts| - 2)
  }

  /** Only a failed read stops the timer of a configured device. */
  ghost predicate RunsUntilFailure(s: State) {
    Active(s) && !HasFailed(s.hist.attempts) ==> s.timer.running
  }

  /** The packet the main loop is sending, or has just handed to the endpoint. */
  ghost predicate Reports(s: State) {
    && (s.timer.err == 0 || s.timer.err == 2)
    && (s.pc.ClearSent? || s.pc.FillMemory? || s.pc.MarkValid? ==> s.pc.p.Failure? ==> s.pc.p == Failure(s.allRd, 2))
    && (s.pc.ClearError? ==> s.usb.pma == Failure(s.allRd, 2))
    && (s.pc.ClearCommand? ==> s.usb.pma == Reply)
  }

  ghost predicate ControlInv(s: State) {
    SamplingOn(s) && RunsUntilFailure(s) && Reports(s)
  }

  // ---------- every step keeps them ----------

  lemma StepSamplingOn(s: State, a: Action)
    requires WellFormed(s) && Enabled(s, a) && SamplingOn(s)
    ensures SamplingOn(Step(s, a))
  {
    if a.Main? {
      MainSamplingOn(s, a.ok);
    }
  }

  lemma MainSamplingOn(s: State, ok: bool)
    requires WellFormed(s) && SamplingOn(s)
    ensures SamplingOn(MainStep(s, ok))
  {
  }

  lemma StepRunsUntilFailure(s: State, a: Action)
    requires ScanInv(s) && Enabled(s, a) && RunsUntilFailure(s)
    ensures RunsUntilFailure(Step(s, a))
  {
    if a.Main? {
      MainKeepsRunning(s, a.ok);
    }
  }

  lemma MainKeepsRunning(s: State, ok: bool)
    requires WellFormed(s)
    ensures var s' := MainStep(s, ok);
            Active(s') ==> s'.timer.running == (s.pc.StartTimer? || s.timer.running)
                           && (s.pc.StartTimer? || (Active(s) && s'.hist.attempts == s.hist.attempts))
  {
  }

  lemma StepReports(s: State, a: Action)
    requires Inv(s) && Enabled(s, a) && Reports(s)
    ensures Reports(Step(s, a))
  {
    if a.Main? {
      if SendsAt(s.pc) {
        SendReports(s, a.ok);
      } else {
        MainReports(s, a.ok);
      }
    }
  }

  predicate SendsAt(pc: Pc) {
    pc.ClearSent? || pc.FillMemory? || pc.MarkValid? || pc.ClearError? || pc.ClearCommand?
  }

  lemma SendReports(s: State, ok: bool)
    requires Inv(s) && Reports(s) && SendsAt(s.pc)
    ensures Reports(MainStep(s, ok))
  {
  }

  lemma MainReports(s: State, ok: bool)
    requires WellFormed(s) && Reports(s) && !SendsAt(s.pc)
    ensures Reports(MainStep(s, ok))
  {
    if MaskedAt(s.pc) {
      MaskedReports(s, ok);
    } else {
      TopReports(s, ok);
    }
  }

  lemma MaskedReports(s: State, ok: bool)
    requires WellFormed(s) && Reports(s) && MaskedAt(s.pc)
    ensures Reports(MainStep(s, ok))
  {
  }

  lemma TopReports(s: State, ok: bool)
    requires WellFormed(s) && Reports(s)
    requires s.pc.Top? || s.pc.Dispatch? || s.pc.CheckError? || s.pc.CheckRing? || s.pc.Copy?
    ensures Reports(MainStep(s, ok))
  {
  }

  lemma {:induction false} RunControlled(states: seq<State>, acts: seq<Action>, i: nat)
    requires IsRun(states, acts) && i < |states|
    ensures ControlInv(states[i])
    decreases i
  {
    if i == 0 {
    } else {
      RunControlled(states, acts, i - 1);
      RunScans(states, acts, i - 1);
      StepSamplingOn(states[i - 1], acts[i - 1]);
      StepRunsUntilFailure(states[i - 1], acts[i - 1]);
      StepReports(states[i - 1], acts[i - 1]);
    }
  }

  // ---------- over runs ----------

  /** In every run, from the start of sampling to the next configuration, the timer runs if and only
      if no read has failed. */
  lemma TimerRunsExactly(states: seq<State>, acts: seq<Action>, i: nat)
    requires IsRun(states, acts) && i < |states| && Active(states[i])
    ensures states[i].timer.running <==> forall j | 0 <= j < |states[i].hist.attempts| :: states[i].hist.attempts[j].Some?
  {
    RunControlled(states, acts, i);
    RunScans(states, acts, i);
    var h := states[i].hist;
    if !HasFailed(h.attempts) {
      forall j: nat | j < |h.attempts| ensures h.attempts[j].Some? {
        assert AttemptHolds(h.regs, h.attempts, j);
      }
    }
  }

  /** In every run a timer interrupt of a configured device, outside the points at which the main loop
      masks it, makes exactly one read attempt. */
  lemma EveryTickSamples(states: seq<State>, acts: seq<Action>, i: nat)
    requires IsRun(states, acts) && i < |acts| && acts[i].TimerIrq?
    requires Active(states[i]) && !MaskedAt(states[i].pc)
    ensures |states[i + 1].hist.attempts| == |states[i].hist.attempts| + 1
  {
    RunControlled(states, acts, i);
  }

  /** In every run a device without a packet size is not sampled: no attempt is added and its timer is
      off. */
  lemma Unconfigured(states: seq<State>, acts: seq<Action>, i: nat)
    requires IsRun(states, acts) && i < |acts|
    requires states[i].cfg.pktcnt == 0 && !Unsettled(states[i].pc)
    ensures !states[i].timer.running && states[i + 1].hist == if acts[i].InDone? then HostTakes(states[i]).hist else states[i].hist
  {
    RunControlled(states, acts, i);
    RunKeeps(states, acts, i);
  }

  /** In every run a new configuration takes effect unchanged if and only if its period is at least 63;
      otherwise sampling is off. */
  lemma PeriodDecides(states: seq<State>, acts: seq<Action>, i: nat)
    requires IsRun(states, acts) && i < |acts| && acts[i].Main? && states[i].pc.InitDevice?
    ensures states[i + 1].cfg == if states[i].cfg.time >= 63 then states[i].cfg else states[i].cfg.(pktcnt := 0)
    ensures states[i + 1].pc.FlushBefore? <==> states[i].cfg.time >= 63
  {
  }

  /** In every run an error is forgotten only after a report of it, with the sample counter, has been
      handed to the endpoint; a command only after a reply. */
  lemma AnsweredFirst(states: seq<State>, acts: seq<Action>, i: nat)
    requires IsRun(states, acts) && i < |acts|
    ensures states[i].timer.err != 0 && states[i + 1].timer.err == 0 ==>
              states[i].pc == ClearError && states[i].usb.pma == Failure(states[i].allRd, 2)
    ensures states[i].rx.Some? && states[i + 1].rx == None ==>
              states[i].pc == ClearCommand && states[i].usb.pma == Reply
  {
    RunControlled(states, acts, i);
  }

  // ---------- before the first command ----------

  ghost predicate Silent(s: State) {
    && s.rx == None && !s.timer.flg && s.cfg.pktcnt == 0 && !s.timer.running && s.timer.err == 0
    && s.hist.attempts == [] && s.usb.packetSent && !s.usb.valid
    && (Booting(s.pc) || s.pc.Top? || s.pc.Dispatch? || s.pc.CheckError? || s.pc.CheckRing?)
  }

  lemma StepSilent(s: State, a: Action)
    requires WellFormed(s) && Enabled(s, a) && Silent(s) && !a.OutReceived?
    ensures Silent(Step(s, a))
  {
  }

  /** Until the host has sent something, nothing is sampled and nothing is sent. */
  lemma {:induction false} SilentBeforeCommand(states: seq<State>, acts: seq<Action>, i: nat)
    requires IsRun(states, acts) && i < |states|
    requires forall j | 0 <= j < i :: !acts[j].OutReceived?
    ensures Silent(states[i])
    decreases i
  {
    if i == 0 {
    } else {
      SilentBeforeCommand(states, acts, i - 1);
      StepSilent(states[i - 1], acts[i - 1]);
    }
  }
}
