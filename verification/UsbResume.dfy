/**
 The USB resume machine, driven by requests and by one ESOF interrupt per missing frame start.
 */
module UsbResume {
  import opened Words

  datatype Phase = External | Internal | Later | Wait | Start | On | Off | Esof

  /** `signalling`: the RESUME bit of the control register; `lowPower`: its suspend bits. */
  datatype Resume = Resume(phase: Phase, esofCnt: u8, remoteWakeup: bool, signalling: bool, lowPower: bool)

  /** An 8-bit counter wraps below zero. */
  function Decrement(c: u8): u8 {
    (c - 1) % 0x100
  }

  function ResumeInit(r: Resume): Resume {
    r.(signalling := false, lowPower := false)
  }

  /** A request other than ESOF first becomes the phase. */
  function Request(r: Resume, req: Phase): Resume {
    var s := if req == Esof then r else r.(phase := req);
    match s.phase
    case External => if s.remoteWakeup then s.(phase := On) else ResumeInit(s).(phase := Off)
    case Internal => ResumeInit(s).(phase := Start, remoteWakeup := true)
    case Later => s.(esofCnt := 2, phase := Wait)
    case Wait =>
      var c := Decrement(s.esofCnt);
      s.(esofCnt := c, phase := if c == 0 then Start else Wait)
    case Start => s.(signalling := true, phase := On, esofCnt := 10)
    case On =>
      var c := Decrement(s.esofCnt);
      if c == 0 then s.(esofCnt := c, signalling := false, phase := Off, remoteWakeup := false)
      else s.(esofCnt := c)
    case _ => s.(phase := Off)
  }

  function Ticks(r: Resume, n: nat): Resume
    decreases n
  {
    if n == 0 then r else Ticks(Request(r, Esof), n - 1)
  }

  // ---------- settling ----------

  /** How many decrements until the counter is zero. */
  function Countdown(c: u8): nat {
    if c == 0 then 0x100 else c
  }

  /** How many ESOF ticks until the machine is off. */
  function TicksToOff(r: Resume): nat {
    match r.phase
    case Off => 0
    case Esof => 1
    case On => Countdown(r.esofCnt)
    case Start => 1 + 10
    case Wait => Countdown(r.esofCnt) + 1 + 10
    case Later => 1 + 2 + 1 + 10
    case Internal => 1 + 1 + 10
    case External => if r.remoteWakeup then 1 + Countdown(r.esofCnt) else 1
  }

  lemma CountdownStep(c: u8)
    ensures if c == 1 then Decrement(c) == 0 else Decrement(c) != 0 && Countdown(Decrement(c)) == Countdown(c) - 1
  {
  }

  lemma TickCountsDown(r: Resume)
    ensures TicksToOff(Request(r, Esof)) == if TicksToOff(r) == 0 then 0 else TicksToOff(r) - 1
  {
    CountdownStep(r.esofCnt);
  }

  /** From every phase and counter value, ticks alone switch the machine off, after exactly the
      number of ticks computed, at most 267, and it stays off. */
  lemma AlwaysSettles(r: Resume, n: nat)
    ensures Ticks(r, n).phase == Off <==> n >= TicksToOff(r)
    ensures TicksToOff(r) <= 267
  {
    TicksLeft(r, n);
  }

  lemma {:induction false} TicksLeft(r: Resume, n: nat)
    ensures TicksToOff(Ticks(r, n)) == if n >= TicksToOff(r) then 0 else TicksToOff(r) - n
    decreases n
  {
    if n == 0 {
    } else {
      TickCountsDown(r);
      TicksLeft(Request(r, Esof), n - 1);
    }
  }

  // ---------- signalling ----------

  /** While the machine counts in phase On, the RESUME bit keeps its value until the last tick. */
  lemma {:induction false} OnFor(r: Resume, n: nat)
    requires r.phase == On
    ensures n < Countdown(r.esofCnt) ==>
              Ticks(r, n) == r.(esofCnt := if n == 0 then r.esofCnt else Countdown(r.esofCnt) - n)
    ensures n >= Countdown(r.esofCnt) ==> Ticks(r, n).phase == Off && !Ticks(r, n).signalling
    decreases n
  {
    if n == 0 {
    } else {
      if Countdown(r.esofCnt) > 1 {
        OnFor(Request(r, Esof), n - 1);
      } else {
        OffStays(Request(r, Esof), n - 1);
      }
    }
  }

  lemma {:induction false} OffStays(r: Resume, n: nat)
    requires r.phase == Off
    ensures Ticks(r, n) == r
    decreases n
  {
    if n == 0 {
    } else {
      OffStays(r, n - 1);
    }
  }

  /** A remote wake-up drives RESUME from the first tick after the request for exactly 10 ticks. */
  lemma InternalSignals(r: Resume, n: nat)
    ensures Ticks(Request(r, Internal), n).signalling <==> 1 <= n < 11
  {
    var s := Request(r, Internal);
    if n > 0 {
      OnFor(Request(s, Esof), n - 1);
    }
  }

  /** A postponed resume drives RESUME from the third tick on for exactly 10 ticks; before that the
      bit is left as it was. */
  lemma LaterSignals(r: Resume, n: nat)
    ensures Ticks(Request(r, Later), n).signalling <==> if n < 3 then r.signalling else n < 13
  {
    var s0 := Request(r, Later);
    var s1 := Request(s0, Esof);
    var s2 := Request(s1, Esof);
    if n >= 3 {
      assert Ticks(s0, n) == Ticks(s1, n - 1) == Ticks(s2, n - 2) == Ticks(Request(s2, Esof), n - 3);
      OnFor(Request(s2, Esof), n - 3);
    } else if n == 2 {
      assert Ticks(s0, 2) == Ticks(s1, 1) == s2;
    }
  }

  /** A remote wake-up is over with its signalling: the mark of it is kept for exactly as long. */
  lemma WakeupEnds(r: Resume, n: nat)
    ensures Ticks(Request(r, Internal), n).remoteWakeup <==> n < 11
  {
    var s := Request(r, Internal);
    if n > 0 {
      MarkedWhileOn(Request(s, Esof), n - 1);
    }
  }

  lemma {:induction false} MarkedWhileOn(r: Resume, n: nat)
    requires r.phase == On && r.remoteWakeup
    ensures Ticks(r, n).remoteWakeup <==> n < Countdown(r.esofCnt)
    decreases n
  {
    if n == 0 {
    } else if Countdown(r.esofCnt) > 1 {
      MarkedWhileOn(Request(r, Esof), n - 1);
    } else {
      OffStays(Request(r, Esof), n - 1);
    }
  }

  /** A resume seen on the bus otherwise restores normal operation at once: the machine is off, RESUME
      is not driven, the device is out of low power, and ticks change nothing. */
  lemma ExternalRestores(r: Resume, n: nat)
    requires !r.remoteWakeup
    ensures Ticks(Request(r, External), n) == r.(phase := Off, signalling := false, lowPower := false)
  {
    OffStays(Request(r, External), n);
  }

  /** A resume seen on the bus during a remote wake-up neither cuts short nor prolongs signalling
      that has begun; but if it is seen before the first tick, RESUME is never driven. */
  lemma ExternalDuringWakeup(r: Resume, m: nat, n: nat)
    requires m < 11
    ensures var s := Ticks(Request(r, Internal), m);
            Ticks(Request(s, External), n).signalling <==> 1 <= m && m + n < 11
  {
    var s0 := Request(r, Internal);
    var s := Ticks(s0, m);
    if m > 0 {
      OnFor(Request(s0, Esof), m - 1);
      assert Request(s, External) == s;
    }
    OnFor(Request(s, External), n);
  }

  // ---------- the control register ----------

  /** The bits of the control register; a register value is the set of its one bits. */
  datatype Bit =
    | CTRM | DOVRM | ERRM | WKUPM | SUSPM | RESETM | SOFM | ESOFM | RESUME | FSUSP | LPMODE | PDWN | FRES

  /** The events the firmware handles. */
  const IMR_MSK: set<Bit> := {CTRM, WKUPM, ERRM, SOFM, ESOFM, RESETM}

  predicate Signalling(cntr: set<Bit>) {
    RESUME in cntr
  }

  predicate LowPower(cntr: set<Bit>) {
    FSUSP in cntr || LPMODE in cntr
  }

  /** All handled events interrupt, ESOF among them, so the machine gets its ticks. */
  predicate Listening(cntr: set<Bit>) {
    IMR_MSK <= cntr
  }

  // ---------- the routine ----------

  class ResumeMachine {
    var eState: Phase
    var bESOFcnt: u8
    var remotewakeupon: u32
    var cntr: set<Bit>

    ghost function State(): Resume
      reads this
    {
      Resume(eState, bESOFcnt, remotewakeupon != 0, Signalling(cntr), LowPower(cntr))
    }

    method Resume_Init()
      modifies `cntr
      ensures State() == ResumeInit(old(State())) && Listening(cntr)
    {
      var wCNTR := cntr;
      wCNTR := wCNTR - {LPMODE};
      cntr := wCNTR;
      cntr := IMR_MSK;
    }

    /** The machine takes its step and keeps its clock: ESOF interrupts are never switched off. */
    method HandleResume(eResumeSetVal: Phase)
      modifies this
      ensures State() == Request(old(State()), eResumeSetVal)
      ensures old(Listening(cntr)) || eResumeSetVal == Internal ==> Listening(cntr)
      ensures eResumeSetVal == External && old(remotewakeupon) == 0 ==>
                eState == Off && Listening(cntr) && !Signalling(cntr) && !LowPower(cntr)
    {
      if eResumeSetVal != Esof {
        eState := eResumeSetVal;
      }
      match eState {
        case External =>
          if remotewakeupon == 0 {
            Resume_Init();
            eState := Off;
          } else {
            eState := On;
          }
        case Internal =>
          Resume_Init();
          eState := Start;
          remotewakeupon := 1;
        case Later =>
          bESOFcnt := 2;
          eState := Wait;
        case Wait =>
          bESOFcnt := (bESOFcnt - 1) % 0x100;
          if bESOFcnt == 0 {
            eState := Start;
          }
        case Start =>
          var wCNTR := cntr;
          wCNTR := wCNTR + {RESUME};
          cntr := wCNTR;
          eState := On;
          bESOFcnt := 10;
        case On =>
          bESOFcnt := (bESOFcnt - 1) % 0x100;
          if bESOFcnt == 0 {
            var wCNTR := cntr;
            wCNTR := wCNTR - {RESUME};
            cntr := wCNTR;
            eState := Off;
            remotewakeupon := 0;
          }
        case _ =>
          eState := Off;
      }
    }

    /** A remote wake-up and the `n` ESOF interrupts after it: whatever the control register held,
        its RESUME bit is set from the first tick up to the tenth, its suspend bits are clear, and
        its interrupts are enabled. */
    method RemoteWakeup(n: nat)
      modifies this
      ensures Signalling(cntr) <==> 1 <= n < 11
      ensures !LowPower(cntr) && Listening(cntr)
    {
      HandleResume(Internal);
      ghost var s := State();
      for i := 0 to n
        invariant Ticks(State(), n - i) == Ticks(s, n) && Listening(cntr) && !LowPower(cntr)
        invariant i > 0 ==> State().phase in {On, Off}
        invariant i == 0 ==> State().phase == Start
      {
        HandleResume(Esof);
      }
      InternalSignals(old(State()), n);
    }
  }
}
