/**
 The channel sequence and sample times of the analogue converter, packed into six registers.
 */
module Adc {

  /** Clear-then-set of the field under `mask` at bit `pos`. */
  function Put(reg: bv32, mask: bv32, pos: bv32, value: bv32): bv32
    requires pos <= 31
  {
    (reg & !(mask << pos)) | (value << pos)
  }

  function Get(reg: bv32, mask: bv32, pos: bv32): bv32
    requires pos <= 31
  {
    (reg >> pos) & mask
  }

  datatype Regs = Regs(smpr1: bv32, smpr2: bv32, sqr1: bv32, sqr2: bv32, sqr3: bv32, jsqr: bv32)

  // ---------- what the registers mean ----------

  predicate IsChannel(c: bv32) { c <= 17 }

  predicate IsRank(k: bv32) { 1 <= k <= 16 }

  function SampleTime(r: Regs, channel: bv32): bv32
    requires IsChannel(channel)
  {
    if channel > 9 then Get(r.smpr1, 7, 3 * (channel - 10)) else Get(r.smpr2, 7, 3 * channel)
  }

  function RankChannel(r: Regs, rank: bv32): bv32
    requires IsRank(rank)
  {
    if rank < 7 then Get(r.sqr3, 0x1F, 5 * (rank - 1))
    else if rank < 13 then Get(r.sqr2, 0x1F, 5 * (rank - 7))
    else Get(r.sqr1, 0x1F, 5 * (rank - 13))
  }

  function Length(r: Regs): bv32 {
    Get(r.sqr1, 0xF, 20) + 1
  }

  function InjectedLength(r: Regs): bv32 {
    LengthField(r.jsqr) + 1
  }

  function LengthField(jsqr: bv32): bv32 {
    (jsqr & 0x0030_0000) >> 20
  }

  /** The converter takes the last `InjectedLength` of four slots. */
  function InjectedSlot(r: Regs, slot: bv32): bv32
    requires slot <= 3
  {
    Get(r.jsqr, 0x1F, 5 * slot)
  }

  function InjectedChannel(r: Regs, rank: bv32): bv32
    requires 1 <= rank <= InjectedLength(r) <= 4
  {
    InjectedSlot(r, TargetSlot(r.jsqr, rank))
  }

  /** Where the first field of each group lies. */
  lemma Layout(r: Regs)
    ensures RankChannel(r, 1) == r.sqr3 & 0x1F && RankChannel(r, 7) == r.sqr2 & 0x1F
    ensures RankChannel(r, 13) == r.sqr1 & 0x1F && InjectedSlot(r, 0) == r.jsqr & 0x1F
    ensures SampleTime(r, 0) == r.smpr2 & 7 && SampleTime(r, 10) == r.smpr1 & 7
  {
  }

  // ---------- what the driver does ----------

  datatype Call =
    | Regular(channel: bv32, rank: bv32, time: bv32)
    | Injected(channel: bv32, rank: bv32, time: bv32)
    | SetLength(n: bv32)
    | SetInjectedLength(n: bv32)

  /** The parameter checks of the driver. */
  predicate Permitted(c: Call) {
    match c
    case Regular(channel, rank, time) => IsChannel(channel) && IsRank(rank) && time <= 7
    case Injected(channel, rank, time) => IsChannel(channel) && 1 <= rank <= 4 && time <= 7
    case SetLength(n) => 1 <= n <= 16
    case SetInjectedLength(n) => 1 <= n <= 4
  }

  function PutSampleTime(r: Regs, channel: bv32, time: bv32): Regs
    requires IsChannel(channel)
  {
    if channel > 9 then r.(smpr1 := Put(r.smpr1, 7, 3 * (channel - 10), time))
    else r.(smpr2 := Put(r.smpr2, 7, 3 * channel, time))
  }

  function PutRank(r: Regs, channel: bv32, rank: bv32): Regs
    requires IsRank(rank)
  {
    if rank < 7 then r.(sqr3 := Put(r.sqr3, 0x1F, 5 * (rank - 1), channel))
    else if rank < 13 then r.(sqr2 := Put(r.sqr2, 0x1F, 5 * (rank - 7), channel))
    else r.(sqr1 := Put(r.sqr1, 0x1F, 5 * (rank - 13), channel))
  }

  /** Slot of an injected rank, computed from the length field. */
  function TargetSlot(jsqr: bv32, rank: bv32): (slot: bv32)
    requires 1 <= rank <= 4
    ensures slot <= 6
    ensures slot < 4 <==> rank <= LengthField(jsqr) + 1
  {
    (rank + 3) - (LengthField(jsqr) + 1)
  }

  function Do(r: Regs, c: Call): Regs
    requires Permitted(c)
  {
    match c
    case Regular(channel, rank, time) => PutRank(PutSampleTime(r, channel, time), channel, rank)
    case Injected(channel, rank, time) =>
      var r' := PutSampleTime(r, channel, time);
      r'.(jsqr := Put(r.jsqr, 0x1F, 5 * TargetSlot(r.jsqr, rank), channel))
    case SetLength(n) => r.(sqr1 := PutLength(r.sqr1, n))
    case SetInjectedLength(n) => r.(jsqr := PutInjectedLength(r.jsqr, n))
  }

  // ---------- fields do not disturb each other ----------

  lemma RankFields(reg: bv32, k: bv32, k': bv32, v: bv32)
    requires k < 6 && k' < 6 && v <= 0x1F
    ensures Get(Put(reg, 0x1F, 5 * k, v), 0x1F, 5 * k') == if k == k' then v else Get(reg, 0x1F, 5 * k')
  {
  }

  lemma TimeFields(reg: bv32, k: bv32, k': bv32, v: bv32)
    requires k < 10 && k' < 10 && v <= 7
    ensures Get(Put(reg, 7, 3 * k, v), 7, 3 * k') == if k == k' then v else Get(reg, 7, 3 * k')
  {
  }

  lemma RankKeepsLength(reg: bv32, k: bv32, v: bv32)
    requires k < 4 && v <= 0x1F
    ensures Get(Put(reg, 0x1F, 5 * k, v), 0xF, 20) == Get(reg, 0xF, 20)
    ensures LengthField(Put(reg, 0x1F, 5 * k, v)) == LengthField(reg)
  {
  }

  function PutLength(reg: bv32, n: bv32): bv32 {
    (reg & 0xFF0F_FFFF) | ((n - 1) << 20)
  }

  function PutInjectedLength(reg: bv32, n: bv32): bv32 {
    (reg & 0xFFCF_FFFF) | ((n - 1) << 20)
  }

  lemma LengthKeepsRank(reg: bv32, k: bv32, n: bv32)
    requires k < 4 && 1 <= n <= 16
    ensures Get(PutLength(reg, n), 0x1F, 5 * k) == Get(reg, 0x1F, 5 * k)
  {
  }

  lemma LengthIsSet(reg: bv32, n: bv32)
    requires 1 <= n <= 16
    ensures Get(PutLength(reg, n), 0xF, 20) == n - 1
    ensures n <= 4 ==> LengthField(PutInjectedLength(reg, n)) == n - 1
  {
  }

  lemma InjectedLengthKeepsSlot(reg: bv32, k: bv32, n: bv32)
    requires k < 4 && 1 <= n <= 4
    ensures Get(PutInjectedLength(reg, n), 0x1F, 5 * k) == Get(reg, 0x1F, 5 * k)
  {
  }

  // ---------- one call ----------

  lemma TimeOfPut(r: Regs, c: bv32, channel: bv32, time: bv32)
    requires IsChannel(c) && IsChannel(channel) && time <= 7
    ensures SampleTime(PutSampleTime(r, c, time), channel) == if c == channel then time else SampleTime(r, channel)
  {
    if c > 9 {
      if channel > 9 {
        TimeFields(r.smpr1, c - 10, channel - 10, time);
      }
    } else if channel <= 9 {
      TimeFields(r.smpr2, c, channel, time);
    }
  }

  lemma RankOfPut(r: Regs, channel: bv32, rank: bv32, k: bv32)
    requires IsChannel(channel) && IsRank(rank) && IsRank(k)
    ensures RankChannel(PutRank(r, channel, rank), k) == if k == rank then channel else RankChannel(r, k)
  {
    if rank < 7 {
      if k < 7 {
        RankFields(r.sqr3, rank - 1, k - 1, channel);
      }
    } else if rank < 13 {
      if 7 <= k < 13 {
        RankFields(r.sqr2, rank - 7, k - 7, channel);
      }
    } else if 13 <= k {
      RankFields(r.sqr1, rank - 13, k - 13, channel);
    }
  }

  lemma LengthOfPut(r: Regs, channel: bv32, rank: bv32)
    requires IsChannel(channel) && IsRank(rank)
    ensures Length(PutRank(r, channel, rank)) == Length(r)
  {
    if 13 <= rank {
      RankKeepsLength(r.sqr1, rank - 13, channel);
    }
  }

  lemma DoSampleTime(r: Regs, c: Call, channel: bv32)
    requires Permitted(c) && IsChannel(channel)
    ensures SampleTime(Do(r, c), channel) ==
            if (c.Regular? || c.Injected?) && c.channel == channel then c.time else SampleTime(r, channel)
  {
    if c.Regular? || c.Injected? {
      TimeOfPut(r, c.channel, channel, c.time);
    }
  }

  lemma DoRank(r: Regs, c: Call, k: bv32)
    requires Permitted(c) && IsRank(k)
    ensures RankChannel(Do(r, c), k) == if c.Regular? && c.rank == k then c.channel else RankChannel(r, k)
  {
    match c
    case Regular(channel, rank, time) => RankOfPut(PutSampleTime(r, channel, time), channel, rank, k);
    case SetLength(n) => if 13 <= k { LengthKeepsRank(r.sqr1, k - 13, n); }
    case _ =>
  }

  lemma LengthOfSet(sqr1: bv32, n: bv32)
    requires 1 <= n <= 16
    ensures Get(PutLength(sqr1, n), 0xF, 20) + 1 == n
  {
    LengthIsSet(sqr1, n);
  }

  lemma DoLength(r: Regs, c: Call)
    requires Permitted(c)
    ensures Length(Do(r, c)) == if c.SetLength? then c.n else Length(r)
  {
    if c.Regular? {
      LengthOfPut(PutSampleTime(r, c.channel, c.time), c.channel, c.rank);
    } else if c.SetLength? {
      LengthOfSet(r.sqr1, c.n);
    } else {
      assert Do(r, c).sqr1 == r.sqr1;
    }
  }

  lemma SlotOfPut(jsqr: bv32, target: bv32, channel: bv32, slot: bv32)
    requires IsChannel(channel) && target < 4 && slot < 4
    ensures var jsqr' := Put(jsqr, 0x1F, 5 * target, channel);
            && LengthField(jsqr') == LengthField(jsqr)
            && Get(jsqr', 0x1F, 5 * slot) == if target == slot then channel else Get(jsqr, 0x1F, 5 * slot)
  {
    RankKeepsLength(jsqr, target, channel);
    RankFields(jsqr, target, slot, channel);
  }

  lemma DoInjectedChannel(r: Regs, channel: bv32, rank: bv32, time: bv32, slot: bv32)
    requires Permitted(Injected(channel, rank, time)) && rank <= InjectedLength(r) && slot <= 3
    ensures var r' := Do(r, Injected(channel, rank, time));
            && InjectedLength(r') == InjectedLength(r)
            && InjectedSlot(r', slot) == if TargetSlot(r.jsqr, rank) == slot then channel else InjectedSlot(r, slot)
  {
    SlotOfPut(r.jsqr, TargetSlot(r.jsqr, rank), channel, slot);
  }

  lemma DoInjectedLength(r: Regs, n: bv32, slot: bv32)
    requires 1 <= n <= 4 && slot <= 3
    ensures var r' := Do(r, SetInjectedLength(n));
            InjectedLength(r') == n && InjectedSlot(r', slot) == InjectedSlot(r, slot)
  {
    InjectedLengthKeepsSlot(r.jsqr, slot, n);
    LengthIsSet(r.jsqr, n);
  }

  lemma DoInjected(r: Regs, c: Call, slot: bv32)
    requires Permitted(c) && slot <= 3
    requires c.Injected? ==> c.rank <= InjectedLength(r)
    ensures InjectedLength(Do(r, c)) == if c.SetInjectedLength? then c.n else InjectedLength(r)
    ensures InjectedSlot(Do(r, c), slot) ==
            if c.Injected? && TargetSlot(r.jsqr, c.rank) == slot then c.channel else InjectedSlot(r, slot)
  {
    if c.Injected? {
      DoInjectedChannel(r, c.channel, c.rank, c.time, slot);
    } else if c.SetInjectedLength? {
      DoInjectedLength(r, c.n, slot);
    } else {
      assert Do(r, c).jsqr == r.jsqr;
    }
  }

  /** An injected rank just beyond the length overwrites the length field with the channel: the call
      keeps the length exactly if the rank is not that one, or the channel happens to agree. */
  lemma InjectedKeepsLength(r: Regs, channel: bv32, rank: bv32, time: bv32)
    requires Permitted(Injected(channel, rank, time))
    ensures InjectedLength(Do(r, Injected(channel, rank, time))) == InjectedLength(r)
       <==> rank != InjectedLength(r) + 1 || channel & 3 == InjectedLength(r) - 1
  {
    BeyondLength(r.jsqr, channel, TargetSlot(r.jsqr, rank));
    TargetBeyond(r.jsqr, rank);
  }

  lemma TargetBeyond(jsqr: bv32, rank: bv32)
    requires 1 <= rank <= 4
    ensures TargetSlot(jsqr, rank) == 4 <==> rank == LengthField(jsqr) + 2
  {
  }

  lemma BeyondLength(jsqr: bv32, channel: bv32, slot: bv32)
    requires slot <= 6 && channel <= 17
    ensures LengthField(Put(jsqr, 0x1F, 5 * slot, channel)) == if slot == 4 then channel & 3 else LengthField(jsqr)
  {
  }

  // ---------- any sequence of calls ----------

  ghost predicate AllPermitted(calls: seq<Call>) {
    forall i | 0 <= i < |calls| :: Permitted(calls[i])
  }

  function Run(r: Regs, calls: seq<Call>): Regs
    requires AllPermitted(calls)
  {
    if calls == [] then r else Do(Run(r, calls[..|calls| - 1]), calls[|calls| - 1])
  }

  /** The channel last given to rank `k`, or `was` if none. */
  function LastRank(calls: seq<Call>, k: bv32, was: bv32): bv32 {
    if calls == [] then was
    else
      var c := calls[|calls| - 1];
      if c.Regular? && c.rank == k then c.channel else LastRank(calls[..|calls| - 1], k, was)
  }

  function LastTime(calls: seq<Call>, channel: bv32, was: bv32): bv32 {
    if calls == [] then was
    else
      var c := calls[|calls| - 1];
      if (c.Regular? || c.Injected?) && c.channel == channel then c.time
      else LastTime(calls[..|calls| - 1], channel, was)
  }

  function LastLength(calls: seq<Call>, was: bv32): bv32 {
    if calls == [] then was
    else if calls[|calls| - 1].SetLength? then calls[|calls| - 1].n
    else LastLength(calls[..|calls| - 1], was)
  }

  /** After any sequence of calls every regular rank, every sample time and the sequence length have
      the value last set for them. */
  lemma {:induction false} RegularIsMap(r: Regs, calls: seq<Call>, k: bv32, channel: bv32)
    requires AllPermitted(calls) && IsRank(k) && IsChannel(channel)
    ensures RankChannel(Run(r, calls), k) == LastRank(calls, k, RankChannel(r, k))
    ensures SampleTime(Run(r, calls), channel) == LastTime(calls, channel, SampleTime(r, channel))
    ensures Length(Run(r, calls)) == LastLength(calls, Length(r))
  {
    if calls == [] {
    } else {
      var before, c := calls[..|calls| - 1], calls[|calls| - 1];
      RegularIsMap(r, before, k, channel);
      DoRank(Run(r, before), c, k);
      DoSampleTime(Run(r, before), c, channel);
      DoLength(Run(r, before), c);
    }
  }

  // ---------- injected channels ----------

  function LastInjectedLength(calls: seq<Call>, was: bv32): bv32 {
    if calls == [] then was
    else if calls[|calls| - 1].SetInjectedLength? then calls[|calls| - 1].n
    else LastInjectedLength(calls[..|calls| - 1], was)
  }

  /** No injected rank exceeds the length at the time of its call. */
  predicate RanksWithin(calls: seq<Call>, was: bv32) {
    calls == [] ||
    var before, c := calls[..|calls| - 1], calls[|calls| - 1];
    RanksWithin(before, was) && (c.Injected? ==> c.rank <= LastInjectedLength(before, was))
  }

  /** Ranks are right-aligned in the four slots: the last rank is in the last slot. */
  function SlotOf(rank: bv32, len: bv32): bv32 {
    (rank + 3) - len
  }

  /** The channel last given to a slot, or `was` if none; `len` is the length before the calls. */
  function LastSlot(calls: seq<Call>, slot: bv32, len: bv32, was: bv32): bv32 {
    if calls == [] then was
    else
      var before, c := calls[..|calls| - 1], calls[|calls| - 1];
      if c.Injected? && SlotOf(c.rank, LastInjectedLength(before, len)) == slot then c.channel
      else LastSlot(before, slot, len, was)
  }

  lemma TargetIsSlot(jsqr: bv32, rank: bv32)
    requires 1 <= rank <= 4
    ensures TargetSlot(jsqr, rank) == SlotOf(rank, LengthField(jsqr) + 1)
  {
  }

  /** After any sequence of calls with ranks within the length of the moment, including changes of the
      length, the length and every slot have the values last set for them. */
  lemma {:induction false} InjectedSlotsAreMap(r: Regs, calls: seq<Call>, slot: bv32)
    requires AllPermitted(calls) && RanksWithin(calls, InjectedLength(r)) && slot <= 3
    ensures InjectedLength(Run(r, calls)) == LastInjectedLength(calls, InjectedLength(r))
    ensures InjectedSlot(Run(r, calls), slot) == LastSlot(calls, slot, InjectedLength(r), InjectedSlot(r, slot))
  {
    if calls == [] {
    } else {
      var before, c := calls[..|calls| - 1], calls[|calls| - 1];
      InjectedSlotsAreMap(r, before, slot);
      DoInjected(Run(r, before), c, slot);
      if c.Injected? {
        TargetIsSlot(Run(r, before).jsqr, c.rank);
      }
    }
  }

  /** Injected ranks do not exceed the length, and the length is not changed. */
  predicate InjectedWithin(calls: seq<Call>, len: bv32) {
    forall i | 0 <= i < |calls| :: !calls[i].SetInjectedLength? && (calls[i].Injected? ==> calls[i].rank <= len)
  }

  function LastInjected(calls: seq<Call>, rank: bv32, was: bv32): bv32 {
    if calls == [] then was
    else
      var c := calls[|calls| - 1];
      if c.Injected? && c.rank == rank then c.channel else LastInjected(calls[..|calls| - 1], rank, was)
  }

  lemma SlotsDistinct(rank: bv32, rank': bv32, len: bv32)
    requires 1 <= rank <= 4 && 1 <= rank' <= 4 && 1 <= len <= 4
    ensures SlotOf(rank, len) == SlotOf(rank', len) <==> rank == rank'
  {
  }

  lemma {:induction false} SlotsOfFixedLength(calls: seq<Call>, rank: bv32, len: bv32, was: bv32)
    requires AllPermitted(calls) && InjectedWithin(calls, len) && 1 <= rank <= 4 && 1 <= len <= 4
    ensures RanksWithin(calls, len) && LastInjectedLength(calls, len) == len
    ensures LastSlot(calls, SlotOf(rank, len), len, was) == LastInjected(calls, rank, was)
  {
    if calls == [] {
    } else {
      var before, c := calls[..|calls| - 1], calls[|calls| - 1];
      SlotsOfFixedLength(before, rank, len, was);
      if c.Injected? {
        SlotsDistinct(c.rank, rank, len);
      }
    }
  }

  /** Between changes of the length, every injected rank up to it has the channel last set for it. */
  lemma InjectedIsMap(r: Regs, calls: seq<Call>, rank: bv32)
    requires AllPermitted(calls) && InjectedWithin(calls, InjectedLength(r))
    requires 1 <= rank <= InjectedLength(r) <= 4
    ensures InjectedLength(Run(r, calls)) == InjectedLength(r)
    ensures InjectedChannel(Run(r, calls), rank) == LastInjected(calls, rank, InjectedChannel(r, rank))
  {
    var slot := TargetSlot(r.jsqr, rank);
    TargetIsSlot(r.jsqr, rank);
    TargetIsSlot(Run(r, calls).jsqr, rank);
    SlotsOfFixedLength(calls, rank, InjectedLength(r), InjectedSlot(r, slot));
    InjectedSlotsAreMap(r, calls, slot);
  }

  // ---------- the driver ----------

  class Driver {
    var smpr1: bv32
    var smpr2: bv32
    var sqr1: bv32
    var sqr2: bv32
    var sqr3: bv32
    var jsqr: bv32

    ghost function State(): Regs
      reads this
    {
      Regs(smpr1, smpr2, sqr1, sqr2, sqr3, jsqr)
    }

    /** Clears the field under `mask` at `pos` and sets it to `value`. */
    static method ClearSet(reg: bv32, mask: bv32, pos: bv32, value: bv32) returns (tmpreg1: bv32)
      requires pos <= 31
      ensures tmpreg1 == Put(reg, mask, pos, value)
    {
      tmpreg1 := reg;
      var tmpreg2 := mask << pos;
      tmpreg1 := tmpreg1 & !tmpreg2;
      tmpreg2 := value << pos;
      tmpreg1 := tmpreg1 | tmpreg2;
    }

    method ConfigureSampleTime(channel: bv32, time: bv32)
      requires IsChannel(channel) && time <= 7
      modifies this
      ensures State() == PutSampleTime(old(State()), channel, time)
    {
      if channel > 9 {
        smpr1 := ClearSet(smpr1, 7, 3 * (channel - 10), time);
      } else {
        smpr2 := ClearSet(smpr2, 7, 3 * channel, time);
      }
    }

    method ConfigureRank(channel: bv32, rank: bv32)
      requires IsRank(rank)
      modifies this
      ensures State() == PutRank(old(State()), channel, rank)
    {
      if rank < 7 {
        sqr3 := ClearSet(sqr3, 0x1F, 5 * (rank - 1), channel);
      } else if rank < 13 {
        sqr2 := ClearSet(sqr2, 0x1F, 5 * (rank - 7), channel);
      } else {
        sqr1 := ClearSet(sqr1, 0x1F, 5 * (rank - 13), channel);
      }
    }

    method ADC_RegularChannelConfig(channel: bv32, rank: bv32, time: bv32)
      requires Permitted(Regular(channel, rank, time))
      modifies this
      ensures State() == Do(old(State()), Regular(channel, rank, time))
    {
      ConfigureSampleTime(channel, time);
      ConfigureRank(channel, rank);
    }

    method ADC_InjectedChannelConfig(channel: bv32, rank: bv32, time: bv32)
      requires Permitted(Injected(channel, rank, time))
      modifies this
      ensures State() == Do(old(State()), Injected(channel, rank, time))
    {
      ConfigureSampleTime(channel, time);
      var tmpreg3 := (jsqr & 0x0030_0000) >> 20;
      var pos: bv32 := 5 * ((rank + 3) - (tmpreg3 + 1));
      assert pos == 5 * TargetSlot(jsqr, rank);
      jsqr := ClearSet(jsqr, 0x1F, pos, channel);
    }

    method ADC_InjectedSequencerLengthConfig(length: bv32)
      requires Permitted(SetInjectedLength(length))
      modifies this
      ensures State() == Do(old(State()), SetInjectedLength(length))
    {
      var tmpreg1 := jsqr & 0xFFCF_FFFF;
      jsqr := tmpreg1 | ((length - 1) << 20);
    }

    /** The part of ADC_Init that sets the sequence length. */
    method InitLength(nbrOfChannel: bv32)
      requires Permitted(SetLength(nbrOfChannel))
      modifies this
      ensures State() == Do(old(State()), SetLength(nbrOfChannel))
    {
      var tmpreg1 := sqr1 & 0xFF0F_FFFF;
      sqr1 := tmpreg1 | ((nbrOfChannel - 1) << 20);
    }
  }
}
