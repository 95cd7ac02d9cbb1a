/**
 Interrupt priorities: how a preemption priority and a subpriority are packed into the four
 implemented bits of a priority byte, by the core functions and, a second time, by the driver.
 */
module Nvic {

  /** Implemented priority bits. */
  const PRIO_BITS: bv32 := 4
  const CHANNELS := 240
  const EXCEPTIONS := 12

  datatype Priority = Priority(preempt: bv32, sub: bv32)

  function PreemptBits(group: bv32): bv32 {
    var g := group & 7;
    if 7 - g > PRIO_BITS then PRIO_BITS else 7 - g
  }

  function SubBits(group: bv32): bv32 {
    var g := group & 7;
    if g + PRIO_BITS < 7 then 0 else g - 7 + PRIO_BITS
  }

  function LowBits(n: bv32): bv32
    requires n <= 4
  {
    (1 << n) - 1
  }

  function EncodePriority(group: bv32, preempt: bv32, sub: bv32): bv32 {
    ((preempt & LowBits(PreemptBits(group))) << SubBits(group)) | (sub & LowBits(SubBits(group)))
  }

  function DecodePriority(priority: bv32, group: bv32): Priority {
    Priority((priority >> SubBits(group)) & LowBits(PreemptBits(group)), priority & LowBits(SubBits(group)))
  }

  /** The byte the core function stores for an encoded priority. */
  function PriorityByte(priority: bv32): bv8 {
    ((priority << (8 - PRIO_BITS)) & 0xFF) as bv8
  }

  /** The priority read back from a byte. */
  function PriorityOf(b: bv8): bv32 {
    (b as bv32) >> (8 - PRIO_BITS)
  }

  /** The byte the driver stores: its own shifts, truncated on the way into the register. */
  function DriverByte(aircr: bv32, preempt: bv8, sub: bv8): bv8
    requires PriorityGroupOf(aircr) >= 3
  {
    var implemented := (0x700 - (aircr & 0x700)) >> 8;
    var tmp := (preempt as bv32) << (4 - implemented);
    (((tmp | ((sub as bv32) & (0x0F >> implemented))) << 4) & 0xFF) as bv8
  }

  function PriorityGroupOf(aircr: bv32): bv32 {
    (aircr & 0x700) >> 8
  }

  // ---------- properties ----------

  lemma FieldsFill(group: bv32)
    ensures PreemptBits(group) + SubBits(group) == PRIO_BITS
  {
  }

  /** NVIC_PriorityGroup_`k`, which is written as 0x700 - 0x100 * k, has `k` bits of preemption priority. */
  lemma GroupWidths(k: bv32)
    requires k <= 4
    ensures PreemptBits((0x700 - (k << 8)) >> 8) == k && SubBits((0x700 - (k << 8)) >> 8) == 4 - k
  {
  }

  /** A priority is kept in the upper four bits of its byte, and read back from there. */
  lemma PriorityBack(priority: bv32)
    requires priority <= 0xF
    ensures PriorityOf(PriorityByte(priority)) == priority && PriorityByte(priority) & 0xF == 0
  {
  }

  /** Both implementations store the same byte, for every grouping the driver configures and every
      pair of values, in range or not. */
  lemma EncodersAgree(aircr: bv32, preempt: bv8, sub: bv8)
    requires PriorityGroupOf(aircr) >= 3
    ensures DriverByte(aircr, preempt, sub)
         == PriorityByte(EncodePriority(PriorityGroupOf(aircr), preempt as bv32, sub as bv32))
  {
  }

  lemma DecodeEncode(group: bv32, preempt: bv32, sub: bv32)
    ensures DecodePriority(EncodePriority(group, preempt, sub), group)
         == Priority(preempt & LowBits(PreemptBits(group)), sub & LowBits(SubBits(group)))
  {
  }

  lemma EncodeDecode(group: bv32, priority: bv32)
    requires priority <= 0xF
    ensures var p := DecodePriority(priority, group);
            EncodePriority(group, p.preempt, p.sub) == priority
  {
  }

  /** Codes are ordered by preemption priority first, then by subpriority. */
  lemma CodesOrderedLexicographically(group: bv32, p: Priority, q: Priority)
    requires p.preempt <= LowBits(PreemptBits(group)) && p.sub <= LowBits(SubBits(group))
    requires q.preempt <= LowBits(PreemptBits(group)) && q.sub <= LowBits(SubBits(group))
    ensures EncodePriority(group, p.preempt, p.sub) < EncodePriority(group, q.preempt, q.sub)
       <==> p.preempt < q.preempt || (p.preempt == q.preempt && p.sub < q.sub)
  {
    var g := group & 7;
    if g <= 3 {
      assert PreemptBits(group) == 4 && SubBits(group) == 0;
    } else if g == 4 {
      assert PreemptBits(group) == 3 && SubBits(group) == 1;
    } else if g == 5 {
      assert PreemptBits(group) == 2 && SubBits(group) == 2;
    } else if g == 6 {
      assert PreemptBits(group) == 1 && SubBits(group) == 3;
    } else {
      assert PreemptBits(group) == 0 && SubBits(group) == 4;
    }
  }

  // ---------- the registers ----------

  class Controller {
    var aircr: bv32
    const ip: array<bv8>
    /** The priorities of the core exceptions 4 to 15, which have the numbers -12 to -1. */
    const shp: array<bv8>
    /** The enabled channels. */
    ghost var enabled: iset<bv8>

    ghost predicate Valid() {
      ip.Length == CHANNELS && shp.Length == EXCEPTIONS && ip != shp
    }

    /** The priority grouping takes effect with the key in the upper half of the register. */
    method NVIC_PriorityGroupConfig(group: bv32)
      requires group & 0x700 == group
      modifies this
      ensures aircr >> 16 == 0x05FA && aircr & 0xFFFF == group
      ensures PriorityGroupOf(aircr) == group >> 8
    {
      aircr := 0x05FA_0000 | group;
    }

    /** A negative number is a core exception, found by its low four bits. */
    method NVIC_SetPriority(irqn: int, priority: bv32)
      requires Valid() && -EXCEPTIONS <= irqn < CHANNELS
      modifies ip, shp
      ensures ip[..] == if irqn < 0 then old(ip[..]) else old(ip[..])[irqn := PriorityByte(priority)]
      ensures shp[..] == if irqn < 0 then old(shp[..])[irqn + EXCEPTIONS := PriorityByte(priority)] else old(shp[..])
    {
      if irqn < 0 {
        shp[irqn % 0x10 - 4] := ((priority << (8 - PRIO_BITS)) & 0xFF) as bv8;
      } else {
        ip[irqn] := ((priority << (8 - PRIO_BITS)) & 0xFF) as bv8;
      }
    }

    method NVIC_GetPriority(irqn: int) returns (priority: bv32)
      requires Valid() && -EXCEPTIONS <= irqn < CHANNELS
      ensures priority == PriorityOf(if irqn < 0 then shp[irqn + EXCEPTIONS] else ip[irqn])
    {
      if irqn < 0 {
        priority := (shp[irqn % 0x10 - 4] as bv32) >> (8 - PRIO_BITS);
      } else {
        priority := (ip[irqn] as bv32) >> (8 - PRIO_BITS);
      }
    }

    /** A priority set and read back is the same, for every interrupt and exception. */
    method SetThenGet(irqn: int, priority: bv32) returns (back: bv32)
      requires Valid() && -EXCEPTIONS <= irqn < CHANNELS && priority <= 0xF
      modifies ip, shp
      ensures back == priority
    {
      NVIC_SetPriority(irqn, priority);
      back := NVIC_GetPriority(irqn);
      PriorityBack(priority);
      assert ip[..][if irqn < 0 then 0 else irqn] == ip[if irqn < 0 then 0 else irqn];
      assert shp[..][if irqn < 0 then irqn + EXCEPTIONS else 0] == shp[if irqn < 0 then irqn + EXCEPTIONS else 0];
    }

    /** Writing a word to ISER[n] enables the channels whose bits are ones, and no other. */
    method WriteIser(n: bv8, w: bv32)
      modifies `enabled
      ensures enabled == old(enabled) + Selected(n, w)
    {
      enabled := enabled + Selected(n, w);
    }

    /** Writing a word to ICER[n] disables the channels whose bits are ones, and no other. */
    method WriteIcer(n: bv8, w: bv32)
      modifies `enabled
      ensures enabled == old(enabled) - Selected(n, w)
    {
      enabled := enabled - Selected(n, w);
    }

    /** Enabling a channel gives it the priority the core functions would, and enables it and no
        other; disabling it leaves all priorities alone. */
    method NVIC_Init(channel: bv8, preempt: bv8, sub: bv8, cmd: bool)
      requires Valid() && channel as int < CHANNELS && PriorityGroupOf(aircr) >= 3
      modifies ip, `enabled
      ensures cmd ==> ip[..] == old(ip[..])[channel as int :=
                        PriorityByte(EncodePriority(PriorityGroupOf(aircr), preempt as bv32, sub as bv32))]
      ensures !cmd ==> ip[..] == old(ip[..])
      ensures enabled == if cmd then old(enabled) + iset{channel} else old(enabled) - iset{channel}
    {
      OneChannel(channel);
      if cmd {
        var tmppriority := (0x700 - (aircr & 0x700)) >> 8;
        var tmppre := 4 - tmppriority;
        var tmpsub: bv32 := 0x0F >> tmppriority;
        tmppriority := (preempt as bv32) << tmppre;
        tmppriority := tmppriority | ((sub as bv32) & tmpsub);
        tmppriority := tmppriority << 4;
        assert (tmppriority & 0xFF) as bv8 == DriverByte(aircr, preempt, sub);
        EncodersAgree(aircr, preempt, sub);
        ip[channel as int] := (tmppriority & 0xFF) as bv8;
        WriteIser(EnableWord(channel), Bit(channel));
      } else {
        WriteIcer(EnableWord(channel), Bit(channel));
      }
    }
  }

  /** The enable register of a channel, and its bit there. */
  function EnableWord(channel: bv8): bv8 {
    channel >> 5
  }

  function Bit(channel: bv8): bv32 {
    1 << ((channel & 0x1F) as bv32)
  }

  /** The channels a word written to enable register `n` speaks of. */
  ghost function Selected(n: bv8, w: bv32): iset<bv8> {
    iset c: bv8 | EnableWord(c) == n && w & Bit(c) != 0
  }

  lemma OneChannel(channel: bv8)
    ensures Selected(EnableWord(channel), Bit(channel)) == iset{channel}
  {
    forall c: bv8 ensures EnableWord(c) == EnableWord(channel) && Bit(channel) & Bit(c) != 0 <==> c == channel {
      BitIdentifies(c, channel);
    }
  }

  lemma BitIdentifies(c: bv8, channel: bv8)
    ensures EnableWord(c) == EnableWord(channel) && Bit(channel) & Bit(c) != 0 <==> c == channel
  {
  }
}
