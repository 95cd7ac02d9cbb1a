/**
 The modes of sixteen port pins, packed four bits each into two registers, and the output bits
 that select pull-up or pull-down.
 */
module Gpio {
  import opened Words

  const MODE_IPD: bv32 := 0x28
  const MODE_IPU: bv32 := 0x48

  /** `high`: the pins whose output bit is set. */
  datatype Port = Port(crl: bv32, crh: bv32, high: iset<bv32>)

  /** The configuration record of the driver: a set of pins and one mode for all of them. */
  datatype Init = Init(pins: bv32, speed: bv32, mode: bv32)

  predicate Permitted(c: Init) {
    && 0 < c.pins <= 0xFFFF && (c.mode & 0x10 != 0 ==> 1 <= c.speed <= 3)
    && (c.mode == 0 || c.mode == 0x04 || c.mode == MODE_IPD || c.mode == MODE_IPU
        || c.mode == 0x14 || c.mode == 0x10 || c.mode == 0x1C || c.mode == 0x18)
  }

  /** The four bits written for each selected pin. */
  function ModeBits(c: Init): (m: bv32)
    requires Permitted(c)
    ensures m <= 0xF
  {
    var m := c.mode & 0xF;
    if c.mode & 0x10 != 0 then m | c.speed else m
  }

  /** The two speed bits of a pin (zero for an input) and the two configuration bits. */
  function Speed(c: Init): bv32 {
    if c.mode & 0x10 != 0 then c.speed else 0
  }

  function Config(c: Init): bv32 {
    (c.mode >> 2) & 3
  }

  lemma ModeBitsAre(c: Init)
    requires Permitted(c)
    ensures ModeBits(c) & 3 == Speed(c) && ModeBits(c) >> 2 == Config(c)
  {
  }

  function PinMask(pin: bv32): bv32
    requires pin < 16
  {
    1 << pin
  }

  predicate Selects(pins: bv32, pin: bv32)
    requires pin < 16
  {
    pins & PinMask(pin) != 0
  }

  // ---------- what the registers mean ----------

  function Nibble(reg: bv32, i: bv32): bv32
    requires i < 8
  {
    (reg >> (i << 2)) & 0xF
  }

  function PutNibble(reg: bv32, i: bv32, m: bv32): bv32
    requires i < 8
  {
    (reg & !(0xF << (i << 2))) | (m << (i << 2))
  }

  function PinMode(p: Port, pin: bv32): bv32
    requires pin < 16
  {
    if pin < 8 then Nibble(p.crl, pin) else Nibble(p.crh, pin - 8)
  }

  ghost predicate PullsUp(p: Port, pin: bv32)
    requires pin < 16
  {
    pin in p.high
  }

  // ---------- what the driver does ----------

  /** One control register after its first `n` pins; `base` is the first pin of the register. */
  function Modes(reg: bv32, pins: bv32, base: bv32, m: bv32, n: bv32): bv32
    requires n <= 8 && base <= 8
    decreases n
  {
    if n == 0 then reg
    else
      var before := Modes(reg, pins, base, m, n - 1);
      if Selects(pins, base + (n - 1)) then PutNibble(before, n - 1, m) else before
  }

  lemma NibbleOfPut(reg: bv32, i: bv32, j: bv32, m: bv32)
    requires i < 8 && j < 8 && m <= 0xF
    ensures Nibble(PutNibble(reg, i, m), j) == if i == j then m else Nibble(reg, j)
  {
  }

  lemma {:induction false} ModesAre(reg: bv32, pins: bv32, base: bv32, m: bv32, n: bv32, j: bv32)
    requires n <= 8 && base <= 8 && m <= 0xF && j < 8
    ensures Nibble(Modes(reg, pins, base, m, n), j) ==
            if j < n && Selects(pins, base + j) then m else Nibble(reg, j)
    decreases n
  {
    if n == 0 {
    } else {
      ModesAre(reg, pins, base, m, n - 1, j);
      NibbleOfPut(Modes(reg, pins, base, m, n - 1), n - 1, j, m);
    }
  }

  /** The output bits after the first `n` pins from `base` on. */
  ghost function Pulls(high: iset<bv32>, pins: bv32, base: bv32, mode: bv32, n: bv32): iset<bv32>
    requires n <= 8 && base <= 8
    decreases n
  {
    if n == 0 then high
    else
      var before, pin := Pulls(high, pins, base, mode, n - 1), base + (n - 1);
      if !Selects(pins, pin) then before
      else if mode == MODE_IPD then before - iset{pin}
      else if mode == MODE_IPU then before + iset{pin}
      else before
  }

  predicate IsPull(mode: bv32) {
    mode == MODE_IPD || mode == MODE_IPU
  }

  lemma {:induction false} PullsAre(high: iset<bv32>, pins: bv32, base: bv32, mode: bv32, n: bv32, j: bv32)
    requires n <= 8 && base <= 8 && j < 16
    ensures j in Pulls(high, pins, base, mode, n) <==>
            if base <= j < base + n && Selects(pins, j) && IsPull(mode) then mode == MODE_IPU else j in high
    decreases n
  {
    if n == 0 {
    } else {
      PullsAre(high, pins, base, mode, n - 1, j);
    }
  }

  /** A register is rewritten only if the call selects one of its pins. */
  ghost function DoLow(p: Port, c: Init): Port
    requires Permitted(c)
  {
    if c.pins & 0xFF == 0 then p
    else p.(crl := Modes(p.crl, c.pins, 0, ModeBits(c), 8), high := Pulls(p.high, c.pins, 0, c.mode, 8))
  }

  ghost function DoHigh(p: Port, c: Init): Port
    requires Permitted(c)
  {
    if c.pins <= 0xFF then p
    else p.(crh := Modes(p.crh, c.pins, 8, ModeBits(c), 8), high := Pulls(p.high, c.pins, 8, c.mode, 8))
  }

  ghost function Do(p: Port, c: Init): Port
    requires Permitted(c)
  {
    DoHigh(DoLow(p, c), c)
  }

  lemma NothingSelected(pins: bv32, pin: bv32)
    requires pins <= 0xFFFF && pin < 16
    ensures pin < 8 && pins & 0xFF == 0 ==> !Selects(pins, pin)
    ensures pin >= 8 && pins <= 0xFF ==> !Selects(pins, pin)
  {
  }

  lemma DoLowMode(p: Port, c: Init, pin: bv32)
    requires Permitted(c) && pin < 16
    ensures PinMode(DoLow(p, c), pin) == if pin < 8 && Selects(c.pins, pin) then ModeBits(c) else PinMode(p, pin)
  {
    NothingSelected(c.pins, pin);
    if pin < 8 {
      ModesAre(p.crl, c.pins, 0, ModeBits(c), 8, pin);
    }
  }

  lemma DoHighMode(p: Port, c: Init, pin: bv32)
    requires Permitted(c) && pin < 16
    ensures PinMode(DoHigh(p, c), pin) == if pin >= 8 && Selects(c.pins, pin) then ModeBits(c) else PinMode(p, pin)
  {
    NothingSelected(c.pins, pin);
    if pin >= 8 {
      ModesAre(p.crh, c.pins, 8, ModeBits(c), 8, pin - 8);
    }
  }

  lemma DoMode(p: Port, c: Init, pin: bv32)
    requires Permitted(c) && pin < 16
    ensures if Selects(c.pins, pin) then HasMode(PinMode(Do(p, c), pin), c) else PinMode(Do(p, c), pin) == PinMode(p, pin)
  {
    ModeBitsAre(c);
    DoLowMode(p, c, pin);
    DoHighMode(DoLow(p, c), c, pin);
  }

  lemma DoLowPull(p: Port, c: Init, pin: bv32)
    requires Permitted(c) && pin < 16
    ensures PullsUp(DoLow(p, c), pin) <==>
            if pin < 8 && Selects(c.pins, pin) && IsPull(c.mode) then c.mode == MODE_IPU else PullsUp(p, pin)
  {
    NothingSelected(c.pins, pin);
    PullsAre(p.high, c.pins, 0, c.mode, 8, pin);
  }

  lemma DoHighPull(p: Port, c: Init, pin: bv32)
    requires Permitted(c) && pin < 16
    ensures PullsUp(DoHigh(p, c), pin) <==>
            if pin >= 8 && Selects(c.pins, pin) && IsPull(c.mode) then c.mode == MODE_IPU else PullsUp(p, pin)
  {
    NothingSelected(c.pins, pin);
    PullsAre(p.high, c.pins, 8, c.mode, 8, pin);
  }

  lemma DoPull(p: Port, c: Init, pin: bv32)
    requires Permitted(c) && pin < 16
    ensures PullsUp(Do(p, c), pin) <==>
            if Selects(c.pins, pin) && c.mode == 0x48 then true
            else if Selects(c.pins, pin) && c.mode == 0x28 then false
            else PullsUp(p, pin)
  {
    DoLowPull(p, c, pin);
    DoHighPull(DoLow(p, c), c, pin);
  }

  lemma AllModes(p: Port, c: Init)
    requires Permitted(c)
    ensures forall pin: bv32 | pin < 16 && Selects(c.pins, pin) :: HasMode(PinMode(Do(p, c), pin), c)
  {
    forall pin: bv32 | pin < 16 && Selects(c.pins, pin) ensures HasMode(PinMode(Do(p, c), pin), c) {
      DoMode(p, c, pin);
    }
  }

  // ---------- any sequence of calls ----------

  ghost predicate AllPermitted(calls: seq<Init>) {
    forall i | 0 <= i < |calls| :: Permitted(calls[i])
  }

  ghost function Run(p: Port, calls: seq<Init>): Port
    requires AllPermitted(calls)
  {
    if calls == [] then p else Do(Run(p, calls[..|calls| - 1]), calls[|calls| - 1])
  }

  /** The last call that selected a pin, if any. */
  function LastFor(calls: seq<Init>, pin: bv32): (c: Option<Init>)
    requires pin < 16
    ensures c.Some? ==> c.value in calls
  {
    if calls == [] then None
    else if Selects(calls[|calls| - 1].pins, pin) then Some(calls[|calls| - 1])
    else LastFor(calls[..|calls| - 1], pin)
  }

  /** The pull direction last given to a pin, or `was` if none. */
  function LastPull(calls: seq<Init>, pin: bv32, was: bool): bool
    requires pin < 16
  {
    if calls == [] then was
    else
      var c := calls[|calls| - 1];
      if Selects(c.pins, pin) && IsPull(c.mode) then c.mode == MODE_IPU
      else LastPull(calls[..|calls| - 1], pin, was)
  }

  /** The four bits of a pin say what a call asked for. */
  predicate HasMode(bits: bv32, c: Init) {
    bits & 3 == Speed(c) && bits >> 2 == Config(c)
  }

  /** After any sequence of calls every pin has the mode and the pull direction last set for it. */
  lemma {:induction false} PinsAreMap(p: Port, calls: seq<Init>, pin: bv32)
    requires AllPermitted(calls) && pin < 16
    ensures match LastFor(calls, pin)
            case None => PinMode(Run(p, calls), pin) == PinMode(p, pin)
            case Some(c) => HasMode(PinMode(Run(p, calls), pin), c)
    ensures PullsUp(Run(p, calls), pin) == LastPull(calls, pin, PullsUp(p, pin))
  {
    if calls == [] {
    } else {
      var before, c := calls[..|calls| - 1], calls[|calls| - 1];
      PinsAreMap(p, before, pin);
      DoMode(Run(p, before), c, pin);
      DoPull(Run(p, before), c, pin);
    }
  }

  // ---------- the driver ----------

  class Driver {
    var crl: bv32
    var crh: bv32
    ghost var high: iset<bv32>

    ghost function State(): Port
      reads this
    {
      Port(crl, crh, high)
    }

    /** Writing a word to BRR resets the output bits where the word has ones, to BSRR sets them. */
    method WriteBRR(w: bv32)
      modifies `high
      ensures high == old(high) - PinsOf(w)
    {
      high := high - PinsOf(w);
    }

    method WriteBSRR(w: bv32)
      modifies `high
      ensures high == old(high) + PinsOf(w)
    {
      high := high + PinsOf(w);
    }

    /** The loop over the eight pins of one register, first pin `base`. */
    method ConfigurePins(reg: bv32, c: Init, base: bv32, currentmode: bv32) returns (tmpreg: bv32)
      requires base == 0 || base == 8
      modifies `high
      ensures tmpreg == Modes(reg, c.pins, base, currentmode, 8)
      ensures high == Pulls(old(high), c.pins, base, c.mode, 8)
    {
      tmpreg := reg;
      var pinpos: bv32 := 0;
      while pinpos < 8
        invariant pinpos <= 8
        invariant tmpreg == Modes(reg, c.pins, base, currentmode, pinpos)
        invariant high == Pulls(old(high), c.pins, base, c.mode, pinpos)
        decreases 8 - pinpos
      {
        var selected := IsSelected(c.pins, base + pinpos);
        if selected {
          tmpreg := ClearSetNibble(tmpreg, pinpos, currentmode);
          PinsOfBit(base + pinpos);
          if c.mode == MODE_IPD {
            WriteBRR(PinMask(base + pinpos));
          } else if c.mode == MODE_IPU {
            WriteBSRR(PinMask(base + pinpos));
          }
        }
        pinpos := pinpos + 1;
      }
    }

    static method IsSelected(pins: bv32, pin: bv32) returns (selected: bool)
      requires pin < 16
      ensures selected <==> Selects(pins, pin)
    {
      var pos := 1 << pin;
      var currentpin := pins & pos;
      selected := currentpin == pos;
    }

    static method ClearSetNibble(reg: bv32, pinpos: bv32, currentmode: bv32) returns (tmpreg: bv32)
      requires pinpos < 8
      ensures tmpreg == PutNibble(reg, pinpos, currentmode)
    {
      tmpreg := (reg & !(0xF << (pinpos << 2))) | (currentmode << (pinpos << 2));
    }

    static method CurrentMode(c: Init) returns (currentmode: bv32)
      requires Permitted(c)
      ensures currentmode == ModeBits(c)
    {
      currentmode := c.mode & 0x0F;
      if c.mode & 0x10 != 0 {
        currentmode := currentmode | c.speed;
      }
    }

    method GPIO_Init(c: Init)
      requires Permitted(c)
      modifies this
      ensures State() == Do(old(State()), c)
      ensures forall pin: bv32 | pin < 16 && Selects(c.pins, pin) :: HasMode(PinMode(State(), pin), c)
    {
      AllModes(State(), c);
      var currentmode := CurrentMode(c);
      ConfigureLow(c, currentmode);
      ConfigureHigh(c, currentmode);
    }

    method ConfigureLow(c: Init, currentmode: bv32)
      requires Permitted(c) && currentmode == ModeBits(c)
      modifies `crl, `high
      ensures State() == DoLow(old(State()), c)
    {
      if c.pins & 0xFF != 0 {
        crl := ConfigurePins(crl, c, 0, currentmode);
      }
    }

    method ConfigureHigh(c: Init, currentmode: bv32)
      requires Permitted(c) && currentmode == ModeBits(c)
      modifies `crh, `high
      ensures State() == DoHigh(old(State()), c)
    {
      if c.pins > 0xFF {
        crh := ConfigurePins(crh, c, 8, currentmode);
      }
    }
  }

  ghost function PinsOf(w: bv32): iset<bv32> {
    iset pin: bv32 | pin < 16 && Selects(w, pin)
  }

  lemma PinsOfBit(pin: bv32)
    requires pin < 16
    ensures PinsOf(PinMask(pin)) == iset{pin}
  {
    forall j: bv32 | j < 16 ensures Selects(PinMask(pin), j) <==> j == pin {
      BitIdentifies(pin, j);
    }
  }

  lemma BitIdentifies(pin: bv32, j: bv32)
    requires pin < 16 && j < 16
    ensures Selects(PinMask(pin), j) <==> j == pin
  {
  }
}
