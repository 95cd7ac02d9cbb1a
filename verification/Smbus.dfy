/**
 SMBus word transactions: bounded polling against a bus that answers as it likes, the frame that
 appears on the wire, and a device with 256 word registers at the other end.
 */
module Smbus {
  import opened Words

  const MAX_DELAY_CYCLES := 5000

  /** What appears on the wire; `Got` is a byte from the device and the acknowledge bit answered. */
  datatype Wire = S | Address(adr7: nat, read: bool) | Sent(b: u8) | Got(ack: bool) | P

  // ---------- frames ----------

  /** Write Word of the SMBus standard (section 6.5.4), high byte first. */
  function WriteFrame(adr: u8, reg: u8, data: u16): seq<Wire> {
    [S, Address(adr / 2, false), Sent(reg), Sent(data / 0x100), Sent(data % 0x100), P]
  }

  /** Read Word of the SMBus standard (section 6.5.5): the last byte is not acknowledged, and the
      first one is, provided the controller has acknowledging enabled. */
  function ReadFrame(adr: u8, reg: u8, ack: bool): seq<Wire> {
    [S, Address(adr / 2, false), Sent(reg), S, Address(adr / 2, true), Got(ack), Got(false), P]
  }

  // ---------- commands ----------

  /** What the controller is told to do. A stop commanded while a byte is being received appears on
      the wire only after that byte. */
  datatype Command =
    | Enable | Start | SendAddress(adr: u8, read: bool) | SendData(b: u8) | Receive | Acknowledge(on: bool) | Stop

  /** The commands of a write; the first `n` of them put the first `n` items of the frame on the wire. */
  function WriteCommands(adr: u8, reg: u8, data: u16): seq<Command> {
    [Start, SendAddress(adr, false), SendData(reg), SendData(data / 0x100), SendData(data % 0x100), Stop]
  }

  function ReadCommands(adr: u8, reg: u8): seq<Command> {
    [Start, SendAddress(adr, false), Enable, SendData(reg), Start, SendAddress(adr, true),
     Receive, Acknowledge(false), Stop, Acknowledge(true), Receive]
  }

  /** What a read adds between the two addresses and with the second, once `n` items are on the wire. */
  function SelectPart(adr: u8, reg: u8, n: nat): seq<Wire> {
    if n == 3 then [Sent(reg)] else if n == 4 then [Sent(reg), S] else [Sent(reg), S, Address(adr / 2, true)]
  }

  function SelectCommands(adr: u8, reg: u8, n: nat): seq<Command> {
    if n == 3 then [Enable, SendData(reg)]
    else if n == 4 then [Enable, SendData(reg), Start]
    else [Enable, SendData(reg), Start, SendAddress(adr, true)]
  }

  lemma SelectPartIs(wire: seq<Wire>, cmds: seq<Command>, adr: u8, reg: u8, ack: bool, n: nat)
    requires 3 <= n <= 5
    ensures wire + ReadFrame(adr, reg, ack)[..2] + SelectPart(adr, reg, n) == wire + ReadFrame(adr, reg, ack)[..n]
    ensures cmds + ReadCommands(adr, reg)[..2] + SelectCommands(adr, reg, n)
         == cmds + ReadCommands(adr, reg)[..ReadCommandsGiven(n)]
  {
    assert ReadFrame(adr, reg, ack)[..2] + SelectPart(adr, reg, n) == ReadFrame(adr, reg, ack)[..n];
    assert ReadCommands(adr, reg)[..2] + SelectCommands(adr, reg, n) == ReadCommands(adr, reg)[..ReadCommandsGiven(n)];
  }

  /** What a read adds after the second address, once `n` items of the frame are on the wire. */
  function ReadTail(ack: bool, n: nat): seq<Wire> {
    if n == 5 then [] else if n == 6 then [Got(ack)] else [Got(ack), Got(false), P]
  }

  function ReadTailCommands(n: nat): seq<Command> {
    if n == 5 then []
    else if n == 6 then [Receive, Acknowledge(false), Stop, Acknowledge(true)]
    else [Receive, Acknowledge(false), Stop, Acknowledge(true), Receive]
  }

  lemma ReadTailIs(wire: seq<Wire>, cmds: seq<Command>, adr: u8, reg: u8, ack: bool, n: nat)
    requires n in {5, 6, 8}
    ensures wire + ReadFrame(adr, reg, ack)[..5] + ReadTail(ack, n) == wire + ReadFrame(adr, reg, ack)[..n]
    ensures cmds + ReadCommands(adr, reg)[..6] + ReadTailCommands(n)
         == cmds + ReadCommands(adr, reg)[..ReadCommandsGiven(n)]
  {
    assert ReadFrame(adr, reg, ack)[..5] + ReadTail(ack, n) == ReadFrame(adr, reg, ack)[..n];
    assert ReadCommands(adr, reg)[..6] + ReadTailCommands(n) == ReadCommands(adr, reg)[..ReadCommandsGiven(n)];
  }

  /** How many commands a read has given when `n` items of its frame are on the wire. */
  function ReadCommandsGiven(n: nat): (m: nat)
    ensures n <= 8 ==> m <= 11
  {
    if n <= 2 then n else if n <= 5 then n + 1 else if n <= 7 then 10 else 11
  }

  ghost function StopsIn(cmds: seq<Command>): nat {
    multiset(cmds)[Stop]
  }

  /** A read that has received its first byte has commanded one stop, even if the second byte then
      does not come; a write has once the frame is complete. */
  lemma StopsCommanded(adr: u8, reg: u8, data: u16, n: nat)
    ensures n <= 6 ==> StopsIn(WriteCommands(adr, reg, data)[..n]) == if n == 6 then 1 else 0
    ensures n <= 8 ==> StopsIn(ReadCommands(adr, reg)[..ReadCommandsGiven(n)]) == if n >= 6 then 1 else 0
  {
    if n <= 6 {
      StopAt(WriteCommands(adr, reg, data), 5, n);
    }
    if n <= 8 {
      StopAt(ReadCommands(adr, reg), 8, ReadCommandsGiven(n));
    }
  }

  lemma {:induction false} StopAt(cmds: seq<Command>, at: nat, n: nat)
    requires n <= |cmds| && forall i | 0 <= i < |cmds| :: cmds[i] == Stop <==> i == at
    ensures StopsIn(cmds[..n]) == if at < n then 1 else 0
  {
    if n == 0 {
    } else {
      StopAt(cmds, at, n - 1);
      assert cmds[..n] == cmds[..n - 1] + [cmds[n - 1]];
    }
  }

  // ---------- the device ----------

  datatype Phase = Deselected | Pointer | High | Low(hi: u8)

  /** A device that answers at `adr7`; a write sets the register pointer, then the register, once
      both bytes have come; a read delivers the register pointed to, high byte first, until a byte
      is not acknowledged. */
  datatype Slave = Slave(adr7: nat, regs: seq<u16>, ptr: u8, phase: Phase, out: seq<u8>)

  function BigEndian(out: seq<u8>): u16
    requires |out| == 2
  {
    var high: int, low: int := out[0], out[1];
    0x100 * high + low
  }

  lemma BytesOfWord(w: u16)
    ensures BigEndian([w / 0x100, w % 0x100]) == w
  {
  }

  function SlaveStep(d: Slave, w: Wire): Slave
    requires |d.regs| == 0x100
  {
    match w
    case S => d.(phase := Deselected)
    case Address(a, read) =>
      if a != d.adr7 then d.(phase := Deselected, out := [])
      else if read then d.(phase := Deselected, out := [d.regs[d.ptr] / 0x100, d.regs[d.ptr] % 0x100])
      else d.(phase := Pointer, out := [])
    case Sent(b) =>
      (match d.phase
       case Deselected => d
       case Pointer => d.(ptr := b, phase := High)
       case High => d.(phase := Low(b))
       case Low(hi) => d.(regs := d.regs[d.ptr := hi * 0x100 + b], phase := Deselected))
    case Got(ack) => if d.out == [] then d else d.(out := if ack then d.out[1..] else [])
    case P => d.(phase := Deselected)
  }

  // ---------- waiting ----------

  /** The awaited condition is met by one of the first 5000 polls after `from`. */
  ghost predicate MetInTime(answers: nat -> bool, from: nat) {
    exists i: nat :: from <= i < from + 5000 && answers(i)
  }

  /** Some wait that began at a poll from `from` on and before `to` was in vain. */
  ghost predicate Missed(answers: nat -> bool, from: nat, to: nat) {
    exists i: nat :: from <= i < to && !MetInTime(answers, i)
  }

  /** A bus on which every awaited condition is met by one of the first 5000 polls. */
  ghost predicate Patient(answers: nat -> bool) {
    forall i: nat :: MetInTime(answers, i)
  }

  // ---------- the controller ----------

  class Bus {
    /** The answer to every poll: whether the condition then awaited holds. */
    const answers: nat -> bool
    /** The byte the data register shows when the addressed device does not answer. */
    const floating: nat -> u8
    var polls: nat
    var ackOn: bool
    var receiving: bool
    var stopAfterByte: bool
    var dr: u8
    var slave: Slave
    ghost var wire: seq<Wire>
    ghost var cmds: seq<Command>

    ghost predicate Valid()
      reads this
    {
      |slave.regs| == 0x100
    }

    method Poll() returns (met: bool)
      modifies `polls
      ensures polls == old(polls) + 1 && met == answers(old(polls))
    {
      met := answers(polls);
      polls := polls + 1;
    }

    /** Polls until the condition is met or the count is used up. The condition is tested once more
        after the last count, but the result of that test is ignored. */
    method Wait() returns (counter: nat)
      modifies `polls
      ensures counter != 0 <==> MetInTime(answers, old(polls))
      ensures counter == 0 ==> Missed(answers, old(polls), polls)
      ensures polls == old(polls) + (MAX_DELAY_CYCLES - counter) + 1
      ensures counter <= MAX_DELAY_CYCLES
    {
      counter := MAX_DELAY_CYCLES;
      ghost var from := polls;
      var met := Poll();
      while !met && counter != 0
        invariant counter <= MAX_DELAY_CYCLES && polls == from + (MAX_DELAY_CYCLES - counter) + 1
        invariant polls > from && met == answers(polls - 1)
        invariant forall i: nat | from <= i < polls - 1 :: !answers(i)
      {
        counter := counter - 1;
        met := Poll();
      }
      if counter != 0 {
        assert answers((polls - 1) as nat);
      }
    }

    method Put(w: Wire)
      requires Valid()
      modifies `slave, `wire
      ensures Valid() && slave == SlaveStep(old(slave), w) && wire == old(wire) + [w]
    {
      slave := SlaveStep(slave, w);
      wire := wire + [w];
    }

    ghost method Tell(c: Command)
      modifies `cmds
      ensures cmds == old(cmds) + [c]
    {
      cmds := cmds + [c];
    }

    method Cmd()
      modifies `cmds
      ensures cmds == old(cmds) + [Enable]
    {
      Tell(Enable);
    }

    method AcknowledgeConfig(on: bool)
      modifies `ackOn, `cmds
      ensures ackOn == on && cmds == old(cmds) + [Acknowledge(on)]
    {
      Tell(Acknowledge(on));
      ackOn := on;
    }

    method ReceiveData() returns (b: u8)
      modifies `cmds
      ensures b == dr && cmds == old(cmds) + [Receive]
    {
      Tell(Receive);
      b := dr;
    }

    method SendByte(b: u8)
      requires Valid()
      modifies `slave, `wire, `cmds
      ensures Valid() && slave == SlaveStep(old(slave), Sent(b)) && wire == old(wire) + [Sent(b)]
      ensures cmds == old(cmds) + [SendData(b)]
    {
      Tell(SendData(b));
      Put(Sent(b));
    }

    method GenerateStart()
      requires Valid()
      modifies `slave, `wire, `cmds, `receiving, `stopAfterByte
      ensures Valid() && slave == SlaveStep(old(slave), S) && wire == old(wire) + [S]
      ensures !receiving && !stopAfterByte && cmds == old(cmds) + [Start]
    {
      Tell(Start);
      receiving, stopAfterByte := false, false;
      Put(S);
    }

    method Send7bitAddress(adr: u8, read: bool)
      requires Valid()
      modifies `slave, `wire, `cmds, `receiving
      ensures Valid() && slave == SlaveStep(old(slave), Address(adr / 2, read))
      ensures wire == old(wire) + [Address(adr / 2, read)] && receiving == read
      ensures cmds == old(cmds) + [SendAddress(adr, read)]
    {
      Tell(SendAddress(adr, read));
      receiving := read;
      Put(Address(adr / 2, read));
    }

    /** While receiving, the stop condition follows the byte now being shifted in. */
    method GenerateStop()
      requires Valid()
      modifies `slave, `wire, `cmds, `stopAfterByte
      ensures Valid() && stopAfterByte == receiving && cmds == old(cmds) + [Stop]
      ensures slave == (if receiving then old(slave) else SlaveStep(old(slave), P))
      ensures wire == old(wire) + if receiving then [] else [P]
    {
      Tell(Stop);
      stopAfterByte := receiving;
      if !receiving {
        Put(P);
      }
    }

    /** Waits for a byte from the device; one that arrives in time is acknowledged as configured. */
    method WaitByte() returns (counter: nat)
      requires Valid() && receiving
      modifies `polls, `slave, `wire, `dr
      ensures Valid() && counter <= MAX_DELAY_CYCLES
      ensures polls == old(polls) + (MAX_DELAY_CYCLES - counter) + 1
      ensures counter != 0 <==> MetInTime(answers, old(polls))
      ensures counter == 0 ==> Missed(answers, old(polls), polls)
      ensures wire == old(wire) + if counter == 0 then [] else [Got(ackOn)] + if stopAfterByte then [P] else []
      ensures counter != 0 && old(slave).out != [] ==>
              dr == old(slave).out[0] && slave.out == if ackOn then old(slave).out[1..] else []
      ensures slave.regs == old(slave).regs && slave.adr7 == old(slave).adr7
    {
      counter := Wait();
      if counter != 0 {
        dr := if slave.out != [] then slave.out[0] else floating(polls);
        Put(Got(ackOn));
        if stopAfterByte {
          Put(P);
        }
      }
    }

    // ---------- the two transactions ----------

    /** `n` items of the frame appeared on the wire, and as many commands were given: one stop, if and
        only if the transaction is complete. */
    method SMBusWriteWord(slaveAddr: u8, data: u16, writeAddr: u8) returns (ret: u8, ghost n: nat)
      requires Valid()
      modifies this
      ensures Valid() && ackOn == old(ackOn)
      ensures n <= 6 && wire == old(wire) + WriteFrame(slaveAddr, writeAddr, data)[..n]
      ensures cmds == old(cmds) + WriteCommands(slaveAddr, writeAddr, data)[..n]
      ensures StopsIn(cmds) == StopsIn(old(cmds)) + ret as nat
      ensures P in wire[|old(wire)|..] <==> ret == 1
      ensures ret == (if n == 6 then 1 else 0)
      ensures old(polls) <= polls <= old(polls) + 5 * (MAX_DELAY_CYCLES + 1)
      ensures Patient(answers) ==> ret == 1
      ensures ret == 0 ==> Missed(answers, old(polls), polls)
      ensures slave.adr7 == old(slave).adr7
      ensures slave.regs == if ret == 1 && slaveAddr / 2 == slave.adr7 then old(slave).regs[writeAddr := data]
                            else old(slave).regs
    {
      var counter;
      counter, n := AddressForWrite(slaveAddr, WriteFrame(slaveAddr, writeAddr, data),
                                    WriteCommands(slaveAddr, writeAddr, data));
      ret := 0;
      if counter != 0 {
        ret, n := WriteBytes(slaveAddr, data, writeAddr);
      }
      StopsCommanded(slaveAddr, writeAddr, data, n);
      StopsOnlyAtEnd(slaveAddr, writeAddr, data, ackOn, n);
      Appended(old(wire), WriteFrame(slaveAddr, writeAddr, data)[..n]);
    }

    /** The rest of a write: the register and the two bytes of the word. */
    method WriteBytes(ghost slaveAddr: u8, data: u16, writeAddr: u8) returns (ret: u8, ghost n: nat)
      requires Valid() && !receiving && slave.phase in {Pointer, Deselected}
      modifies `polls, `slave, `wire, `cmds, `stopAfterByte
      ensures Valid() && 3 <= n <= 6
      ensures wire == old(wire) + WriteFrame(slaveAddr, writeAddr, data)[2..n]
      ensures cmds == old(cmds) + WriteCommands(slaveAddr, writeAddr, data)[2..n]
      ensures ret == (if n == 6 then 1 else 0)
      ensures old(polls) <= polls <= old(polls) + 2 * (MAX_DELAY_CYCLES + 1)
      ensures ret == 0 ==> Missed(answers, old(polls), polls)
      ensures slave.adr7 == old(slave).adr7
      ensures slave.regs == if ret == 1 && old(slave).phase == Pointer then old(slave).regs[writeAddr := data]
                            else old(slave).regs
    {
      ghost var frame, commands := WriteFrame(slaveAddr, writeAddr, data), WriteCommands(slaveAddr, writeAddr, data);
      ret := 0;
      SendByte(writeAddr);
      n := 3;
      assert frame[2..3] == [frame[2]] && commands[2..3] == [commands[2]];
      var counter := Wait();
      if counter != 0 {
        ret, n := WriteData(data);
        assert n == 4 ==> frame[2..4] == frame[2..3] + [frame[3]] && commands[2..4] == commands[2..3] + [commands[3]];
        assert n == 6 ==> frame[2..6] == frame[2..3] + frame[3..6] && commands[2..6] == commands[2..3] + commands[3..6];
      }
    }

    /** The two bytes of the word, high byte first. */
    method WriteData(data: u16) returns (ret: u8, ghost n: nat)
      requires Valid() && !receiving && slave.phase in {High, Deselected}
      modifies `polls, `slave, `wire, `cmds, `stopAfterByte
      ensures Valid() && n in {4, 6} && ret == (if n == 6 then 1 else 0)
      ensures wire == old(wire) + [Sent(data / 0x100)] + if n == 4 then [] else [Sent(data % 0x100), P]
      ensures cmds == old(cmds) + [SendData(data / 0x100)] + if n == 4 then [] else [SendData(data % 0x100), Stop]
      ensures old(polls) <= polls <= old(polls) + MAX_DELAY_CYCLES + 1
      ensures ret == 0 ==> Missed(answers, old(polls), polls)
      ensures slave.adr7 == old(slave).adr7
      ensures slave.regs == if ret == 1 && old(slave).phase == High then old(slave).regs[old(slave).ptr := data]
                            else old(slave).regs
    {
      ret := 0;
      SendByte(data / 0x100);
      n := 4;
      var counter := Wait();
      if counter == 0 { return; }

      SendByte(data % 0x100);
      GenerateStop();
      n := 6;
      ret := 1;
    }

    /** What both transactions begin with: the start condition and the device address. */
    method AddressForWrite(slaveAddr: u8, ghost frame: seq<Wire>, ghost commands: seq<Command>)
      returns (counter: nat, ghost n: nat)
      requires Valid() && |frame| >= 2 && frame[..2] == [S, Address(slaveAddr / 2, false)]
      requires |commands| >= 2 && commands[..2] == [Start, SendAddress(slaveAddr, false)]
      modifies `polls, `slave, `wire, `cmds, `receiving, `stopAfterByte
      ensures Valid() && n <= 2 && wire == old(wire) + frame[..n] && cmds == old(cmds) + commands[..n]
      ensures old(polls) <= polls <= old(polls) + 3 * (MAX_DELAY_CYCLES + 1)
      ensures counter == 0 ==> Missed(answers, old(polls), polls)
      ensures slave.regs == old(slave).regs && slave.adr7 == old(slave).adr7
      ensures counter != 0 ==> n == 2 && !receiving
                               && slave.phase == if slaveAddr / 2 == slave.adr7 then Pointer else Deselected
    {
      n := 0;
      counter := Wait();
      if counter == 0 { return; }

      GenerateStart();
      n := 1;
      counter := Wait();
      if counter == 0 { return; }

      Send7bitAddress(slaveAddr, false);
      n := 2;
      counter := Wait();
    }

    /** The part of a read up to the repeated start and the device address. */
    method AddressForRead(slaveAddr: u8, readAddr: u8) returns (counter: nat, ghost n: nat)
      requires Valid()
      modifies `polls, `slave, `wire, `cmds, `receiving, `stopAfterByte
      ensures Valid() && n <= 5 && wire == old(wire) + ReadFrame(slaveAddr, readAddr, ackOn)[..n]
      ensures cmds == old(cmds) + ReadCommands(slaveAddr, readAddr)[..ReadCommandsGiven(n)]
      ensures old(polls) <= polls <= old(polls) + 6 * (MAX_DELAY_CYCLES + 1)
      ensures counter == 0 ==> Missed(answers, old(polls), polls)
      ensures slave.regs == old(slave).regs && slave.adr7 == old(slave).adr7
      ensures counter != 0 ==> n == 5 && receiving && !stopAfterByte
      ensures counter != 0 && slaveAddr / 2 == slave.adr7 ==>
              slave.out == [slave.regs[readAddr] / 0x100, slave.regs[readAddr] % 0x100]
    {
      counter, n := AddressForWrite(slaveAddr, ReadFrame(slaveAddr, readAddr, ackOn), ReadCommands(slaveAddr, readAddr));
      if counter != 0 {
        counter, n := SelectForRead(slaveAddr, readAddr);
        SelectPartIs(old(wire), old(cmds), slaveAddr, readAddr, ackOn, n);
      }
    }

    /** Between the two addresses of a read: the register and the repeated start. */
    method SelectForRead(slaveAddr: u8, readAddr: u8) returns (counter: nat, ghost n: nat)
      requires Valid() && slave.phase == if slaveAddr / 2 == slave.adr7 then Pointer else Deselected
      modifies `polls, `slave, `wire, `cmds, `receiving, `stopAfterByte
      ensures Valid() && 3 <= n <= 5 && wire == old(wire) + SelectPart(slaveAddr, readAddr, n)
      ensures cmds == old(cmds) + SelectCommands(slaveAddr, readAddr, n)
      ensures old(polls) <= polls <= old(polls) + 3 * (MAX_DELAY_CYCLES + 1)
      ensures counter == 0 ==> Missed(answers, old(polls), polls)
      ensures slave.regs == old(slave).regs && slave.adr7 == old(slave).adr7
      ensures counter != 0 ==> n == 5 && receiving && !stopAfterByte
      ensures counter != 0 && slaveAddr / 2 == slave.adr7 ==>
              slave.out == [slave.regs[readAddr] / 0x100, slave.regs[readAddr] % 0x100]
    {
      Cmd();
      SendByte(readAddr);
      n := 3;
      counter := Wait();
      if counter != 0 {
        assert slaveAddr / 2 == slave.adr7 ==> slave.ptr == readAddr;
        counter, n := RestartForRead(slaveAddr);
      }
    }

    /** The repeated start and the device address, now for reading. */
    method RestartForRead(slaveAddr: u8) returns (counter: nat, ghost n: nat)
      requires Valid()
      modifies `polls, `slave, `wire, `cmds, `receiving, `stopAfterByte
      ensures Valid() && 4 <= n <= 5
      ensures wire == old(wire) + if n == 4 then [S] else [S, Address(slaveAddr / 2, true)]
      ensures cmds == old(cmds) + if n == 4 then [Start] else [Start, SendAddress(slaveAddr, true)]
      ensures old(polls) <= polls <= old(polls) + 2 * (MAX_DELAY_CYCLES + 1)
      ensures counter == 0 ==> Missed(answers, old(polls), polls)
      ensures slave.regs == old(slave).regs && slave.adr7 == old(slave).adr7
      ensures counter != 0 ==> n == 5 && receiving && !stopAfterByte
      ensures counter != 0 && slaveAddr / 2 == slave.adr7 ==>
              slave.out == [slave.regs[old(slave).ptr] / 0x100, slave.regs[old(slave).ptr] % 0x100]
    {
      GenerateStart();
      n := 4;
      counter := Wait();
      if counter == 0 { return; }

      Send7bitAddress(slaveAddr, true);
      n := 5;
      counter := Wait();
    }

    /** The word read goes to `data[slot]`; a failed read leaves the array alone. `n` items of the
        frame appeared on the wire. The stop is commanded before the last wait, so a read that times
        out there has commanded it too. Acknowledging, which initialization enables, stays enabled on
        every exit. */
    method SMBusReadWord(slaveAddr: u8, data: array<u16>, slot: nat, readAddr: u8) returns (ret: u8, ghost n: nat)
      requires Valid() && slot < data.Length
      modifies this, data
      ensures Valid() && ackOn == (old(ackOn) || n >= 6)
      ensures n <= 8 && wire == old(wire) + ReadFrame(slaveAddr, readAddr, old(ackOn))[..n]
      ensures cmds == old(cmds) + ReadCommands(slaveAddr, readAddr)[..ReadCommandsGiven(n)]
      ensures StopsIn(cmds) == StopsIn(old(cmds)) + if n >= 6 then 1 else 0
      ensures P in wire[|old(wire)|..] <==> ret == 1
      ensures ret == (if n == 8 then 1 else 0)
      ensures old(polls) <= polls <= old(polls) + 8 * (MAX_DELAY_CYCLES + 1)
      ensures Patient(answers) ==> ret == 1
      ensures ret == 0 ==> Missed(answers, old(polls), polls)
      ensures slave.regs == old(slave).regs && slave.adr7 == old(slave).adr7
      ensures data[..] == if ret == 1 then old(data[..])[slot := data[slot]] else old(data[..])
      ensures ret == 1 && old(ackOn) && slaveAddr / 2 == slave.adr7 ==> data[slot] == slave.regs[readAddr]
    {
      ret := 0;
      var counter;
      counter, n := AddressForRead(slaveAddr, readAddr);
      if counter != 0 {
        var word;
        ret, word, n := ReadBytes();
        ReadTailIs(old(wire), old(cmds), slaveAddr, readAddr, old(ackOn), n);
        if ret == 1 {
          BytesOfWord(slave.regs[readAddr]);
          data[slot] := word;
        }
      }
      StopsCommanded(slaveAddr, readAddr, 0, n);
      StopsOnlyAtEnd(slaveAddr, readAddr, 0, old(ackOn), n);
      Appended(old(wire), ReadFrame(slaveAddr, readAddr, old(ackOn))[..n]);
    }

    /** The rest of a read: the two bytes of the word. */
    method ReadBytes() returns (ret: u8, word: u16, ghost n: nat)
      requires Valid() && receiving && !stopAfterByte
      modifies `polls, `slave, `wire, `cmds, `dr, `ackOn, `stopAfterByte
      ensures Valid() && ackOn == (old(ackOn) || n >= 6)
      ensures n in {5, 6, 8} && wire == old(wire) + ReadTail(old(ackOn), n)
      ensures cmds == old(cmds) + ReadTailCommands(n)
      ensures ret == (if n == 8 then 1 else 0)
      ensures old(polls) <= polls <= old(polls) + 2 * (MAX_DELAY_CYCLES + 1)
      ensures ret == 0 ==> Missed(answers, old(polls), polls)
      ensures slave.regs == old(slave).regs && slave.adr7 == old(slave).adr7
      ensures ret == 1 && old(ackOn) && |old(slave).out| == 2 ==> word == BigEndian(old(slave).out)
    {
      ret, word, n := 0, 0, 5;
      var counter := WaitByte();
      if counter != 0 {
        var high: int := ReceiveData();
        var low: int;
        ret, low := LastByte();
        n := if ret == 1 then 8 else 6;
        word := low + 0x100 * high;
      }
    }

    /** The last byte is not acknowledged, and followed by the stop. */
    method LastByte() returns (ret: u8, low: u8)
      requires Valid() && receiving && !stopAfterByte
      modifies `polls, `slave, `wire, `cmds, `dr, `ackOn, `stopAfterByte
      ensures Valid() && ackOn && ret <= 1
      ensures wire == old(wire) + if ret == 1 then [Got(false), P] else []
      ensures cmds == old(cmds) + [Acknowledge(false), Stop, Acknowledge(true)] + if ret == 1 then [Receive] else []
      ensures old(polls) <= polls <= old(polls) + MAX_DELAY_CYCLES + 1
      ensures ret == 0 ==> Missed(answers, old(polls), polls)
      ensures slave.regs == old(slave).regs && slave.adr7 == old(slave).adr7
      ensures ret == 1 && old(slave).out != [] ==> low == old(slave).out[0]
    {
      ret, low := 0, 0;
      AcknowledgeConfig(false);
      GenerateStop();
      var counter := WaitByte();
      AcknowledgeConfig(true);
      if counter != 0 {
        low := ReceiveData();
        ret := 1;
      }
    }

    /** Write/read round trip: a word written to a register of the device and read back is the same
        word, and the other registers keep theirs. */
    method WriteThenRead(slaveAddr: u8, data: u16, reg: u8, dest: array<u16>, slot: nat) returns (written: u8, readBack: u8)
      requires Valid() && slot < dest.Length && slaveAddr / 2 == slave.adr7
      modifies this, dest
      ensures written == 1 && readBack == 1 && old(ackOn) ==> dest[..] == old(dest[..])[slot := data]
      ensures readBack == 0 ==> dest[..] == old(dest[..])
      ensures slave.regs == if written == 1 then old(slave).regs[reg := data] else old(slave).regs
    {
      ghost var n;
      written, n := SMBusWriteWord(slaveAddr, data, reg);
      readBack, n := SMBusReadWord(slaveAddr, dest, slot, reg);
    }
  }

  lemma Appended(before: seq<Wire>, frame: seq<Wire>)
    ensures (before + frame)[|before|..] == frame
  {
  }

  /** The stop condition is the last item of either frame: on the wire it appears only if the
      transaction is complete. */
  lemma StopsOnlyAtEnd(adr: u8, reg: u8, data: u16, ack: bool, n: nat)
    ensures n <= 6 ==> (P in WriteFrame(adr, reg, data)[..n] <==> n == 6)
    ensures n <= 8 ==> (P in ReadFrame(adr, reg, ack)[..n] <==> n == 8)
  {
    assert WriteFrame(adr, reg, data)[5] == P && ReadFrame(adr, reg, ack)[7] == P;
    if n == 6 {
      assert WriteFrame(adr, reg, data)[..n][5] == P;
    }
    if n == 8 {
      assert ReadFrame(adr, reg, ack)[..n][7] == P;
    }
  }
}
