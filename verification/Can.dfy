/**
 CAN messages packed into the four registers of a mailbox, and unpacked from a receive FIFO.
 */
module Can {

  const ID_STANDARD: bv32 := 0
  const ID_EXTENDED: bv32 := 4
  const RTR_DATA: bv32 := 0
  const RTR_REMOTE: bv32 := 2
  const NO_MAILBOX := 4
  const TXRQ: bv32 := 1

  /** The registers of a mailbox: identifier, length and time, low and high data. */
  datatype Mailbox = Mailbox(ir: bv32, dtr: bv32, dlr: bv32, dhr: bv32)

  datatype Message = Message(stdId: bv32, extId: bv32, ide: bv32, rtr: bv32, dlc: bv32, data: seq<bv8>, fmi: bv32)

  predicate Permitted(m: Message) {
    && (m.ide == ID_STANDARD || m.ide == ID_EXTENDED)
    && (m.rtr == RTR_DATA || m.rtr == RTR_REMOTE)
    && (m.ide == ID_STANDARD ==> m.stdId <= 0x7FF)
    && (m.ide == ID_EXTENDED ==> m.extId <= 0x1FFF_FFFF)
    && m.dlc <= 8 && |m.data| == 8
  }

  function Word(d: seq<bv8>, i: nat): bv32
    requires i + 4 <= |d|
  {
    ((d[i + 3] as bv32) << 24) | ((d[i + 2] as bv32) << 16) | ((d[i + 1] as bv32) << 8) | (d[i] as bv32)
  }

  function ByteAt(w: bv32, k: bv32): bv8
    requires k <= 24
  {
    (0xFF & (w >> k)) as bv8
  }

  function PackId(ir: bv32, m: Message): bv32 {
    var cleared := ir & TXRQ;
    if m.ide == ID_STANDARD then cleared | ((m.stdId << 21) | m.rtr)
    else cleared | ((m.extId << 3) | m.ide | m.rtr)
  }

  function PackDlc(dtr: bv32, m: Message): bv32 {
    (dtr & 0xFFFF_FFF0) | (m.dlc & 0xF)
  }

  /** What a mailbox holds once a message has been put into it and its transmission requested. */
  function Pack(box: Mailbox, m: Message): Mailbox
    requires |m.data| == 8
  {
    Mailbox(PackId(box.ir, m) | TXRQ, PackDlc(box.dtr, m), Word(m.data, 0), Word(m.data, 4))
  }

  function IdeOf(ir: bv32): bv32 { 0x04 & ir }

  function StdIdOf(ir: bv32): bv32 { 0x7FF & (ir >> 21) }

  function ExtIdOf(ir: bv32): bv32 { 0x1FFF_FFFF & (ir >> 3) }

  function RtrOf(ir: bv32): bv32 { 0x02 & ir }

  function DlcOf(dtr: bv32): bv32 { 0x0F & dtr }

  function FmiOf(dtr: bv32): bv32 { 0xFF & (dtr >> 8) }

  function Bytes(dlr: bv32, dhr: bv32): seq<bv8> {
    [ByteAt(dlr, 0), ByteAt(dlr, 8), ByteAt(dlr, 16), ByteAt(dlr, 24),
     ByteAt(dhr, 0), ByteAt(dhr, 8), ByteAt(dhr, 16), ByteAt(dhr, 24)]
  }

  /** The message in a FIFO mailbox; the identifier of the other kind keeps its value in `was`. */
  function Unpack(box: Mailbox, was: Message): (m: Message)
    ensures |m.data| == 8
  {
    var standard := IdeOf(box.ir) == ID_STANDARD;
    Message(if standard then StdIdOf(box.ir) else was.stdId, if standard then was.extId else ExtIdOf(box.ir),
            IdeOf(box.ir), RtrOf(box.ir), DlcOf(box.dtr), Bytes(box.dlr, box.dhr), FmiOf(box.dtr))
  }

  /** The two messages say the same on the bus. */
  predicate SameFrame(m: Message, r: Message) {
    && r.ide == m.ide && r.rtr == m.rtr && r.dlc == m.dlc && r.data == m.data
    && (if m.ide == ID_STANDARD then r.stdId == m.stdId else r.extId == m.extId)
  }

  lemma WordBytes(d: seq<bv8>, i: nat)
    requires i + 4 <= |d|
    ensures ByteAt(Word(d, i), 0) == d[i] && ByteAt(Word(d, i), 8) == d[i + 1]
    ensures ByteAt(Word(d, i), 16) == d[i + 2] && ByteAt(Word(d, i), 24) == d[i + 3]
  {
  }

  /** Loopback: whatever the mailbox and the receiving structure held before, a message read from a
      copy of the mailbox it was put into is the message sent. */
  lemma Loopback(box: Mailbox, m: Message, was: Message)
    requires Permitted(m)
    ensures SameFrame(m, Unpack(Pack(box, m), was))
  {
    WordBytes(m.data, 0);
    WordBytes(m.data, 4);
    HeaderBack(box, m, was);
    assert Bytes(Word(m.data, 0), Word(m.data, 4)) == m.data;
  }

  /** A standard identifier fills the top 11 bits of the register, an extended one the top 29. */
  lemma IdentifierOnTop(box: Mailbox, m: Message)
    requires Permitted(m)
    ensures m.ide == ID_STANDARD ==> Pack(box, m).ir >> 21 == m.stdId
    ensures m.ide == ID_EXTENDED ==> Pack(box, m).ir >> 3 == m.extId
  {
    if m.ide == ID_STANDARD {
      StandardOnTop(box.ir, m.stdId, m.rtr);
    } else {
      ExtendedOnTop(box.ir, m.extId, m.rtr);
    }
  }

  lemma StandardOnTop(ir: bv32, id: bv32, rtr: bv32)
    requires id <= 0x7FF && (rtr == RTR_DATA || rtr == RTR_REMOTE)
    ensures (((ir & TXRQ) | ((id << 21) | rtr)) | TXRQ) >> 21 == id
  {
  }

  lemma ExtendedOnTop(ir: bv32, id: bv32, rtr: bv32)
    requires id <= 0x1FFF_FFFF && (rtr == RTR_DATA || rtr == RTR_REMOTE)
    ensures (((ir & TXRQ) | ((id << 3) | ID_EXTENDED | rtr)) | TXRQ) >> 3 == id
  {
  }

  predicate IsRequested(ir: bv32) {
    ir & TXRQ != 0
  }

  /** A packed message is requested for transmission, whatever its identifier. */
  lemma Requested(box: Mailbox, m: Message)
    requires |m.data| == 8
    ensures IsRequested(Pack(box, m).ir)
  {
    RequestBit(PackId(box.ir, m));
  }

  lemma RequestBit(ir: bv32)
    ensures IsRequested(ir | TXRQ)
  {
  }

  /** The upper part of the length register, which holds the time stamp, is kept. */
  lemma UpperKept(dtr: bv32, m: Message)
    ensures PackDlc(dtr, m) & 0xFFFF_FFF0 == dtr & 0xFFFF_FFF0
  {
    UpperPart(dtr, m.dlc);
  }

  lemma UpperPart(dtr: bv32, dlc: bv32)
    ensures ((dtr & 0xFFFF_FFF0) | (dlc & 0xF)) & 0xFFFF_FFF0 == dtr & 0xFFFF_FFF0
  {
  }

  /** The filter index is the second byte of the length register of the FIFO mailbox, and the identifier
      of the kind not received keeps its value. */
  lemma OthersBack(box: Mailbox, fmi: bv8, time: bv16, dlc: bv32, was: Message)
    requires dlc <= 0xF && box.dtr == ((time as bv32) << 16) | ((fmi as bv32) << 8) | dlc
    ensures var r := Unpack(box, was);
            && r.fmi == fmi as bv32 && r.dlc == dlc
            && (if r.ide == ID_STANDARD then r.extId == was.extId else r.stdId == was.stdId)
  {
  }

  lemma HeaderBack(box: Mailbox, m: Message, was: Message)
    requires Permitted(m)
    ensures var r := Unpack(Pack(box, m), was);
            && r.ide == m.ide && r.rtr == m.rtr && r.dlc == m.dlc
            && (if m.ide == ID_STANDARD then r.stdId == m.stdId else r.extId == m.extId)
  {
  }

  // ---------- the driver ----------

  class Controller {
    var tsr: bv32
    const mail: array<Mailbox>
    const fifo: array<Mailbox>
    var rf0r: bv32
    var rf1r: bv32

    ghost predicate Valid() {
      mail.Length == 3 && fifo.Length == 2 && mail != fifo
    }

    predicate Empty(k: nat)
      reads this
      requires k < 3
    {
      var tme: bv32 := if k == 0 then 0x0400_0000 else if k == 1 then 0x0800_0000 else 0x1000_0000;
      tsr & tme == tme
    }

    method SelectMailbox() returns (box: nat)
      ensures box == NO_MAILBOX <==> !Empty(0) && !Empty(1) && !Empty(2)
      ensures box != NO_MAILBOX ==> box < 3 && Empty(box) && forall k: nat | k < box :: !Empty(k)
    {
      if Empty(0) {
        box := 0;
      } else if Empty(1) {
        box := 1;
      } else if Empty(2) {
        box := 2;
      } else {
        box := NO_MAILBOX;
      }
    }

    static method SetUpId(was: bv32, m: Message) returns (ir: bv32)
      ensures ir == PackId(was, m)
    {
      ir := was & TXRQ;
      if m.ide == ID_STANDARD {
        ir := ir | ((m.stdId << 21) | m.rtr);
      } else {
        ir := ir | ((m.extId << 3) | m.ide | m.rtr);
      }
    }

    static method SetUpDlc(was: bv32, m: Message) returns (dtr: bv32)
      ensures dtr == PackDlc(was, m)
    {
      dtr := was & 0xFFFF_FFF0;
      dtr := dtr | (m.dlc & 0x0F);
    }

    static method SetUpMailbox(was: Mailbox, m: Message) returns (b: Mailbox)
      requires |m.data| == 8
      ensures b == Pack(was, m)
    {
      var ir := SetUpId(was.ir, m);
      var dtr := SetUpDlc(was.dtr, m);
      b := Mailbox(ir, dtr, Word(m.data, 0), Word(m.data, 4));
      b := b.(ir := b.ir | TXRQ);
    }

    /** Uses the first empty mailbox, if there is one, and no other. */
    method CAN_Transmit(m: Message) returns (box: nat)
      requires Valid() && Permitted(m)
      modifies mail
      ensures box == NO_MAILBOX <==> !Empty(0) && !Empty(1) && !Empty(2)
      ensures box != NO_MAILBOX ==> box < 3 && Empty(box) && forall k: nat | k < box :: !Empty(k)
      ensures mail[..] == if box == NO_MAILBOX then old(mail[..]) else old(mail[..])[box := Pack(old(mail[box]), m)]
      ensures box != NO_MAILBOX ==> IsRequested(mail[box].ir)
    {
      box := SelectMailbox();
      if box != NO_MAILBOX {
        Requested(mail[box], m);
        mail[box] := SetUpMailbox(mail[box], m);
      }
    }

    method CAN_Receive(number: nat, was: Message) returns (m: Message)
      requires Valid() && number < 2
      modifies this
      ensures m == Unpack(fifo[number], was)
      ensures rf0r == (if number == 0 then old(rf0r) | 0x20 else old(rf0r)) && tsr == old(tsr)
      ensures rf1r == if number == 1 then old(rf1r) | 0x20 else old(rf1r)
    {
      var b := fifo[number];
      m := was.(ide := IdeOf(b.ir));
      if m.ide == ID_STANDARD {
        m := m.(stdId := StdIdOf(b.ir));
      } else {
        m := m.(extId := ExtIdOf(b.ir));
      }
      m := m.(rtr := RtrOf(b.ir));
      m := m.(dlc := DlcOf(b.dtr));
      m := m.(fmi := FmiOf(b.dtr));
      m := m.(data := Bytes(b.dlr, b.dhr));
      if number == 0 {
        rf0r := rf0r | 0x20;
      } else {
        rf1r := rf1r | 0x20;
      }
    }

    /** Transmission into a mailbox, the mailbox arriving in FIFO `number`, and reception. */
    method LoopbackTransfer(m: Message, number: nat, was: Message) returns (box: nat, r: Message)
      requires Valid() && Permitted(m) && number < 2
      modifies this, mail, fifo
      ensures box != NO_MAILBOX ==> SameFrame(m, r)
    {
      box := CAN_Transmit(m);
      r := was;
      if box != NO_MAILBOX {
        ghost var before := old(mail[box]);
        fifo[number] := mail[box];
        r := CAN_Receive(number, was);
        Loopback(before, m, was);
      }
    }
  }
}
