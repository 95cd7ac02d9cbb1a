/**
 The settings log kept in one 1 KB flash page: what a sequence of halfword
 programmings and page erases does to the page, what the next read returns,
 and how often the page is erased.

 Addresses in this module are halfword offsets into the page. `h` is the number
 of payload halfwords of a block, so a slot is `h + 2` halfwords: start marker,
 payload, end marker.
 */
module IniLog {
  import opened Words
  import opened Arith

  const START: u16 := 0x55AA
  const END: u16 := 0xAA55
  const ERASED: u16 := 0xFFFF
  const PAGE := 512

  // ---------- geometry ----------

  /** Halfwords of a block of `n` bytes; an odd block is padded. */
  function PayloadHalfwords(n: nat): nat {
    if n <= 1 then n else 1 + PayloadHalfwords(n - 2)
  }

  lemma {:induction false} PayloadIsPadded(n: nat)
    ensures 2 * PayloadHalfwords(n) == n + n % 2
  {
    if n <= 1 {
    } else {
      PayloadIsPadded(n - 2);
    }
  }

  predicate Fits(h: nat) {
    h + 2 <= PAGE
  }

  /** How many whole slots fit into `space` halfwords. */
  function SlotsIn(space: nat, h: nat): nat {
    if space < h + 2 then 0 else 1 + SlotsIn(space - (h + 2), h)
  }

  function Slots(h: nat): nat {
    SlotsIn(PAGE, h)
  }

  /** Offset of slot `s`. */
  function At(s: nat, h: nat): nat {
    if s == 0 then 0 else At(s - 1, h) + h + 2
  }

  lemma {:induction false} AtIsProduct(s: nat, h: nat)
    ensures At(s, h) == s * (h + 2)
  {
    if s == 0 {
    } else {
      AtIsProduct(s - 1, h);
      assert s * (h + 2) == (s - 1) * (h + 2) + (h + 2);
    }
  }

  lemma {:induction false} AtMonotone(s: nat, t: nat, h: nat)
    requires s <= t
    ensures At(s, h) <= At(t, h)
    ensures s < t ==> At(s, h) + h + 2 <= At(t, h)
    decreases t
  {
    if s == t {
    } else {
      AtMonotone(s, t - 1, h);
    }
  }

  lemma {:induction false} SlotsInFit(space: nat, s: nat, h: nat)
    ensures s < SlotsIn(space, h) <==> At(s, h) + h + 2 <= space
  {
    if space < h + 2 || s == 0 {
    } else {
      SlotsInFit(space - (h + 2), s - 1, h);
    }
  }

  lemma SlotFits(s: nat, h: nat)
    ensures s < Slots(h) <==> At(s, h) + h + 2 <= PAGE
  {
    SlotsInFit(PAGE, s, h);
  }

  lemma SlotsIsQuotient(h: nat)
    ensures Slots(h) == PAGE / (h + 2)
  {
    var n := Slots(h);
    SlotFits(n, h);
    AtIsProduct(n, h);
    if n > 0 {
      SlotFits(n - 1, h);
    }
    DivModUnique(PAGE, h + 2, n, PAGE - At(n, h));
  }

  lemma FitsMeansSlots(h: nat)
    requires Fits(h)
    ensures 1 <= Slots(h)
  {
    SlotFits(0, h);
  }

  // ---------- the flash device ----------

  datatype FlashOp = Erase | Program(adr: nat, word: u16)

  type Page = p: seq<u16> | |p| == PAGE witness seq(PAGE, _ => 0)

  function Blank(): Page {
    seq(PAGE, _ => ERASED)
  }

  /** The controller programs a halfword only while it is erased, or to zero. */
  predicate Takes(was: u16, w: u16) {
    was == ERASED || w == 0
  }

  function ApplyOp(p: Page, op: FlashOp): Page {
    match op
    case Erase => Blank()
    case Program(a, w) => if a < PAGE && Takes(p[a], w) then p[a := w] else p
  }

  /** The operation does what it is meant to: a programmed halfword is inside and still erased. */
  predicate Programmable(p: Page, op: FlashOp) {
    op.Program? ==> op.adr < PAGE && p[op.adr] == ERASED
  }

  // ---------- what one write programs ----------

  function Full(words: seq<u16>): seq<u16> {
    [START] + words + [END]
  }

  /** The first slot whose start marker is still erased, or the number of slots. */
  function FirstClear(p: Page, h: nat, s: nat): (r: nat)
    requires s <= Slots(h)
    ensures s <= r <= Slots(h)
    decreases Slots(h) - s
  {
    SlotFits(s, h);
    if s == Slots(h) || p[At(s, h)] == ERASED then s else FirstClear(p, h, s + 1)
  }

  /** On any page: no slot passed over is clear, and the one found is. */
  lemma {:induction false} FirstClearIs(p: Page, h: nat, s: nat, t: nat)
    requires s <= t < Slots(h)
    ensures At(t, h) < PAGE
    ensures t < FirstClear(p, h, s) ==> p[At(t, h)] != ERASED
    ensures t == FirstClear(p, h, s) ==> p[At(t, h)] == ERASED
    decreases Slots(h) - s
  {
    SlotFits(s, h);
    SlotFits(t, h);
    if s == t {
    } else if p[At(s, h)] != ERASED {
      FirstClearIs(p, h, s + 1, t);
    }
  }

  /** Number of erases a write that finds slot `s` clear begins with: one if there is no slot `s`. */
  function Leading(s: nat, h: nat): nat {
    if s < Slots(h) then 0 else 1
  }

  /** Offset of the slot that write goes to. */
  function Target(s: nat, h: nat): nat {
    if s < Slots(h) then At(s, h) else 0
  }

  /** Number of its flash operations. */
  function PlanLength(s: nat, h: nat): nat {
    Leading(s, h) + h + 2
  }

  /** Its operation `k`: start marker, payload and end marker follow the erase, if any. */
  function Planned(s: nat, words: seq<u16>, k: nat): FlashOp
    requires k < PlanLength(s, |words|)
  {
    var b := Leading(s, |words|);
    if k < b then Erase else Program(Target(s, |words|) + k - b, Full(words)[k - b])
  }

  /** The page after the first `k` operations of that write. */
  function After(p: Page, s: nat, words: seq<u16>, k: nat): Page
    requires k <= PlanLength(s, |words|)
  {
    if k == 0 then p else ApplyOp(After(p, s, words, k - 1), Planned(s, words, k - 1))
  }

  // ---------- what a read finds ----------

  predicate Readable(p: Page, h: nat, s: nat) {
    && At(s, h) + h + 2 <= PAGE
    && (forall t: nat | t <= s && At(t, h) < PAGE :: p[At(t, h)] == START)
    && p[At(s, h) + h + 1] == END
  }

  ghost predicate StartedUpTo(p: Page, h: nat, s: nat) {
    forall t: nat | t <= s :: At(t, h) < PAGE && p[At(t, h)] == START
  }

  /** Readability of a slot on any page: the slots up to it have start markers, and it has an end
      marker. */
  lemma ReadableIs(p: Page, h: nat, s: nat)
    requires s < Slots(h)
    ensures At(s, h) + h + 2 <= PAGE
    ensures Readable(p, h, s) <==> StartedUpTo(p, h, s) && p[At(s, h) + h + 1] == END
  {
    SlotFits(s, h);
    forall t: nat | t <= s ensures At(t, h) < PAGE {
      AtMonotone(t, s, h);
    }
  }

  /** The last readable slot below `s`. */
  function LastReadable(p: Page, h: nat, s: nat): (r: Option<nat>)
    ensures r.Some? ==> r.value < s && Readable(p, h, r.value)
    ensures forall t: nat | t < s && (r.Some? ==> r.value < t) :: !Readable(p, h, t)
  {
    if s == 0 then None
    else if Readable(p, h, s - 1) then Some(s - 1)
    else LastReadable(p, h, s - 1)
  }

  function ReadWords(p: Page, h: nat): Option<seq<u16>> {
    match LastReadable(p, h, Slots(h))
    case None => None
    case Some(s) => Some(p[At(s, h) + 1..At(s, h) + 1 + h])
  }

  // ---------- the log a page holds ----------

  /** One used slot: the first `done` halfwords of the block's image were programmed. */
  datatype Record = Record(words: seq<u16>, done: nat)

  predicate IsCommitted(r: Record) {
    r.done == |r.words| + 2
  }

  /** Halfword `j` of the record's slot. */
  function ImageAt(r: Record, j: nat): u16
    requires j < |r.words| + 2
  {
    if j < r.done then Full(r.words)[j] else ERASED
  }

  ghost predicate Holds(p: Page, log: seq<Record>, h: nat) {
    && |log| <= Slots(h)
    && (forall i | 0 <= i < |log| :: HoldsSlot(p, i, log[i], h))
    && (forall a | At(|log|, h) <= a < PAGE :: p[a] == ERASED)
  }

  ghost predicate HoldsSlot(p: Page, i: nat, r: Record, h: nat) {
    && |r.words| == h && 1 <= r.done <= h + 2
    && At(i, h) + h + 2 <= PAGE
    && forall j: nat {:trigger ImageAt(r, j)} | j < h + 2 :: p[At(i, h) + j] == ImageAt(r, j)
  }

  lemma BlankHolds(h: nat)
    ensures Holds(Blank(), [], h)
  {
  }

  /** Behind used slots, the end marker alone decides whether a slot is readable. */
  lemma ReadableByEnd(p: Page, h: nat, s: nat)
    requires At(s, h) + h + 2 <= PAGE
    requires forall t: nat | t < s && At(t, h) < PAGE :: p[At(t, h)] == START
    requires p[At(s, h)] == START
    ensures Readable(p, h, s) <==> p[At(s, h) + h + 1] == END
  {
    forall t: nat | t <= s && At(t, h) < PAGE ensures p[At(t, h)] == START {
      if t == s {
        assert p[At(s, h)] == START;
      }
    }
  }

  lemma HoldsMarkers(p: Page, i: nat, r: Record, h: nat)
    requires HoldsSlot(p, i, r, h)
    ensures p[At(i, h)] == 0x55AA
    ensures p[At(i, h) + h + 1] == 0xAA55 <==> IsCommitted(r)
    ensures IsCommitted(r) ==> p[At(i, h) + 1..At(i, h) + 1 + h] == r.words
  {
    assert p[At(i, h)] == ImageAt(r, 0);
    assert p[At(i, h) + h + 1] == ImageAt(r, h + 1);
    if IsCommitted(r) {
      forall j: nat | j < h ensures p[At(i, h) + 1 + j] == r.words[j] {
        assert p[At(i, h) + (j + 1)] == ImageAt(r, j + 1);
      }
    }
  }

  /** The writer appends after the last used slot, torn or committed. */
  lemma {:induction false} FirstClearOfLog(p: Page, log: seq<Record>, h: nat, s: nat)
    requires Holds(p, log, h) && s <= |log|
    ensures FirstClear(p, h, s) == |log|
    decreases |log| - s
  {
    SlotFits(s, h);
    if s < |log| {
      HoldsMarkers(p, s, log[s], h);
      FirstClearOfLog(p, log, h, s + 1);
    } else if s < Slots(h) {
      assert p[At(s, h)] == ERASED;
    }
  }

  lemma ReadableOfLog(p: Page, log: seq<Record>, h: nat, s: nat)
    requires Holds(p, log, h) && s < Slots(h)
    ensures Readable(p, h, s) <==> s < |log| && IsCommitted(log[s])
  {
    SlotFits(s, h);
    if s < |log| {
      forall t: nat | t <= s && At(t, h) < PAGE ensures p[At(t, h)] == START {
        HoldsMarkers(p, t, log[t], h);
      }
      HoldsMarkers(p, s, log[s], h);
    } else {
      AtMonotone(|log|, s, h);
      assert p[At(|log|, h)] == ERASED;
    }
  }

  function LastCommitted(log: seq<Record>): Option<seq<u16>> {
    if log == [] then None
    else if IsCommitted(log[|log| - 1]) then Some(log[|log| - 1].words)
    else LastCommitted(log[..|log| - 1])
  }

  lemma {:induction false} LastCommittedIs(log: seq<Record>, s: nat)
    requires s < |log| && IsCommitted(log[s])
    requires forall t | s < t < |log| :: !IsCommitted(log[t])
    ensures LastCommitted(log) == Some(log[s].words)
    decreases |log|
  {
    if s == |log| - 1 {
    } else {
      LastCommittedIs(log[..|log| - 1], s);
    }
  }

  lemma {:induction false} NothingCommitted(log: seq<Record>)
    requires forall t | 0 <= t < |log| :: !IsCommitted(log[t])
    ensures LastCommitted(log) == None
  {
    if log == [] {
    } else {
      NothingCommitted(log[..|log| - 1]);
    }
  }

  /** A read returns the payload of the last committed record and skips torn ones. */
  lemma ReadOfLog(p: Page, log: seq<Record>, h: nat)
    requires Holds(p, log, h)
    ensures ReadWords(p, h) == LastCommitted(log)
  {
    var r := LastReadable(p, h, Slots(h));
    forall t: nat | t < Slots(h)
      ensures Readable(p, h, t) <==> t < |log| && IsCommitted(log[t])
    {
      ReadableOfLog(p, log, h, t);
    }
    match r
    case None => NothingCommitted(log);
    case Some(s) =>
      LastCommittedIs(log, s);
      HoldsMarkers(p, s, log[s], h);
  }

  // ---------- power loss inside a write ----------

  /** The page with the first `k` elements of `f` programmed from offset `a` on. */
  function Splice(p: Page, a: nat, f: seq<u16>, k: nat): (q: Page)
    requires k <= |f| && a + k <= PAGE
  {
    seq(PAGE, i requires 0 <= i < PAGE => if a <= i < a + k && Takes(p[i], f[i - a]) then f[i - a] else p[i])
  }

  lemma SpliceStep(p: Page, a: nat, f: seq<u16>, k: nat)
    requires 0 < k <= |f| && a + k <= PAGE
    ensures ApplyOp(Splice(p, a, f, k - 1), Program(a + k - 1, f[k - 1])) == Splice(p, a, f, k)
  {
  }

  function Extend(log: seq<Record>, words: seq<u16>, k: nat): seq<Record> {
    if k == 0 then log else log + [Record(words, k)]
  }

  lemma SpliceKeepsSlot(p: Page, s: nat, f: seq<u16>, k: nat, i: nat, r: Record, h: nat)
    requires k <= |f| == h + 2 && At(s, h) + h + 2 <= PAGE
    requires i < s && HoldsSlot(p, i, r, h)
    ensures HoldsSlot(Splice(p, At(s, h), f, k), i, r, h)
  {
    AtMonotone(i, s, h);
  }

  lemma SpliceFillsSlot(p: Page, s: nat, words: seq<u16>, k: nat)
    requires 0 < k <= |words| + 2 && At(s, |words|) + |words| + 2 <= PAGE
    requires forall a | At(s, |words|) <= a < PAGE :: p[a] == ERASED
    ensures HoldsSlot(Splice(p, At(s, |words|), Full(words), k), s, Record(words, k), |words|)
  {
  }

  lemma HoldsAppend(q: Page, log: seq<Record>, r: Record, h: nat)
    requires |log| < Slots(h)
    requires forall i | 0 <= i < |log| :: HoldsSlot(q, i, log[i], h)
    requires HoldsSlot(q, |log|, r, h)
    requires forall a | At(|log|, h) + h + 2 <= a < PAGE :: q[a] == ERASED
    ensures Holds(q, log + [r], h)
  {
    assert At(|log + [r]|, h) == At(|log|, h) + h + 2;
  }

  lemma SpliceHolds(p: Page, log: seq<Record>, words: seq<u16>, k: nat)
    requires Holds(p, log, |words|) && |log| < Slots(|words|)
    requires k <= |words| + 2
    requires At(|log|, |words|) + |words| + 2 <= PAGE
    ensures Holds(Splice(p, At(|log|, |words|), Full(words), k), Extend(log, words, k), |words|)
  {
    var h, s := |words|, |log|;
    var q := Splice(p, At(s, h), Full(words), k);
    if k == 0 {
      assert q == p;
    } else {
      forall i: nat | i < s ensures HoldsSlot(q, i, log[i], h) {
        SpliceKeepsSlot(p, s, Full(words), k, i, log[i], h);
      }
      SpliceFillsSlot(p, s, words, k);
      HoldsAppend(q, log, Record(words, k), h);
    }
  }

  /** The log after the first `k` flash operations of a write of `words`. */
  function LogAfterWrite(log: seq<Record>, words: seq<u16>, k: nat): seq<Record> {
    if |log| < Slots(|words|) then Extend(log, words, k)
    else if k == 0 then log
    else Extend([], words, k - 1)
  }

  /** What an interrupted write has done, in closed form. */
  lemma {:induction false} AfterIs(p: Page, s: nat, words: seq<u16>, k: nat)
    requires Fits(|words|) && k <= PlanLength(s, |words|)
    ensures s < Slots(|words|) ==> At(s, |words|) + |words| + 2 <= PAGE
    ensures After(p, s, words, k) ==
      if s < Slots(|words|) then Splice(p, At(s, |words|), Full(words), k)
      else if k == 0 then p
      else Splice(Blank(), 0, Full(words), k - 1)
  {
    SlotFits(s, |words|);
    if k > 0 {
      AfterIs(p, s, words, k - 1);
      if s < Slots(|words|) {
        SpliceStep(p, At(s, |words|), Full(words), k);
      } else if k > 1 {
        SpliceStep(Blank(), 0, Full(words), k - 1);
      } else {
        SpliceNothing(Blank(), 0, Full(words));
      }
    } else if s < Slots(|words|) {
      SpliceNothing(p, At(s, |words|), Full(words));
    }
  }

  lemma SpliceNothing(p: Page, a: nat, f: seq<u16>)
    requires a <= PAGE
    ensures Splice(p, a, f, 0) == p
  {
  }

  lemma WriteKeepsLog(p: Page, log: seq<Record>, words: seq<u16>, k: nat)
    requires Fits(|words|) && Holds(p, log, |words|)
    requires k <= PlanLength(|log|, |words|)
    ensures Holds(After(p, |log|, words, k), LogAfterWrite(log, words, k), |words|)
  {
    AfterIs(p, |log|, words, k);
    if |log| < Slots(|words|) {
      SpliceHolds(p, log, words, k);
    } else if k > 0 {
      BlankHolds(|words|);
      FitsMeansSlots(|words|);
      SpliceHolds(Blank(), [], words, k - 1);
    }
  }

  /** Every halfword a write programs lies inside the page and is still erased, whatever torn
      slots the page holds and whatever values the payload has. */
  lemma WriteProgramsErased(p: Page, log: seq<Record>, words: seq<u16>, k: nat)
    requires Fits(|words|) && Holds(p, log, |words|)
    requires k < PlanLength(|log|, |words|)
    ensures Programmable(After(p, |log|, words, k), Planned(|log|, words, k))
  {
    AfterIs(p, |log|, words, k);
  }

  // ---------- whole runs ----------

  /** A write of `words` of which the power supply allows the first `done` flash operations. */
  datatype Write = Write(words: seq<u16>, done: nat)

  predicate RunOf(ws: seq<Write>, h: nat) {
    forall i | 0 <= i < |ws| :: |ws[i].words| == h
  }

  /** The page, and two meters: start markers programmed and erases done so far. */
  datatype Device = Device(page: Page, starts: nat, erases: nat)

  /** `a` is the offset of some slot. */
  predicate IsSlotOffset(a: nat, h: nat) {
    a == 0 || (a >= h + 2 && IsSlotOffset(a - (h + 2), h))
  }

  predicate IsStartMarker(op: FlashOp, h: nat) {
    op.Program? && IsSlotOffset(op.adr, h)
  }

  /** Start markers among the first `k` operations of a write. */
  function Starts(s: nat, words: seq<u16>, k: nat): nat
    requires k <= PlanLength(s, |words|)
  {
    if k == 0 then 0
    else Starts(s, words, k - 1) + if IsStartMarker(Planned(s, words, k - 1), |words|) then 1 else 0
  }

  /** Erases among the first `k` operations of a write. */
  function Erases(s: nat, words: seq<u16>, k: nat): nat
    requires k <= PlanLength(s, |words|)
  {
    if k == 0 then 0 else Erases(s, words, k - 1) + if Planned(s, words, k - 1).Erase? then 1 else 0
  }

  /** How many operations of a write take place. */
  function Performed(s: nat, w: Write): (k: nat)
    ensures k <= PlanLength(s, |w.words|)
  {
    if w.done < PlanLength(s, |w.words|) then w.done else PlanLength(s, |w.words|)
  }

  function RunWrite(d: Device, w: Write): Device {
    var s := FirstClear(d.page, |w.words|, 0);
    var k := Performed(s, w);
    Device(After(d.page, s, w.words, k), d.starts + Starts(s, w.words, k), d.erases + Erases(s, w.words, k))
  }

  /** The device after a run of completed and interrupted writes that starts on an erased page.
      Cutting the last write short gives every state in between. */
  function Run(ws: seq<Write>): Device {
    if ws == [] then Device(Blank(), 0, 0) else RunWrite(Run(ws[..|ws| - 1]), ws[|ws| - 1])
  }

  function RunLog(ws: seq<Write>): seq<Record> {
    if ws == [] then []
    else
      var log, w := RunLog(ws[..|ws| - 1]), ws[|ws| - 1];
      LogAfterWrite(log, w.words, Performed(|log|, w))
  }

  /** The reference: one cell, and the number of slots used since the last erase. */
  datatype Store<T> = Store(cell: Option<T>, used: nat)

  /** Storing `v` takes `need` programmings, preceded by an erase when all slots are used. */
  function StoreWrite<T>(st: Store<T>, v: T, need: nat, done: nat, slots: nat): Store<T> {
    if st.used < slots then
      Store(if done >= need then Some(v) else st.cell, if done >= 1 then st.used + 1 else st.used)
    else if done == 0 then st
    else Store(if done >= need + 1 then Some(v) else None, if done >= 2 then 1 else 0)
  }

  function RunStore(ws: seq<Write>, h: nat): Store<seq<u16>> {
    if ws == [] then Store(None, 0)
    else
      var w := ws[|ws| - 1];
      StoreWrite(RunStore(ws[..|ws| - 1], h), w.words, h + 2, w.done, Slots(h))
  }

  lemma {:induction false} RunKeepsLog(ws: seq<Write>, h: nat)
    requires Fits(h) && RunOf(ws, h)
    ensures Holds(Run(ws).page, RunLog(ws), h)
    ensures FirstClear(Run(ws).page, h, 0) == |RunLog(ws)|
  {
    if ws == [] {
      BlankHolds(h);
    } else {
      var before, w := ws[..|ws| - 1], ws[|ws| - 1];
      RunKeepsLog(before, h);
      WriteKeepsLog(Run(before).page, RunLog(before), w.words, Performed(|RunLog(before)|, w));
    }
    FirstClearOfLog(Run(ws).page, RunLog(ws), h, 0);
  }

  lemma StoreOfWrite(log: seq<Record>, w: Write)
    requires Fits(|w.words|) && |log| <= Slots(|w.words|)
    ensures var log' := LogAfterWrite(log, w.words, Performed(|log|, w));
            var st := Store(LastCommitted(log), |log|);
            StoreWrite(st, w.words, |w.words| + 2, w.done, Slots(|w.words|)) == Store(LastCommitted(log'), |log'|)
  {
    var k := Performed(|log|, w);
    if |log| < Slots(|w.words|) {
      LastCommittedOfExtend(log, w.words, k);
    } else if k > 0 {
      LastCommittedOfExtend([], w.words, k - 1);
    }
  }

  lemma LastCommittedOfExtend(log: seq<Record>, words: seq<u16>, k: nat)
    ensures LastCommitted(Extend(log, words, k))
         == if k == |words| + 2 then Some(words) else LastCommitted(log)
  {
    if k > 0 {
      assert Extend(log, words, k)[..|log|] == log;
    }
  }

  lemma {:induction false} StoreOfLog(ws: seq<Write>, h: nat)
    requires Fits(h) && RunOf(ws, h)
    ensures RunStore(ws, h) == Store(LastCommitted(RunLog(ws)), |RunLog(ws)|)
  {
    if ws == [] {
    } else {
      var before := ws[..|ws| - 1];
      StoreOfLog(before, h);
      RunKeepsLog(before, h);
      StoreOfWrite(RunLog(before), ws[|ws| - 1]);
    }
  }

  /** Refinement: after any sequence of completed and interrupted writes, a read agrees with the
      one-cell store. */
  lemma RunRefinesStore(ws: seq<Write>, h: nat)
    requires Fits(h) && RunOf(ws, h)
    ensures ReadWords(Run(ws).page, h) == RunStore(ws, h).cell
  {
    RunKeepsLog(ws, h);
    StoreOfLog(ws, h);
    ReadOfLog(Run(ws).page, RunLog(ws), h);
  }

  /** Crash safety of the next write of any run: after any number of its flash operations a read
      returns the block it returned before or the new one; nothing is returned only if nothing
      was returned before, or this write began with an erase and has not committed yet. */
  lemma CrashSafe(ws: seq<Write>, w: Write, h: nat)
    requires Fits(h) && RunOf(ws, h) && |w.words| == h
    ensures var s := FirstClear(Run(ws).page, h, 0);
            var erased := w.done > 0 && Planned(s, w.words, 0) == Erase;
            && ReadWords(Run(ws + [w]).page, h) ==
               (if w.done >= PlanLength(s, h) then Some(w.words)
                else if erased then None
                else ReadWords(Run(ws).page, h))
            && (erased ==> forall t: nat | At(t, h) + h + 2 <= PAGE :: Run(ws).page[At(t, h)] == START)
  {
    var ws' := ws + [w];
    assert ws'[..|ws'| - 1] == ws;
    RunRefinesStore(ws, h);
    RunRefinesStore(ws', h);
    RunKeepsLog(ws, h);
    StoreOfLog(ws, h);
    var p, log := Run(ws).page, RunLog(ws);
    if |log| == Slots(h) {
      forall t: nat | At(t, h) + h + 2 <= PAGE ensures p[At(t, h)] == START {
        SlotFits(t, h);
        HoldsMarkers(p, t, log[t], h);
      }
    }
  }

  /** Every flash operation of every run is one the controller performs: the next operation of an
      interrupted write always goes to an erased halfword inside the page. */
  lemma RunProgramsErased(ws: seq<Write>, w: Write, h: nat)
    requires Fits(h) && RunOf(ws, h) && |w.words| == h
    requires w.done < PlanLength(FirstClear(Run(ws).page, h, 0), h)
    ensures Programmable(Run(ws + [w]).page, Planned(FirstClear(Run(ws).page, h, 0), w.words, w.done))
  {
    var ws' := ws + [w];
    assert ws'[..|ws'| - 1] == ws;
    RunKeepsLog(ws, h);
    WriteProgramsErased(Run(ws).page, RunLog(ws), w.words, w.done);
  }

  // ---------- wear ----------

  lemma {:induction false} OffsetInSlot(s: nat, h: nat, j: nat)
    requires j < h + 2
    ensures IsSlotOffset(At(s, h) + j, h) <==> j == 0
  {
    if s == 0 {
    } else {
      OffsetInSlot(s - 1, h, j);
    }
  }

  lemma {:induction false} CountsOfWrite(s: nat, words: seq<u16>, k: nat)
    requires k <= PlanLength(s, |words|)
    ensures Starts(s, words, k) == if k > Leading(s, |words|) then 1 else 0
    ensures Erases(s, words, k) == if k > 0 then Leading(s, |words|) else 0
  {
    if k == 0 {
    } else {
      CountsOfWrite(s, words, k - 1);
      if s < Slots(|words|) {
        OffsetInSlot(s, |words|, k - 1);
      } else if k > 1 {
        OffsetInSlot(0, |words|, k - 2);
      }
    }
  }

  /** Start markers programmed = slots used in the current fill + a full page for every erase. */
  lemma {:induction false} WearBalance(ws: seq<Write>, h: nat)
    requires Fits(h) && RunOf(ws, h)
    ensures Run(ws).starts == Run(ws).erases * Slots(h) + |RunLog(ws)|
    ensures |RunLog(ws)| <= Slots(h)
  {
    if ws == [] {
    } else {
      var before, w := ws[..|ws| - 1], ws[|ws| - 1];
      WearBalance(before, h);
      RunKeepsLog(before, h);
      var log := RunLog(before);
      var k := Performed(|log|, w);
      CountsOfWrite(|log|, w.words, k);
      FitsMeansSlots(h);
      WearStep(Run(before), Run(ws), |log|, |RunLog(ws)|, Slots(h));
    }
  }

  lemma WearStep(d: Device, d': Device, used: nat, used': nat, n: nat)
    requires d.starts == d.erases * n + used
    requires if d'.erases == d.erases then d'.starts - d.starts == used' - used
             else d'.erases == d.erases + 1 && used == n && d'.starts - d.starts == used'
    ensures d'.starts == d'.erases * n + used'
  {
  }

  /** Exact wear: just after the a-th start marker of a run is programmed, exactly (a - 1) / N
      erases have happened, where N is the number of slots in the page. */
  lemma WearExact(ws: seq<Write>, w: Write, h: nat)
    requires Fits(h) && RunOf(ws, h) && |w.words| == h
    requires 0 < w.done <= PlanLength(FirstClear(Run(ws).page, h, 0), h)
    requires IsStartMarker(Planned(FirstClear(Run(ws).page, h, 0), w.words, w.done - 1), h)
    ensures Slots(h) == PAGE / (h + 2) > 0
    ensures var d := Run(ws + [w]);
            d.starts > 0 && d.erases == (d.starts - 1) / Slots(h)
  {
    var ws' := ws + [w];
    assert ws'[..|ws'| - 1] == ws;
    SlotsIsQuotient(h);
    FitsMeansSlots(h);
    RunKeepsLog(ws, h);
    WearBalance(ws', h);
    WearQuotient(Run(ws'), |RunLog(ws')|, Slots(h));
  }

  lemma WearQuotient(d: Device, used: nat, n: nat)
    requires 0 < used <= n && d.starts == d.erases * n + used
    ensures d.starts > 0 && d.erases == (d.starts - 1) / n
  {
    DivModUnique(d.erases * n + used - 1, n, d.erases, used - 1);
  }
}
