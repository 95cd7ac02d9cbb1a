/**
 The four routines of the settings store, working on the flash page in place, and the
 guarantees restated for byte blocks.
 */
module IniFlash {
  import opened Words
  import opened IniLog

  const STR_ADR := 0x0800_FC00
  const END_ADR := 0x0800_FFFF

  function Adr(s: nat, h: nat): nat {
    STR_ADR + 2 * At(s, h)
  }

  // ---------- bytes and halfwords ----------

  /** The halfwords programmed for a block: low byte first; an odd block is completed by
      whatever byte follows it in memory. */
  function Pack(blk: seq<u8>, pad: u8): (words: seq<u16>)
    ensures |words| == PayloadHalfwords(|blk|)
  {
    seq(PayloadHalfwords(|blk|), j => if 0 <= 2 * j < |blk| then PackedWord(blk, pad, j) else ERASED)
  }

  function PackedWord(blk: seq<u8>, pad: u8, j: nat): u16
    requires 2 * j < |blk|
  {
    blk[2 * j] + 0x100 * if 2 * j + 1 < |blk| then blk[2 * j + 1] else pad
  }

  function ByteOf(w: u16, odd: bool): u8 {
    if odd then w / 0x100 else w % 0x100
  }

  function Unpack(words: seq<u16>, n: nat): seq<u8>
    requires |words| == PayloadHalfwords(n)
  {
    PayloadIsPadded(n);
    seq(n, i requires 0 <= i < n => ByteOf(words[i / 2], i % 2 == 1))
  }

  lemma UnpackPack(blk: seq<u8>, pad: u8)
    ensures Unpack(Pack(blk, pad), |blk|) == blk
  {
    PayloadIsPadded(|blk|);
    forall i | 0 <= i < |blk| ensures Unpack(Pack(blk, pad), |blk|)[i] == blk[i] {
      assert Pack(blk, pad)[i / 2] == PackedWord(blk, pad, i / 2);
    }
  }

  function ReadBlock(p: Page, n: nat): Option<seq<u8>> {
    match ReadWords(p, PayloadHalfwords(n))
    case None => None
    case Some(words) => Some(Unpack(words, n))
  }

  // ---------- whole runs, in bytes ----------

  datatype BlockWrite = BlockWrite(blk: seq<u8>, pad: u8, done: nat)

  predicate BlockRunOf(bs: seq<BlockWrite>, n: nat) {
    forall i | 0 <= i < |bs| :: |bs[i].blk| == n
  }

  function Packed(bs: seq<BlockWrite>): (ws: seq<Write>)
    ensures |ws| == |bs|
  {
    seq(|bs|, i requires 0 <= i < |bs| => Write(Pack(bs[i].blk, bs[i].pad), bs[i].done))
  }

  function BlockStore(bs: seq<BlockWrite>, n: nat): Store<seq<u8>> {
    if bs == [] then Store(None, 0)
    else
      var b, h := bs[|bs| - 1], PayloadHalfwords(n);
      StoreWrite(BlockStore(bs[..|bs| - 1], n), b.blk, h + 2, b.done, Slots(h))
  }

  predicate SameStore(ws: Store<seq<u16>>, bs: Store<seq<u8>>, n: nat) {
    && ws.used == bs.used
    && ws.cell.Some? == bs.cell.Some?
    && (ws.cell.Some? ==> |ws.cell.value| == PayloadHalfwords(n) && Unpack(ws.cell.value, n) == bs.cell.value)
  }

  lemma {:induction false} BlockStoreIsRunStore(bs: seq<BlockWrite>, n: nat)
    requires BlockRunOf(bs, n)
    ensures SameStore(RunStore(Packed(bs), PayloadHalfwords(n)), BlockStore(bs, n), n)
  {
    if bs == [] {
    } else {
      var before, b := bs[..|bs| - 1], bs[|bs| - 1];
      BlockStoreIsRunStore(before, n);
      assert Packed(bs)[..|bs| - 1] == Packed(before);
      UnpackPack(b.blk, b.pad);
    }
  }

  /** After any sequence of completed and interrupted writes of `n`-byte blocks, reading a block
      back agrees with a store of one block. */
  lemma BlockRunRefinesStore(bs: seq<BlockWrite>, n: nat)
    requires Fits(PayloadHalfwords(n)) && BlockRunOf(bs, n)
    ensures ReadBlock(Run(Packed(bs)).page, n) == BlockStore(bs, n).cell
  {
    BlockStoreIsRunStore(bs, n);
    RunRefinesStore(Packed(bs), PayloadHalfwords(n));
  }

  lemma {:induction false} NoneReadableAfterGap(p: Page, h: nat, s: nat, n: nat)
    requires s <= n <= Slots(h) && At(s, h) < PAGE && p[At(s, h)] != START
    ensures LastReadable(p, h, n) == LastReadable(p, h, s)
    decreases n
  {
    if s == n {
    } else {
      NoneReadableAfterGap(p, h, s, n - 1);
      assert !Readable(p, h, n - 1);
    }
  }

  /** Address of the last readable slot below `s`, or 0. */
  function LastAdr(p: Page, h: nat, s: nat): nat {
    match LastReadable(p, h, s)
    case None => 0
    case Some(r) => Adr(r, h)
  }

  /** All slots below `s` have a start marker. */
  ghost predicate Started(p: Page, h: nat, s: nat) {
    forall t: nat | t < s && At(t, h) < PAGE :: p[At(t, h)] == START
  }

  lemma StartedStep(p: Page, h: nat, s: nat)
    requires Started(p, h, s) && At(s, h) + h + 2 <= PAGE && p[At(s, h)] == START
    ensures Started(p, h, s + 1)
    ensures LastAdr(p, h, s + 1) == if p[At(s, h) + h + 1] == END then Adr(s, h) else LastAdr(p, h, s)
  {
    ReadableByEnd(p, h, s);
  }

  /** Address of the first clear slot, or 0. */
  function ClearAdr(p: Page, h: nat): nat {
    var s := FirstClear(p, h, 0);
    if s == Slots(h) then 0 else Adr(s, h)
  }

  /** `ret` is the address of the first slot marker that is erased, or 0 if none is. */
  ghost predicate IsFirstErased(p: Page, h: nat, ret: nat) {
    forall t: nat | At(t, h) + h + 2 <= PAGE ::
      && (ret == 0 || Adr(t, h) < ret ==> p[At(t, h)] != ERASED)
      && (ret == Adr(t, h) ==> p[At(t, h)] == ERASED)
  }

  lemma FoundIsFirstErased(p: Page, h: nat)
    ensures IsFirstErased(p, h, ClearAdr(p, h))
  {
    var s := FirstClear(p, h, 0);
    forall t: nat | At(t, h) + h + 2 <= PAGE
      ensures ClearAdr(p, h) == 0 || Adr(t, h) < ClearAdr(p, h) ==> p[At(t, h)] != ERASED
      ensures ClearAdr(p, h) == Adr(t, h) ==> p[At(t, h)] == ERASED
    {
      SlotFits(t, h);
      FirstClearIs(p, h, 0, t);
      AdrOrdered(s, t, h);
    }
  }

  lemma AdrOrdered(s: nat, t: nat, h: nat)
    ensures Adr(t, h) < Adr(s, h) <==> t < s
    ensures Adr(t, h) == Adr(s, h) <==> t == s
  {
    if t <= s {
      AtMonotone(t, s, h);
    } else {
      AtMonotone(s, t, h);
    }
  }

  /** `ret` is the address of the last slot with an end marker such that it and all slots before it
      have start markers, or 0 if there is none. */
  ghost predicate IsLastMarked(p: Page, h: nat, ret: nat) {
    forall t: nat | At(t, h) + h + 2 <= PAGE ::
      && (ret == 0 || ret < Adr(t, h) ==> !(StartedUpTo(p, h, t) && p[At(t, h) + h + 1] == END))
      && (ret == Adr(t, h) ==> StartedUpTo(p, h, t) && p[At(t, h) + h + 1] == END)
  }

  lemma FoundIsLastMarked(p: Page, h: nat)
    ensures IsLastMarked(p, h, LastAdr(p, h, Slots(h)))
  {
    var ret, r := LastAdr(p, h, Slots(h)), LastReadable(p, h, Slots(h));
    forall t: nat | At(t, h) + h + 2 <= PAGE
      ensures ret == 0 || ret < Adr(t, h) ==> !(StartedUpTo(p, h, t) && p[At(t, h) + h + 1] == END)
      ensures ret == Adr(t, h) ==> StartedUpTo(p, h, t) && p[At(t, h) + h + 1] == END
    {
      SlotFits(t, h);
      ReadableIs(p, h, t);
      if r.Some? {
        AdrOrdered(t, r.value, h);
      }
    }
  }

  // ---------- the routines ----------

  class FlashPage {
    const cells: array<u16>
    /** How many more flash operations the supply allows; after that they have no effect. */
    var power: nat

    ghost predicate Valid() {
      cells.Length == PAGE
    }

    ghost function Contents(): Page
      reads cells
      requires Valid()
    {
      cells[..]
    }

    /** The halfword at offset `a`. */
    method Load(adr: nat, ghost a: nat) returns (w: u16)
      requires Valid() && adr == STR_ADR + 2 * a && a < PAGE
      ensures w == cells[a]
    {
      w := cells[(adr - STR_ADR) / 2];
    }

    /** Byte `i` of the little-endian halfwords at offset `a`. */
    method LoadByte(adr: nat, ghost a: nat, ghost i: nat) returns (b: u8)
      requires Valid() && adr == STR_ADR + 2 * a + i && a + i / 2 < PAGE
      ensures b == ByteOf(cells[a + i / 2], i % 2 == 1)
    {
      var w := Load(adr - adr % 2, a + i / 2);
      b := ByteOf(w, adr % 2 == 1);
    }

    method PowerStep() returns (on: bool)
      modifies `power
      ensures on <==> old(power) > 0
      ensures power == if on then old(power) - 1 else 0
    {
      on := power > 0;
      power := if on then power - 1 else 0;
    }

    method ProgramHalfWord(adr: nat, w: u16, ghost a: nat)
      requires Valid() && adr == STR_ADR + 2 * a && a < PAGE
      modifies this, cells
      ensures power == if old(power) > 0 then old(power) - 1 else 0
      ensures Contents() == if old(power) > 0 then ApplyOp(old(Contents()), Program(a, w)) else old(Contents())
    {
      var on := PowerStep();
      if on && Takes(cells[(adr - STR_ADR) / 2], w) {
        cells[(adr - STR_ADR) / 2] := w;
      }
    }

    method ErasePage()
      requires Valid()
      modifies this, cells
      ensures power == if old(power) > 0 then old(power) - 1 else 0
      ensures Contents() == if old(power) > 0 then ApplyOp(old(Contents()), Erase) else old(Contents())
    {
      var on := PowerStep();
      if on {
        for i := 0 to cells.Length
          invariant power == old(power) - 1 && forall j | 0 <= j < i :: cells[j] == ERASED
        {
          cells[i] := ERASED;
        }
        assert cells[..] == Blank();
      }
    }

    /** The first `k` operations of the write of `words` to slot `s` have been issued, starting from
        page `p` with `p0` operations left. */
    ghost predicate Issued(p: Page, p0: nat, s: nat, words: seq<u16>, k: nat)
      reads this, cells
      requires Valid() && k <= PlanLength(s, |words|)
    {
      && power == (if k <= p0 then p0 - k else 0)
      && Contents() == After(p, s, words, if k <= p0 then k else p0)
    }

    /** Issues the next programming of that write, at halfword offset `a`. */
    method ProgramNext(adr: nat, w: u16, ghost a: nat, ghost p: Page, ghost p0: nat,
                       ghost s: nat, ghost words: seq<u16>, ghost k: nat)
      requires Valid() && adr == STR_ADR + 2 * a && a < PAGE
      requires k < PlanLength(s, |words|) && Issued(p, p0, s, words, k)
      requires Planned(s, words, k) == Program(a, w)
      modifies this, cells
      ensures Issued(p, p0, s, words, k + 1)
    {
      ProgramHalfWord(adr, w, a);
    }

    method GetLastAdrIniBlk(blkSize: nat) returns (ret: nat)
      requires Valid() && Fits(PayloadHalfwords(blkSize))
      ensures var h := PayloadHalfwords(blkSize);
              ret == LastAdr(Contents(), h, Slots(h))
      ensures IsLastMarked(Contents(), PayloadHalfwords(blkSize), ret)
    {
      var len := blkSize + blkSize % 2 + 4;
      ghost var h, s := PayloadHalfwords(blkSize), 0;
      PayloadIsPadded(blkSize);
      ghost var p := Contents();
      var adr := STR_ADR;
      ret := 0;
      while adr < END_ADR + 2 - len
        invariant s <= Slots(h) && adr == Adr(s, h) && len == 2 * (h + 2)
        invariant Started(p, h, s) && ret == LastAdr(p, h, s)
        decreases END_ADR + 2 - adr
      {
        SlotFits(s, h);
        var w := Load(adr, At(s, h));
        if w == START {
          w := Load(adr + len - 2, At(s, h) + h + 1);
          StartedStep(p, h, s);
          if w == END {
            ret := adr;
          }
        } else {
          NoneReadableAfterGap(p, h, s, Slots(h));
          FoundIsLastMarked(p, h);
          return ret;
        }
        adr := adr + len;
        s := s + 1;
      }
      SlotFits(s, h);
      FoundIsLastMarked(p, h);
    }

    method GetLastAdrClrBlk(blkSize: nat) returns (ret: nat)
      requires Valid() && Fits(PayloadHalfwords(blkSize))
      ensures ret == ClearAdr(Contents(), PayloadHalfwords(blkSize))
      ensures IsFirstErased(Contents(), PayloadHalfwords(blkSize), ret)
    {
      var len := blkSize + blkSize % 2 + 4;
      ghost var h, s, p := PayloadHalfwords(blkSize), 0, Contents();
      PayloadIsPadded(blkSize);
      FoundIsFirstErased(p, h);
      var adr := STR_ADR;
      ret := 0;
      while adr < END_ADR + 2 - len
        invariant s <= Slots(h) && adr == Adr(s, h) && len == 2 * (h + 2)
        invariant FirstClear(p, h, s) == FirstClear(p, h, 0)
        decreases END_ADR + 2 - adr
      {
        SlotFits(s, h);
        var w := Load(adr, At(s, h));
        if w == ERASED {
          return adr;
        }
        adr := adr + len;
        s := s + 1;
      }
      SlotFits(s, h);
    }

    /** One pass of the payload loop: two bytes of the block make its halfword `j`, which operation
        `k` programs at offset `a`. */
    method ProgramPair(blk: array<u8>, i: nat, pad: u8, adr: nat, ghost j: nat, ghost a: nat, ghost k: nat,
                       ghost p: Page, ghost p0: nat, ghost s: nat, ghost words: seq<u16>)
      requires Valid() && cells as object != blk && i == 2 * j < blk.Length
      requires words == Pack(blk[..], pad) && j < |words|
      requires adr == STR_ADR + 2 * a && a < PAGE
      requires k < PlanLength(s, |words|) && Planned(s, words, k) == Program(a, words[j])
      requires Issued(p, p0, s, words, k)
      modifies this, cells
      ensures Issued(p, p0, s, words, k + 1)
    {
      PackAt(blk[..], pad, j);
      var w := blk[i] as int;
      w := w + 0x100 * if i + 1 < blk.Length then blk[i + 1] else pad;
      ProgramNext(adr, w, a, p, p0, s, words, k);
    }

    /** The payload loop of a write; `pad` is the byte that follows an odd-sized block in memory. */
    method ProgramPayload(blk: array<u8>, blkSize: nat, pad: u8, start: nat, ghost p: Page, ghost p0: nat,
                          ghost s: nat, ghost words: seq<u16>) returns (adr: nat)
      requires Valid() && cells as object != blk && blk.Length == blkSize
      requires words == Pack(blk[..], pad) && Fits(|words|)
      requires start == STR_ADR + 2 * (Target(s, |words|) + 1)
      requires Issued(p, p0, s, words, Leading(s, |words|) + 1)
      modifies this, cells
      ensures adr == start + 2 * |words| && Issued(p, p0, s, words, Leading(s, |words|) + 1 + |words|)
    {
      ghost var bytes, j, a, k := blk[..], 0, Target(s, |words|) + 1, Leading(s, |words|) + 1;
      TargetFits(s, |words|);
      PayloadIsPadded(blkSize);
      var i := 0;
      adr := start;
      while i < blkSize
        invariant i == 2 * j && j <= |words| && blk[..] == bytes
        invariant a == Target(s, |words|) + 1 + j && adr == STR_ADR + 2 * a
        invariant k == Leading(s, |words|) + 1 + j && Issued(p, p0, s, words, k)
      {
        PlannedAt(s, words, j);
        ProgramPair(blk, i, pad, adr, j, a, k, p, p0, s, words);
        adr := adr + 2;
        i := i + 2;
        j, a, k := j + 1, a + 1, k + 1;
      }
      assert j == |words|;
    }

    /** Finds the slot to write, erasing the page first if none is clear. */
    method FindSlot(blkSize: nat, ghost s: nat, ghost words: seq<u16>) returns (adr: nat)
      requires Valid() && |words| == PayloadHalfwords(blkSize) && Fits(|words|) && s == FirstClear(Contents(), |words|, 0)
      modifies this, cells
      ensures adr == STR_ADR + 2 * Target(s, |words|)
      ensures Issued(old(Contents()), old(power), s, words, Leading(s, |words|))
    {
      adr := GetLastAdrClrBlk(blkSize);
      if adr == 0 {
        adr := STR_ADR;
        ErasePage();
      }
    }

    /** Programs the start marker of the slot found; the result is the address behind it. */
    method BeginBlock(blkSize: nat, ghost s: nat, ghost words: seq<u16>) returns (adr: nat)
      requires Valid() && |words| == PayloadHalfwords(blkSize) && Fits(|words|) && s == FirstClear(Contents(), |words|, 0)
      modifies this, cells
      ensures adr == STR_ADR + 2 * (Target(s, |words|) + 1)
      ensures Issued(old(Contents()), old(power), s, words, Leading(s, |words|) + 1)
    {
      ghost var p, p0 := Contents(), power;
      TargetFits(s, |words|);
      PlannedMarkers(s, words);
      adr := FindSlot(blkSize, s, words);
      ProgramNext(adr, START, Target(s, |words|), p, p0, s, words, Leading(s, |words|));
      adr := adr + 2;
    }

    /** Issues all flash operations of a write. */
    method ProgramBlock(blk: array<u8>, blkSize: nat, pad: u8, ghost s: nat, ghost words: seq<u16>)
      requires Valid() && cells as object != blk && blk.Length == blkSize && words == Pack(blk[..], pad)
      requires Fits(|words|) && s == FirstClear(Contents(), |words|, 0)
      modifies this, cells
      ensures Issued(old(Contents()), old(power), s, words, PlanLength(s, |words|))
    {
      ghost var p, p0 := Contents(), power;
      var adr := BeginBlock(blkSize, s, words);
      adr := ProgramPayload(blk, blkSize, pad, adr, p, p0, s, words);
      EndBlock(adr, p, p0, s, words);
    }

    method EndBlock(adr: nat, ghost p: Page, ghost p0: nat, ghost s: nat, ghost words: seq<u16>)
      requires Valid() && Fits(|words|) && adr == STR_ADR + 2 * (Target(s, |words|) + 1 + |words|)
      requires Issued(p, p0, s, words, Leading(s, |words|) + 1 + |words|)
      modifies this, cells
      ensures Issued(p, p0, s, words, PlanLength(s, |words|))
    {
      TargetFits(s, |words|);
      PlannedMarkers(s, words);
      ProgramNext(adr, END, Target(s, |words|) + 1 + |words|, p, p0, s, words, Leading(s, |words|) + 1 + |words|);
    }

    /** On any page, exactly the first `done` operations planned take place, as many as the supply
        allows. A page that holds a log then holds one again. A completed write can be read, if the
        page held a log or had no erased slot marker. */
    method WriteIniBlk(blk: array<u8>, blkSize: nat, pad: u8) returns (ghost done: nat)
      requires Valid() && Fits(PayloadHalfwords(blkSize)) && blk.Length == blkSize
      requires cells as object != blk
      modifies this, cells
      ensures var h, p := PayloadHalfwords(blkSize), old(Contents());
              var s := FirstClear(p, h, 0);
              && done == (if old(power) < PlanLength(s, h) then old(power) else PlanLength(s, h))
              && power == old(power) - done
              && Contents() == After(p, s, Pack(blk[..], pad), done)
              && (IsLog(p, h) ==> IsLog(Contents(), h))
              && ((IsLog(p, h) || NoneErased(p, h)) && done == PlanLength(s, h) ==>
                    ReadBlock(Contents(), blkSize) == Some(blk[..]))
    {
      ghost var h, bytes, p, p0 := PayloadHalfwords(blkSize), blk[..], Contents(), power;
      ghost var s := FirstClear(p, h, 0);
      done := if p0 < PlanLength(s, h) then p0 else PlanLength(s, h);
      ProgramBlock(blk, blkSize, pad, s, Pack(bytes, pad));
      WriteOutcome(p, bytes, pad, done);
    }

    /** A whole life of the page: starting erased, each block of `bs` is written with the power it is
        given. Any sequence of completed and interrupted calls leaves what the run of them leaves. */
    method WriteSeries(bs: seq<BlockWrite>, blk: array<u8>)
      requires Valid() && cells as object != blk && Fits(PayloadHalfwords(blk.Length)) && BlockRunOf(bs, blk.Length)
      requires Contents() == Blank()
      modifies this, cells, blk
      ensures Contents() == Run(Packed(bs)).page
      ensures ReadBlock(Contents(), blk.Length) == BlockStore(bs, blk.Length).cell
    {
      ghost var before := [];
      for i := 0 to |bs|
        invariant before == bs[..i] && Contents() == Run(Packed(before)).page
      {
        WriteOne(before, bs[i], blk);
        PrefixGrows(bs, i);
        before := before + [bs[i]];
      }
      assert before == bs;
      BlockRunRefinesStore(bs, blk.Length);
    }

    method WriteOne(ghost before: seq<BlockWrite>, b: BlockWrite, blk: array<u8>)
      requires Valid() && cells as object != blk && Fits(PayloadHalfwords(blk.Length)) && |b.blk| == blk.Length
      requires Contents() == Run(Packed(before)).page
      modifies this, cells, blk
      ensures Contents() == Run(Packed(before + [b])).page
    {
      forall k | 0 <= k < blk.Length {
        blk[k] := b.blk[k];
      }
      assert blk[..] == b.blk;
      power := b.done;
      ghost var done := WriteIniBlk(blk, blk.Length, b.pad);
      RunOneMore(before, b);
    }

    method ReadIniBlk(dest: array<u8>, blkSize: nat) returns (ok: nat)
      requires Valid() && Fits(PayloadHalfwords(blkSize)) && blkSize <= dest.Length
      requires cells as object != dest
      modifies dest
      ensures ok == if ReadBlock(Contents(), blkSize).Some? then 1 else 0
      ensures dest[..] == match ReadBlock(Contents(), blkSize)
                          case None => old(dest[..])
                          case Some(blk) => blk + old(dest[blkSize..])
    {
      var adr := GetLastAdrIniBlk(blkSize);
      if adr == 0 {
        return 0;
      }
      ghost var h, p := PayloadHalfwords(blkSize), Contents();
      ghost var a := At(LastReadable(p, h, Slots(h)).value, h) + 1;
      ghost var blk := ReadBlock(p, blkSize).value;
      var src := adr + 2;
      for i := 0 to blkSize
        invariant Contents() == p && src == STR_ADR + 2 * a + i
        invariant forall k | 0 <= k < i :: dest[k] == blk[k]
        invariant forall k | i <= k < dest.Length :: dest[k] == old(dest[k])
      {
        BlockByte(p, blkSize, i);
        var b := LoadByte(src, a, i);
        dest[i] := b;
        src := src + 1;
      }
      return 1;
    }
  }

  lemma PayloadBound(n: nat, j: nat)
    ensures 2 * j < n <==> j < PayloadHalfwords(n)
  {
    PayloadIsPadded(n);
  }

  lemma PackAt(blk: seq<u8>, pad: u8, j: nat)
    requires 2 * j < |blk|
    ensures j < PayloadHalfwords(|blk|) && Pack(blk, pad)[j] == PackedWord(blk, pad, j)
  {
    PayloadBound(|blk|, j);
  }

  lemma PlannedAt(s: nat, words: seq<u16>, j: nat)
    requires j < |words|
    ensures Planned(s, words, Leading(s, |words|) + 1 + j) == Program(Target(s, |words|) + 1 + j, words[j])
  {
  }

  lemma PlannedMarkers(s: nat, words: seq<u16>)
    ensures var h := |words|;
            && Planned(s, words, Leading(s, h)) == Program(Target(s, h), START)
            && Planned(s, words, Leading(s, h) + 1 + h) == Program(Target(s, h) + 1 + h, END)
  {
  }

  lemma TargetFits(s: nat, h: nat)
    requires Fits(h)
    ensures Target(s, h) + h + 2 <= PAGE
  {
    SlotFits(s, h);
  }

  /** The page is one a run of writes can leave. */
  ghost predicate IsLog(p: Page, h: nat) {
    exists log: seq<Record> :: Holds(p, log, h)
  }

  /** No slot has an erased start marker. */
  ghost predicate NoneErased(p: Page, h: nat) {
    forall t: nat | At(t, h) + h + 2 <= PAGE :: p[At(t, h)] != ERASED
  }

  /** Whatever such a page holds, it is erased and the block stored. */
  lemma ForeignCommits(p: Page, blk: seq<u8>, pad: u8)
    requires Fits(PayloadHalfwords(|blk|)) && NoneErased(p, PayloadHalfwords(|blk|))
    ensures var h := PayloadHalfwords(|blk|);
            var s := FirstClear(p, h, 0);
            s == Slots(h) && ReadBlock(After(p, s, Pack(blk, pad), PlanLength(s, h)), |blk|) == Some(blk)
  {
    var words, h := Pack(blk, pad), PayloadHalfwords(|blk|);
    var s := FirstClear(p, h, 0);
    if s < Slots(h) {
      FirstClearIs(p, h, 0, s);
      SlotFits(s, h);
      assert false;
    }
    FitsMeansSlots(h);
    SlotFits(0, h);
    BlankHolds(h);
    AfterIs(p, s, words, PlanLength(s, h));
    SpliceHolds(Blank(), [], words, h + 2);
    var log := Extend([], words, h + 2);
    ReadOfLog(Splice(Blank(), 0, Full(words), h + 2), log, h);
    assert LastCommitted(log) == Some(words);
    UnpackPack(blk, pad);
  }

  lemma WriteOutcome(p: Page, blk: seq<u8>, pad: u8, done: nat)
    requires Fits(PayloadHalfwords(|blk|))
    requires done <= PlanLength(FirstClear(p, PayloadHalfwords(|blk|), 0), PayloadHalfwords(|blk|))
    ensures var h := PayloadHalfwords(|blk|);
            var s := FirstClear(p, h, 0);
            var q := After(p, s, Pack(blk, pad), done);
            && (IsLog(p, h) ==> IsLog(q, h))
            && ((IsLog(p, h) || NoneErased(p, h)) && done == PlanLength(s, h) ==> ReadBlock(q, |blk|) == Some(blk))
  {
    var h := PayloadHalfwords(|blk|);
    if NoneErased(p, h) && done == PlanLength(FirstClear(p, h, 0), h) {
      ForeignCommits(p, blk, pad);
    }
    if IsLog(p, h) {
      var log: seq<Record> :| Holds(p, log, h);
      FirstClearOfLog(p, log, h, 0);
      WriteKeepsLog(p, log, Pack(blk, pad), done);
      if done == PlanLength(|log|, h) {
        WriteCommits(p, log, blk, pad);
      }
    }
  }

  lemma PrefixGrows<T>(s: seq<T>, i: nat)
    requires i < |s|
    ensures s[..i + 1] == s[..i] + [s[i]]
  {
  }

  lemma RunOneMore(before: seq<BlockWrite>, b: BlockWrite)
    ensures var p, w := Run(Packed(before)).page, Write(Pack(b.blk, b.pad), b.done);
            var s := FirstClear(p, |w.words|, 0);
            Run(Packed(before + [b])).page == After(p, s, w.words, Performed(s, w))
  {
    var ws := Packed(before + [b]);
    assert ws[..|ws| - 1] == Packed(before);
  }

  lemma WriteCommits(p: Page, log: seq<Record>, blk: seq<u8>, pad: u8)
    requires Fits(PayloadHalfwords(|blk|)) && Holds(p, log, PayloadHalfwords(|blk|))
    ensures var words, n := Pack(blk, pad), PlanLength(|log|, PayloadHalfwords(|blk|));
            ReadBlock(After(p, |log|, words, n), |blk|) == Some(blk)
  {
    var words, n := Pack(blk, pad), PlanLength(|log|, PayloadHalfwords(|blk|));
    WriteKeepsLog(p, log, words, n);
    StoreOfWrite(log, Write(words, n));
    ReadOfLog(After(p, |log|, words, n), LogAfterWrite(log, words, n), |words|);
    UnpackPack(blk, pad);
  }

  lemma BlockByte(p: Page, n: nat, i: nat)
    requires i < n && ReadBlock(p, n).Some?
    ensures var h := PayloadHalfwords(n);
            var a := At(LastReadable(p, h, Slots(h)).value, h) + 1;
            && a + i / 2 < PAGE
            && ReadBlock(p, n).value[i] == ByteOf(p[a + i / 2], i % 2 == 1)
  {
    PayloadIsPadded(n);
  }
}
