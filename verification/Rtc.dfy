/**
 Reading the 32-bit real-time counter, which keeps counting, through two 16-bit registers.
 */
module Rtc {
  import opened Words
  import opened Arith

  /** The counter as it appears when it has counted `c` times since it was zero. */
  function Shown(c: nat): u32 {
    c % 0x1_0000_0000
  }

  function HighHalf(c: nat): u16 {
    c / 0x1_0000 % 0x1_0000
  }

  function LowHalf(c: nat): u16 {
    c % 0x1_0000
  }

  /** What the routine returns when its reads see the counts c1, c2, c3 and, if it reads again, c4. */
  function Combined(c1: nat, c2: nat, c3: nat, c4: nat): u32 {
    if HighHalf(c1) != HighHalf(c3) then HighHalf(c3) * 0x1_0000 + LowHalf(c4)
    else HighHalf(c1) * 0x1_0000 + LowHalf(c2)
  }

  /** The counter has shown `v` at some moment between the counts `from` and `to`. */
  ghost predicate ShownBetween(v: u32, from: nat, to: nat) {
    exists c: nat :: from <= c <= to && Shown(c) == v
  }

  class RealTimeClock {
    /** Counts so far. */
    var count: nat

    /** Time passes. */
    method Advance()
      modifies this
      ensures old(count) <= count
    {
      var ticks: int :| ticks >= 0;
      count := count + ticks;
    }

    method ReadCNTH() returns (h: u16)
      modifies this
      ensures old(count) <= count && h == HighHalf(count)
    {
      Advance();
      h := HighHalf(count);
    }

    method ReadCNTL() returns (l: u16)
      modifies this
      ensures old(count) <= count && l == LowHalf(count)
    {
      Advance();
      l := LowHalf(count);
    }

    /** The value returned was shown by the counter during the call, unless the counter advanced by
        more than 0xFFFF0000 meanwhile. */
    method GetCounter() returns (v: u32, ghost c2: nat, ghost c4: nat)
      modifies this
      ensures old(count) <= c2 <= c4 <= count
      ensures count - old(count) < 0x1_0000 ==> v == Shown(c2) || v == Shown(c4)
      ensures count - old(count) <= 0xFFFF_0000 ==> ShownBetween(v, old(count), count)
    {
      ghost var c0 := count;
      var high1: int := ReadCNTH();
      ghost var c1 := count;
      var low: int := ReadCNTL();
      c2 := count;
      var high2: int := ReadCNTH();
      ghost var c3 := count;
      c4 := count;
      if high1 != high2 {
        var again: int := ReadCNTL();
        c4 := count;
        v := high2 * 0x1_0000 + again;
      } else {
        v := high1 * 0x1_0000 + low;
      }
      assert v == Combined(c1, c2, c3, c4);
      if c4 - c1 < 0x1_0000 {
        ReadConsistent(c1, c2, c3, c4);
      }
      if c4 - c1 <= 0xFFFF_0000 {
        ReadLinearizable(c1, c2, c3, c4);
      }
    }
  }

  /** The two registers together show the counter. */
  lemma Halves(q: nat, r: u16)
    ensures Shown(q * 0x1_0000 + r) == (q % 0x1_0000) * 0x1_0000 + r
    ensures HighHalf(q * 0x1_0000 + r) == q % 0x1_0000 && LowHalf(q * 0x1_0000 + r) == r
  {
    var x, k := q * 0x1_0000 + r, q / 0x1_0000;
    DivModUnique(x, 0x1_0000, q, r);
    assert q == k * 0x1_0000 + q % 0x1_0000;
    DivModUnique(x, 0x1_0000_0000, k, (q % 0x1_0000) * 0x1_0000 + r);
  }

  lemma Split(c: nat) returns (q: nat, r: u16)
    ensures c == q * 0x1_0000 + r
    ensures Shown(c) == (q % 0x1_0000) * 0x1_0000 + r && HighHalf(c) == q % 0x1_0000 && LowHalf(c) == r
  {
    q, r := c / 0x1_0000, c % 0x1_0000;
    Halves(q, r);
  }

  lemma SameModulo(q: nat, q': nat)
    requires q <= q' < q + 0x1_0000 && q % 0x1_0000 == q' % 0x1_0000
    ensures q == q'
  {
  }

  /** Within 65536 counts the result is what the counter showed at the second or the last read. */
  lemma ReadConsistent(c1: nat, c2: nat, c3: nat, c4: nat)
    requires c1 <= c2 <= c3 <= c4 < c1 + 0x1_0000
    ensures Combined(c1, c2, c3, c4) == if HighHalf(c1) != HighHalf(c3) then Shown(c4) else Shown(c2)
  {
    var q1, r1 := Split(c1);
    var q2, r2 := Split(c2);
    var q3, r3 := Split(c3);
    var q4, r4 := Split(c4);
    if q1 % 0x1_0000 == q3 % 0x1_0000 {
      SameModulo(q1, q3);
      assert q2 == q1;
    } else {
      assert q4 == q3;
    }
  }

  /** Up to 0xFFFF0000 counts the result is still a value the counter showed in between. */
  lemma ReadLinearizable(c1: nat, c2: nat, c3: nat, c4: nat)
    requires c1 <= c2 <= c3 <= c4 <= c1 + 0xFFFF_0000
    ensures ShownBetween(Combined(c1, c2, c3, c4), c1, c4)
  {
    if HighHalf(c1) == HighHalf(c3) {
      SameHighHalf(c1, c2, c3);
      assert Combined(c1, c2, c3, c4) == Shown(c2);
    } else {
      var c := ReadAgain(c1, c3, c4);
      assert Combined(c1, c2, c3, c4) == Shown(c);
    }
  }

  /** Without a change of the high half the low half was read within the same 65536 counts. */
  lemma SameHighHalf(c1: nat, c2: nat, c3: nat)
    requires c1 <= c2 <= c3 <= c1 + 0xFFFF_0000 && HighHalf(c1) == HighHalf(c3)
    ensures Shown(c2) == HighHalf(c1) * 0x1_0000 + LowHalf(c2)
  {
    var q1, r1 := Split(c1);
    var q2, r2 := Split(c2);
    var q3, r3 := Split(c3);
    SameModulo(q1, q3);
    assert q2 == q1;
  }

  /** After a change, the new high half and the low half read again belong to a count in between. */
  lemma ReadAgain(c1: nat, c3: nat, c4: nat) returns (c: nat)
    requires c1 <= c3 <= c4 && HighHalf(c1) != HighHalf(c3)
    ensures c1 <= c <= c4 && Shown(c) == HighHalf(c3) * 0x1_0000 + LowHalf(c4)
  {
    var q1, r1 := Split(c1);
    var q3, r3 := Split(c3);
    var q4, r4 := Split(c4);
    Halves(q3, r4);
    Between(q1, r1, q3, r3, q4, r4);
    c := q3 * 0x1_0000 + r4;
  }

  lemma Between(q1: nat, r1: u16, q3: nat, r3: u16, q4: nat, r4: u16)
    requires q1 * 0x1_0000 + r1 <= q3 * 0x1_0000 + r3 <= q4 * 0x1_0000 + r4 && q1 != q3
    ensures q1 * 0x1_0000 + r1 <= q3 * 0x1_0000 + r4 <= q4 * 0x1_0000 + r4
  {
  }

  /** The bound is exact: whenever the counter may advance further, some timing of the four reads
      returns a value the counter never showed during the call. */
  lemma LinearizableExactly(advance: nat)
    ensures (forall c1: nat, c2: nat, c3: nat, c4: nat | c1 <= c2 <= c3 <= c4 <= c1 + advance ::
               ShownBetween(Combined(c1, c2, c3, c4), c1, c4))
       <==> advance <= 0xFFFF_0000
  {
    if advance <= 0xFFFF_0000 {
      forall c1: nat, c2: nat, c3: nat, c4: nat | c1 <= c2 <= c3 <= c4 <= c1 + advance
        ensures ShownBetween(Combined(c1, c2, c3, c4), c1, c4)
      {
        ReadLinearizable(c1, c2, c3, c4);
      }
    } else {
      TornRead();
    }
  }

  lemma TornRead()
    ensures var c1, c2, c3 := 0xFFFF, 0x1_0005, 0x1_0000_0000;
            !ShownBetween(Combined(c1, c2, c3, c3), c1, c3)
  {
    assert Combined(0xFFFF, 0x1_0005, 0x1_0000_0000, 0x1_0000_0000) == 5;
  }
}
