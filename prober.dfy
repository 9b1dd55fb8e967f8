/** The address prober (`AutoAddr`): find which expander address answers
    with the backpack's readback signature. The bus is an oracle: for each
    address, the two signed bytes read back after the all-ones and the
    all-zero probe writes. */
module Prober {
  import opened JsNum
  import opened Encoder

  type Readback = int -> (Int8, Int8)

  /** Position i of the scan order: 0x20..0x27, then 0x38..0x3F
      (main.ts:101-103, 112-113). */
  function Candidate(i: int): int
  {
    if i < 8 then 0x20 + i else 0x30 + i
  }

  /** Whether `a` is one of the sixteen addresses the prober tries. */
  predicate IsCandidate(a: int)
  {
    0x20 <= a < 0x28 || 0x38 <= a < 0x40
  }

  /** The signature test of main.ts:105-108, with JavaScript's truncating
      `%` on the first (signed) readback. */
  predicate Accepts(r: (Int8, Int8))
  {
    JsRem(r.0, 16) == 7 && r.1 == 0
  }

  /** Because `%` keeps the sign of a negative read, the test holds exactly
      when the first read is non-negative with remainder 7 and the second
      is zero. */
  lemma AcceptsIff(r1: Int8, r2: Int8)
    ensures Accepts((r1, r2)) <==> r1 >= 0 && r1 % 16 == 7 && r2 == 0
  {
    if r1 < 0 {
      assert JsRem(-(r1 as int), 16) >= 0;
    }
  }

  /** Within the signed byte range, eight first reads pass the test. */
  lemma AcceptedFirstReads(r1: Int8)
    ensures JsRem(r1, 16) == 7 <==> r1 in {7, 23, 39, 55, 71, 87, 103, 119}
  {
    AcceptsIff(r1, 0);
    if r1 >= 0 && r1 % 16 == 7 {
      var q := r1 / 16;
      assert r1 == 16 * q + 7 && 0 <= q < 8;
    }
  }

  datatype Outcome = Found(addr: int) | NotFound

  /** Probe lo, lo + 1, ... below hi until one is accepted: the outcome and
      the addresses probed, in order. */
  function ScanRange(readback: Readback, lo: int, hi: int): (r: (Outcome, seq<int>))
    decreases hi - lo
    ensures |r.1| <= if lo < hi then hi - lo else 0
    ensures forall i :: 0 <= i < |r.1| ==> r.1[i] == lo + i
    ensures r.0.NotFound? ==>
              |r.1| == (if lo < hi then hi - lo else 0) &&
              forall a :: lo <= a < hi ==> !Accepts(readback(a))
    ensures r.0.Found? ==>
              |r.1| > 0 && r.0.addr == lo + |r.1| - 1 && Accepts(readback(r.0.addr)) &&
              forall a :: lo <= a < r.0.addr ==> !Accepts(readback(a))
  {
    if lo >= hi then (NotFound, [])
    else if Accepts(readback(lo)) then (Found(lo), [lo])
    else
      var rest := ScanRange(readback, lo + 1, hi);
      (rest.0, [lo] + rest.1)
  }

  /** The reference scan: the first candidate, in scan order, whose readback
      is accepted, and every candidate probed up to it. */
  function Scan(readback: Readback): (r: (Outcome, seq<int>))
    ensures |r.1| <= 16
    ensures forall i :: 0 <= i < |r.1| ==> r.1[i] == Candidate(i)
    ensures r.0.NotFound? ==>
              |r.1| == 16 && forall a :: IsCandidate(a) ==> !Accepts(readback(a))
    ensures r.0.Found? ==>
              IsCandidate(r.0.addr) && Accepts(readback(r.0.addr)) &&
              r.1 != [] && r.1[|r.1| - 1] == r.0.addr &&
              forall a :: IsCandidate(a) && a < r.0.addr ==> !Accepts(readback(a))
  {
    var first := ScanRange(readback, 0x20, 0x28);
    if first.0.Found? then first
    else
      var second := ScanRange(readback, 0x38, 0x40);
      assert forall i :: 8 <= i < 8 + |second.1| ==> (first.1 + second.1)[i] == second.1[i - 8];
      (second.0, first.1 + second.1)
  }

  /** Scan state: `whole` is what is left to find from `addr` below `hi`,
      with `probed` already probed and rejected. */
  ghost predicate Pending(whole: (Outcome, seq<int>), readback: Readback, addr: int, hi: int,
                          probed: seq<int>)
  {
    var rest := ScanRange(readback, addr, hi);
    whole == (rest.0, probed + rest.1)
  }

  /** Probing `addr`: either it is accepted and the scan ends there, or the
      scan goes on from addr + 1. */
  lemma ProbeStep(whole: (Outcome, seq<int>), readback: Readback, addr: int, hi: int,
                  probed: seq<int>)
    requires addr < hi && Pending(whole, readback, addr, hi, probed)
    ensures Accepts(readback(addr)) ==> whole == (Found(addr), probed + [addr])
    ensures !Accepts(readback(addr)) ==> Pending(whole, readback, addr + 1, hi, probed + [addr])
  {
    if !Accepts(readback(addr)) {
      var rest := ScanRange(readback, addr + 1, hi);
      assert ScanRange(readback, addr, hi) == (rest.0, [addr] + rest.1);
      assert probed + ([addr] + rest.1) == (probed + [addr]) + rest.1;
    }
  }

  /** Nothing left below hi: the scan ends with nothing found. */
  lemma PendingEnd(whole: (Outcome, seq<int>), readback: Readback, hi: int, probed: seq<int>)
    requires Pending(whole, readback, hi, hi, probed)
    ensures whole == (NotFound, probed)
  {
    assert probed + [] == probed;
  }

  /** `AutoAddr` (main.ts:99-123): the two bounded ascending scans. Returns
      the first accepted address, or 0 when none is, and the probe order. */
  method AutoAddr(readback: Readback) returns (a: int, probed: seq<int>)
    ensures (if a == 0 then NotFound else Found(a), probed) == Scan(readback)
  {
    var k := true;
    var addr := 0x20;
    probed := [];
    ghost var first := ScanRange(readback, 0x20, 0x28);
    assert [] + first.1 == first.1;
    while k && addr < 0x28
      invariant 0x20 <= addr <= 0x28
      invariant k ==> Pending(first, readback, addr, 0x28, probed)
      invariant !k ==> 0x20 <= addr < 0x28 && first == (Found(addr), probed)
    {
      var r := readback(addr);
      var d1 := JsRem(r.0, 16);
      var d2 := r.1;
      ProbeStep(first, readback, addr, 0x28, probed);
      probed := probed + [addr];
      if d1 == 7 && d2 == 0 {
        k := false;
      } else {
        addr := addr + 1;
      }
    }
    if !k {
      a := addr;
      return;
    }
    PendingEnd(first, readback, 0x28, probed);
    ghost var whole := Scan(readback);
    assert Pending(whole, readback, 0x38, 0x40, probed);
    addr := 0x38;
    while k && addr < 0x40
      invariant 0x38 <= addr <= 0x40
      invariant k ==> Pending(whole, readback, addr, 0x40, probed)
      invariant !k ==> 0x38 <= addr < 0x40 && whole == (Found(addr), probed)
    {
      var r := readback(addr);
      var d1 := JsRem(r.0, 16);
      var d2 := r.1;
      ProbeStep(whole, readback, addr, 0x40, probed);
      probed := probed + [addr];
      if d1 == 7 && d2 == 0 {
        k := false;
      } else {
        addr := addr + 1;
      }
    }
    if !k {
      a := addr;
    } else {
      PendingEnd(whole, readback, 0x40, probed);
      a := 0;
    }
  }

  /** A bus on which only 0x27 answers with the signature: the scan stops
      there, after the eight addresses 0x20..0x27. */
  lemma OnlyAt27(readback: Readback)
    requires forall a :: Accepts(readback(a)) <==> a == 0x27
    ensures Scan(readback).0 == Found(0x27) && |Scan(readback).1| == 8
  {
    var r := Scan(readback);
    assert IsCandidate(0x27) && Accepts(readback(0x27));
    assert r.0.NotFound? ==> !Accepts(readback(0x27));
    assert r.0.addr == 0x27;
    var n := |r.1|;
    assert r.1[n - 1] == Candidate(n - 1) == 0x27;
  }

  /** A bus on which nothing answers: every one of the sixteen candidates is
      probed, in order, and the outcome is "not found". */
  lemma NothingAnswers(readback: Readback)
    requires forall a :: !Accepts(readback(a))
    ensures Scan(readback).0 == NotFound
    ensures |Scan(readback).1| == 16
    ensures forall i :: 0 <= i < 16 ==> Scan(readback).1[i] == Candidate(i)
  {
  }

  /** The bus traffic of probing `probed`, in order: for each address the
      all-ones write, a read, the all-zero write and a read
      (main.ts:104-107, 114-117). */
  function ProbeEvents(probed: seq<int>): (evs: seq<Event>)
    ensures |evs| == 4 * |probed|
  {
    if probed == [] then []
    else [ProbeWrite(probed[0]), ProbeRead(probed[0]), ProbeWrite(probed[0]), ProbeRead(probed[0])]
         + ProbeEvents(probed[1..])
  }
}
