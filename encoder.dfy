/** The protocol encoder: how one command or data byte for an HD44780
    controller becomes single-byte writes to the I2C expander's port.
    Port layout: bits 7..4 carry a nibble, bit 3 the backlight, bit 2 the
    enable strobe (E), bit 1 is unused and bit 0 is register select (RS). */
module Encoder {
  import opened JsNum

  /** What the driver does on the bus, in order. The multi-byte writes and
      the reads of the address probe are kept opaque. */
  datatype Event =
    | Write(addr: int, value: bv8)
    | Pause(ms: int)
    | ProbeWrite(addr: int)
    | ProbeRead(addr: int)

  lemma AppendAssoc<T>(a: seq<T>, b: seq<T>, c: seq<T>)
    ensures (a + b) + c == a + (b + c)
  {
  }

  const EnableBit: bv8 := 0x04
  const BacklightBit: bv8 := 0x08

  predicate ValidBacklight(bk: bv8) { bk == 0x00 || bk == BacklightBit }
  predicate ValidRs(rs: bv8) { rs == 0 || rs == 1 }

  /** What every port byte must look like while the backlight value is `bk`
      and the register select is `rs`. */
  predicate WireByte(v: bv8, bk: bv8, rs: bv8)
  {
    v <= 0xFD && v & 0x02 == 0 && v & BacklightBit == bk && v & 0x01 == rs
  }

  /** The port byte that presents the high nibble of `dat` (main.ts:19-21). */
  function NibbleByte(dat: int, bk: bv8, rs: bv8): (v: bv8)
    requires ValidBacklight(bk) && ValidRs(rs)
    ensures v & 0xF0 == Lo8(dat) & 0xF0
    ensures v & EnableBit == 0
    ensures WireByte(v, bk, rs)
  {
    (Lo8(dat) & 0xF0) | bk | rs
  }

  /** E low, E high, E low: the controller latches on the falling edge. */
  function Strobe(v: bv8): seq<bv8>
  {
    [v, v | EnableBit, v]
  }

  /** `send`: one nibble, strobed (main.ts:18-25). */
  function SendBytes(dat: int, bk: bv8, rs: bv8): seq<bv8>
    requires ValidBacklight(bk) && ValidRs(rs)
  {
    Strobe(NibbleByte(dat, bk, rs))
  }

  /** `setcmd` / `setdat` once RS is set: the byte, then the byte shifted
      left by four (main.ts:27-37). */
  function ByteWrites(c: int, bk: bv8, rs: bv8): seq<bv8>
    requires ValidBacklight(bk) && ValidRs(rs)
  {
    SendBytes(c, bk, rs) + SendBytes(ShiftLeft4(c), bk, rs)
  }

  /** The six bytes of one command or data byte: its high nibble, then its
      low nibble moved up into the high position, each strobed. */
  lemma ByteWritesLayout(c: int, bk: bv8, rs: bv8)
    requires ValidBacklight(bk) && ValidRs(rs)
    ensures ByteWrites(c, bk, rs) ==
            Strobe((Lo8(c) & 0xF0) | bk | rs) + Strobe(((Lo8(c) & 0x0F) << 4) | bk | rs)
  {
    var b := Lo8(c);
    ShiftLeft4LowByte(c);
    assert (b << 4) & 0xF0 == (b & 0x0F) << 4;
  }

  /** Every byte of a command or data transfer is a well-formed port byte. */
  lemma ByteWritesWire(c: int, bk: bv8, rs: bv8)
    requires ValidBacklight(bk) && ValidRs(rs)
    ensures |ByteWrites(c, bk, rs)| == 6
    ensures forall i :: 0 <= i < 6 ==> WireByte(ByteWrites(c, bk, rs)[i], bk, rs)
  {
    var h, l := NibbleByte(c, bk, rs), NibbleByte(ShiftLeft4(c), bk, rs);
    assert WireByte(h | EnableBit, bk, rs);
    assert WireByte(l | EnableBit, bk, rs);
  }

  /** `setReg` for each byte: a write to `addr`, then a 1 ms pause
      (main.ts:13-16). */
  function Emit(addr: int, bytes: seq<bv8>): (evs: seq<Event>)
    ensures |evs| == 2 * |bytes|
  {
    seq(2 * |bytes|, i requires 0 <= i < 2 * |bytes| =>
      if i % 2 == 0 then Write(addr, bytes[i / 2]) else Pause(1))
  }

  /** Byte `i` is the write at position 2i, and a 1 ms pause follows it. */
  lemma {:induction false} EmitAt(addr: int, bytes: seq<bv8>, i: nat)
    requires i < |bytes|
    ensures Emit(addr, bytes)[2 * i] == Write(addr, bytes[i])
    ensures Emit(addr, bytes)[2 * i + 1] == Pause(1)
  {
  }

  lemma {:induction false} EmitAppend(addr: int, a: seq<bv8>, b: seq<bv8>)
    ensures Emit(addr, a + b) == Emit(addr, a) + Emit(addr, b)
  {
    var l, r := Emit(addr, a + b), Emit(addr, a) + Emit(addr, b);
    forall i | 0 <= i < |l|
      ensures l[i] == r[i]
    {
      if i >= 2 * |a| {
        assert (i - 2 * |a|) / 2 == i / 2 - |a|;
      }
    }
  }

  /** The two `send`s of `setcmd` or `setdat`, one after the other, put
      the byte's six port writes on the log. */
  lemma ByteLog(before: seq<Event>, addr: int, c: int, bk: bv8, rs: bv8)
    requires ValidBacklight(bk) && ValidRs(rs)
    ensures (before + Emit(addr, SendBytes(c, bk, rs))) + Emit(addr, SendBytes(ShiftLeft4(c), bk, rs)) ==
            before + Emit(addr, ByteWrites(c, bk, rs))
  {
    EmitAppend(addr, SendBytes(c, bk, rs), SendBytes(ShiftLeft4(c), bk, rs));
    AppendAssoc(before, Emit(addr, SendBytes(c, bk, rs)), Emit(addr, SendBytes(ShiftLeft4(c), bk, rs)));
  }

  /** The logical operations the driver issues: a command byte (`setcmd`), a
      data byte (`setdat`), a bare nibble sent with RS = 0 (the `send` calls
      of the init sequence) and a pause. */
  datatype Op = Cmd(c: int) | Data(d: int) | Half(n: int) | Wait(ms: int)

  function OpEvents(addr: int, bk: bv8, op: Op): seq<Event>
    requires ValidBacklight(bk)
  {
    match op
    case Cmd(c) => Emit(addr, ByteWrites(c, bk, 0))
    case Data(d) => Emit(addr, ByteWrites(d, bk, 1))
    case Half(n) => Emit(addr, SendBytes(n, bk, 0))
    case Wait(ms) => [Pause(ms)]
  }

  function OpsEvents(addr: int, bk: bv8, ops: seq<Op>): seq<Event>
    requires ValidBacklight(bk)
  {
    if ops == [] then [] else OpEvents(addr, bk, ops[0]) + OpsEvents(addr, bk, ops[1..])
  }

  lemma {:induction false} OpsEventsAppend(addr: int, bk: bv8, a: seq<Op>, b: seq<Op>)
    requires ValidBacklight(bk)
    ensures OpsEvents(addr, bk, a + b) == OpsEvents(addr, bk, a) + OpsEvents(addr, bk, b)
  {
    if a != [] {
      var h := OpEvents(addr, bk, a[0]);
      assert (a + b)[0] == a[0] && (a + b)[1..] == a[1..] + b;
      OpsEventsAppend(addr, bk, a[1..], b);
      assert OpsEvents(addr, bk, a + b) == h + (OpsEvents(addr, bk, a[1..]) + OpsEvents(addr, bk, b));
    } else {
      assert a + b == b;
    }
  }

  lemma OpsEventsSnoc(addr: int, bk: bv8, ops: seq<Op>, op: Op)
    requires ValidBacklight(bk)
    ensures OpsEvents(addr, bk, ops + [op]) == OpsEvents(addr, bk, ops) + OpEvents(addr, bk, op)
  {
    OpsEventsAppend(addr, bk, ops, [op]);
    assert [op][1..] == [];
    assert OpsEvents(addr, bk, [op]) == OpEvents(addr, bk, op) + [];
  }

  /** A log that held `before` and then the events of `done` gains the
      events of `op`: it now holds the events of `done + [op]`. */
  lemma LogStep(before: seq<Event>, addr: int, bk: bv8, done: seq<Op>, op: Op)
    requires ValidBacklight(bk)
    ensures (before + OpsEvents(addr, bk, done)) + OpEvents(addr, bk, op) ==
            before + OpsEvents(addr, bk, done + [op])
  {
    OpsEventsSnoc(addr, bk, done, op);
    AppendAssoc(before, OpsEvents(addr, bk, done), OpEvents(addr, bk, op));
  }

  /** A log that held `before` and then the events of the one-element list
      `[op]` holds `before` and the events of `op`. */
  lemma OpsEventsSingleLog(before: seq<Event>, addr: int, bk: bv8, op: Op)
    requires ValidBacklight(bk)
    ensures before + OpsEvents(addr, bk, [op]) == before + OpEvents(addr, bk, op)
  {
    assert [op][1..] == [];
    assert OpsEvents(addr, bk, [op]) == OpEvents(addr, bk, op) + [];
  }

  /** `setReg` three times: write, pause, for each byte of the strobe. */
  lemma EmitStrobe(addr: int, v: bv8)
    ensures Emit(addr, Strobe(v)) ==
            [Write(addr, v), Pause(1)] + [Write(addr, v | EnableBit), Pause(1)] + [Write(addr, v), Pause(1)]
  {
    var w := v | EnableBit;
    var a, b, c := [Write(addr, v), Pause(1)], [Write(addr, w), Pause(1)], [Write(addr, v), Pause(1)];
    assert [v][1..] == [];
    assert Emit(addr, [v]) == c + Emit(addr, []);
    assert [w, v][1..] == [v];
    assert Emit(addr, [w, v]) == b + c;
    assert Strobe(v)[1..] == [w, v];
    assert Emit(addr, Strobe(v)) == a + (b + c);
  }

  /** Every write in `evs` goes to `addr` and carries the backlight value `bk`
      with bit 1 clear. */
  ghost predicate Carries(evs: seq<Event>, addr: int, bk: bv8)
  {
    forall i :: 0 <= i < |evs| && evs[i].Write? ==>
      evs[i].addr == addr && evs[i].value <= 0xFD &&
      evs[i].value & 0x02 == 0 && evs[i].value & BacklightBit == bk
  }

  lemma CarriesAppend(a: seq<Event>, b: seq<Event>, addr: int, bk: bv8)
    requires Carries(a, addr, bk) && Carries(b, addr, bk)
    ensures Carries(a + b, addr, bk)
  {
    forall i | 0 <= i < |a + b| && (a + b)[i].Write?
      ensures (a + b)[i].addr == addr && (a + b)[i].value <= 0xFD
      ensures (a + b)[i].value & 0x02 == 0 && (a + b)[i].value & BacklightBit == bk
    {
      if i >= |a| {
        assert (a + b)[i] == b[i - |a|];
      }
    }
  }

  lemma EmitCarries(addr: int, bytes: seq<bv8>, bk: bv8, rs: bv8)
    requires forall i :: 0 <= i < |bytes| ==> WireByte(bytes[i], bk, rs)
    ensures Carries(Emit(addr, bytes), addr, bk)
  {
    var evs := Emit(addr, bytes);
    forall i | 0 <= i < |evs| && evs[i].Write?
      ensures evs[i].addr == addr && evs[i].value <= 0xFD
      ensures evs[i].value & 0x02 == 0 && evs[i].value & BacklightBit == bk
    {
      var j := i / 2;
      EmitAt(addr, bytes, j);
    }
  }

  /** Whatever the operations, every byte the encoder writes goes to the
      current address, lies in 0..0xFD, has bit 1 clear and carries the
      current backlight bit. */
  lemma {:induction false} OpsEventsCarry(addr: int, bk: bv8, ops: seq<Op>)
    requires ValidBacklight(bk)
    ensures Carries(OpsEvents(addr, bk, ops), addr, bk)
  {
    if ops != [] {
      var head := OpEvents(addr, bk, ops[0]);
      match ops[0] {
      case Cmd(c) =>
        ByteWritesWire(c, bk, 0);
        EmitCarries(addr, ByteWrites(c, bk, 0), bk, 0);
      case Data(d) =>
        ByteWritesWire(d, bk, 1);
        EmitCarries(addr, ByteWrites(d, bk, 1), bk, 1);
      case Half(n) =>
        var v := NibbleByte(n, bk, 0);
        assert WireByte(v | EnableBit, bk, 0);
        EmitCarries(addr, SendBytes(n, bk, 0), bk, 0);
      case Wait(ms) =>
        assert head == [Pause(ms)];
      }
      OpsEventsCarry(addr, bk, ops[1..]);
      CarriesAppend(head, OpsEvents(addr, bk, ops[1..]), addr, bk);
    }
  }

  /** What the controller takes from one event: on a write with E high, the
      RS bit and the nibble in bits 7..4 (latched when E falls). */
  function LatchOf(e: Event): seq<(bv8, bv8)>
  {
    if e.Write? && e.value & EnableBit != 0 then [(e.value & 0x01, e.value >> 4)] else []
  }

  /** The controller's side of the wire: everything it latches, in order. */
  function Latched(evs: seq<Event>): seq<(bv8, bv8)>
  {
    if evs == [] then [] else LatchOf(evs[0]) + Latched(evs[1..])
  }

  lemma {:induction false} LatchedAppend(a: seq<Event>, b: seq<Event>)
    ensures Latched(a + b) == Latched(a) + Latched(b)
  {
    if a == [] {
      assert a + b == b;
    } else {
      assert (a + b)[0] == a[0] && (a + b)[1..] == a[1..] + b;
      LatchedAppend(a[1..], b);
    }
  }

  /** The (RS, nibble) pairs an operation is meant to deliver: a command or
      data byte as its high then its low nibble, a bare nibble as itself. */
  function OpNibbles(op: Op): seq<(bv8, bv8)>
  {
    match op
    case Cmd(c) => [(0, Lo8(c) >> 4), (0, Lo8(c) & 0x0F)]
    case Data(d) => [(1, Lo8(d) >> 4), (1, Lo8(d) & 0x0F)]
    case Half(n) => [(0, Lo8(n) >> 4)]
    case Wait(_) => []
  }

  function OpsNibbles(ops: seq<Op>): seq<(bv8, bv8)>
  {
    if ops == [] then [] else OpNibbles(ops[0]) + OpsNibbles(ops[1..])
  }

  lemma OpsNibblesCons(op: Op, rest: seq<Op>)
    ensures OpsNibbles([op] + rest) == OpNibbles(op) + OpsNibbles(rest)
  {
    assert ([op] + rest)[0] == op && ([op] + rest)[1..] == rest;
  }

  lemma {:induction false} OpsNibblesAppend(a: seq<Op>, b: seq<Op>)
    ensures OpsNibbles(a + b) == OpsNibbles(a) + OpsNibbles(b)
  {
    if a == [] {
      assert a + b == b;
    } else {
      var h := OpNibbles(a[0]);
      OpsNibblesAppend(a[1..], b);
      assert OpsNibbles(a + b) == h + OpsNibbles(a[1..] + b) by {
        assert (a + b)[0] == a[0] && (a + b)[1..] == a[1..] + b;
      }
      AppendAssoc(h, OpsNibbles(a[1..]), OpsNibbles(b));
    }
  }

  /** The nibbles of a command byte below 0x100: its two hex digits. */
  lemma CmdNibbles(c: int)
    requires 0 <= c < 256
    ensures OpNibbles(Cmd(c)) == [(0, NibbleBits(c / 16)), (0, NibbleBits(c % 16))]
  {
    assert c % 256 == c;
    var b := Lo8(c);
    assert b >> 4 == NibbleBits(c / 16);
    assert b & 0x0F == NibbleBits(c % 16);
  }

  lemma EmitOneLatched(addr: int, b: bv8)
    ensures Latched(Emit(addr, [b])) == LatchOf(Write(addr, b))
  {
    var evs := [Write(addr, b), Pause(1)];
    assert Emit(addr, [b]) == evs;
    assert evs[1..] == [Pause(1)] && [Pause(1)][1..] == [];
    assert Latched([Pause(1)]) == [];
  }

  /** One strobe delivers exactly one nibble with its RS bit. */
  lemma StrobeLatched(addr: int, v: bv8)
    requires v & EnableBit == 0
    ensures Latched(Emit(addr, Strobe(v))) == [(v & 0x01, v >> 4)]
  {
    var w := v | EnableBit;
    assert w & EnableBit != 0 && w & 0x01 == v & 0x01 && w >> 4 == v >> 4;
    assert Strobe(v) == [v] + [w] + [v];
    EmitAppend(addr, [v] + [w], [v]);
    EmitAppend(addr, [v], [w]);
    LatchedAppend(Emit(addr, [v]) + Emit(addr, [w]), Emit(addr, [v]));
    LatchedAppend(Emit(addr, [v]), Emit(addr, [w]));
    EmitOneLatched(addr, v);
    EmitOneLatched(addr, w);
  }

  lemma SendLatched(addr: int, dat: int, bk: bv8, rs: bv8)
    requires ValidBacklight(bk) && ValidRs(rs)
    ensures Latched(Emit(addr, SendBytes(dat, bk, rs))) == [(rs, Lo8(dat) >> 4)]
  {
    var v := NibbleByte(dat, bk, rs);
    StrobeLatched(addr, v);
    assert v >> 4 == Lo8(dat) >> 4 by {
      assert v & 0xF0 == Lo8(dat) & 0xF0;
    }
  }

  lemma ByteLatched(addr: int, c: int, bk: bv8, rs: bv8)
    requires ValidBacklight(bk) && ValidRs(rs)
    ensures Latched(Emit(addr, ByteWrites(c, bk, rs))) == [(rs, Lo8(c) >> 4), (rs, Lo8(c) & 0x0F)]
  {
    EmitAppend(addr, SendBytes(c, bk, rs), SendBytes(ShiftLeft4(c), bk, rs));
    LatchedAppend(Emit(addr, SendBytes(c, bk, rs)), Emit(addr, SendBytes(ShiftLeft4(c), bk, rs)));
    SendLatched(addr, c, bk, rs);
    SendLatched(addr, ShiftLeft4(c), bk, rs);
    ShiftLeft4LowByte(c);
    var b := Lo8(c);
    assert (b << 4) >> 4 == b & 0x0F;
  }

  lemma OpLatched(addr: int, bk: bv8, op: Op)
    requires ValidBacklight(bk)
    ensures Latched(OpEvents(addr, bk, op)) == OpNibbles(op)
  {
    match op {
      case Cmd(c) => ByteLatched(addr, c, bk, 0);
      case Data(d) => ByteLatched(addr, d, bk, 1);
      case Half(n) => SendLatched(addr, n, bk, 0);
      case Wait(ms) => assert Latched([Pause(ms)]) == [];
    }
  }

  /** Decoding what the encoder emits gives back exactly the nibbles of the
      operations, in order, each with the right register select. */
  lemma {:induction false} OpsEventsLatched(addr: int, bk: bv8, ops: seq<Op>)
    requires ValidBacklight(bk)
    ensures Latched(OpsEvents(addr, bk, ops)) == OpsNibbles(ops)
  {
    if ops != [] {
      var head, tail := OpEvents(addr, bk, ops[0]), OpsEvents(addr, bk, ops[1..]);
      assert OpsEvents(addr, bk, ops) == head + tail;
      OpLatched(addr, bk, ops[0]);
      LatchedAppend(head, tail);
      OpsEventsLatched(addr, bk, ops[1..]);
      assert OpsNibbles(ops) == OpNibbles(ops[0]) + OpsNibbles(ops[1..]);
    }
  }
}
