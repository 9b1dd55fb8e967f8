/** Cursor and text layout: which command and data operations `printChar`
    and `putString` issue for a character or a string at column x, row y. */
module Layout {
  import opened JsNum
  import opened Encoder

  /** The "set DDRAM address" command base of a row: 0x80 plus the row's
      start address (main.ts:171-177). Any row other than 1, 2 or 3 is
      treated as row 0. */
  function RowBase(y: int): int
  {
    if y == 1 then 0xC0
    else if y == 2 then 0x80 + 0x14
    else if y == 3 then 0xC0 + 0x14
    else 0x80
  }

  /** Reference: the HD44780 four-line DDRAM map, rows starting at 0x00,
      0x40, 0x14 and 0x54. */
  function DdramAddress(x: int, y: int): int
    requires 0 <= y <= 3
  {
    (if y % 2 == 1 then 0x40 else 0x00) + (if y >= 2 then 0x14 else 0x00) + x
  }

  /** `printChar(ch, x, y)`: a cursor command unless x is negative, then the
      character as data (main.ts:169-182). */
  function PrintCharOps(ch: int, x: int, y: int): (ops: seq<Op>)
    ensures |ops| == (if x >= 0 then 2 else 1) && ops[|ops| - 1] == Data(ch)
  {
    (if x >= 0 then [Cmd(RowBase(y) + x)] else []) + [Data(ch)]
  }

  /** For a row in 0..3 and a non-negative column the cursor command is
      "set DDRAM address" (0x80) of the datasheet's address of that cell;
      any other row addresses row 0; a negative column sends no command. */
  lemma PrintCharAddress(ch: int, x: int, y: int)
    ensures 0 <= x && 0 <= y <= 3 ==>
              PrintCharOps(ch, x, y) == [Cmd(0x80 + DdramAddress(x, y)), Data(ch)]
    ensures 0 <= x && !(0 <= y <= 3) ==>
              PrintCharOps(ch, x, y) == [Cmd(0x80 + DdramAddress(x, 0)), Data(ch)]
    ensures x < 0 ==> PrintCharOps(ch, x, y) == [Data(ch)]
  {
  }

  /** A cursor command above 0xFF is silently cut to its low byte: the
      encoder only ever looks at the low eight bits (main.ts:19, 30). */
  lemma {:induction false} CursorByteMasked(c: int, bk: bv8, rs: bv8)
    requires ValidBacklight(bk) && ValidRs(rs)
    ensures ByteWrites(c, bk, rs) == ByteWrites(c % 256, bk, rs)
  {
    ByteWritesLayout(c, bk, rs);
    ByteWritesLayout(c % 256, bk, rs);
    Lo8Mod(c);
  }

  /** The index at which `putString` moves to row 1: 16 - x when the string
      starts on row 0, none otherwise (main.ts:191-194). */
  function BreakPoint(x: int, y: int): int
  {
    if y == 0 then 16 - x else -1
  }

  /** The operations for character i of `s` (main.ts:192, 195-200). */
  function CharOps(s: string, i: nat, x: int, y: int): seq<Op>
    requires i < |s|
  {
    if i == 0 then PrintCharOps(s[0] as int, x, y)
    else if i == BreakPoint(x, y) then PrintCharOps(s[i] as int, 0, 1)
    else PrintCharOps(s[i] as int, -1, 0)
  }

  /** The operations `putString` has issued once it has handled the first n
      characters. */
  function PutStringPrefix(s: string, x: int, y: int, n: nat): seq<Op>
    requires n <= |s|
  {
    if n == 0 then [] else PutStringPrefix(s, x, y, n - 1) + CharOps(s, n - 1, x, y)
  }

  /** `putString(s, x, y)` (main.ts:189-202). */
  function PutStringOps(s: string, x: int, y: int): seq<Op>
  {
    PutStringPrefix(s, x, y, |s|)
  }

  /** The characters of `t` as bare data writes. */
  function DataOps(t: string): (ops: seq<Op>)
    ensures |ops| == |t|
  {
    if t == [] then [] else DataOps(t[..|t| - 1]) + [Data(t[|t| - 1] as int)]
  }

  /** The cursor command that places the first character, if any. */
  function Lead(x: int, y: int): seq<Op>
  {
    if x >= 0 then [Cmd(RowBase(y) + x)] else []
  }

  /** Whether `putString` wraps: it starts on row 0 and the string reaches
      index 16 - x (which is at least 1). */
  predicate Wraps(s: string, x: int, y: int)
  {
    y == 0 && 1 <= 16 - x < |s|
  }

  lemma DataOpsSnoc(t: string, c: char)
    ensures DataOps(t + [c]) == DataOps(t) + [Data(c as int)]
  {
    assert (t + [c])[..|t|] == t;
  }

  /** One more character: `putString`'s loop body. */
  lemma PrefixStep(s: string, x: int, y: int, n: nat)
    requires 0 < n <= |s|
    ensures PutStringPrefix(s, x, y, n) == PutStringPrefix(s, x, y, n - 1) + CharOps(s, n - 1, x, y)
  {
  }

  /** The log of `putString` after character i: the operations for the
      first i characters, then those for character i. */
  lemma PutStringLogStep(before: seq<Event>, addr: int, bk: bv8, s: string, x: int, y: int, i: nat)
    requires ValidBacklight(bk) && i < |s|
    ensures (before + OpsEvents(addr, bk, PutStringPrefix(s, x, y, i))) +
            OpsEvents(addr, bk, CharOps(s, i, x, y)) ==
            before + OpsEvents(addr, bk, PutStringPrefix(s, x, y, i + 1))
  {
    OpsEventsAppend(addr, bk, PutStringPrefix(s, x, y, i), CharOps(s, i, x, y));
    AppendAssoc(before, OpsEvents(addr, bk, PutStringPrefix(s, x, y, i)),
                OpsEvents(addr, bk, CharOps(s, i, x, y)));
  }

  /** Before the break point (or with none), the first n characters are the
      leading cursor command and the characters in order. */
  lemma {:induction false} PrefixPlain(s: string, x: int, y: int, n: nat)
    requires 0 < n <= |s| && !(y == 0 && 1 <= 16 - x < n)
    ensures PutStringPrefix(s, x, y, n) == Lead(x, y) + DataOps(s[..n])
  {
    var m := n - 1;
    var lead := Lead(x, y);
    if m == 0 {
      assert PutStringPrefix(s, x, y, 1) == lead + [Data(s[0] as int)] by {
        PrefixStep(s, x, y, 1);
        assert CharOps(s, 0, x, y) == lead + [Data(s[0] as int)];
      }
      assert DataOps(s[..1]) == [Data(s[0] as int)] by {
        assert s[..1] == [] + [s[0]];
        DataOpsSnoc([], s[0]);
      }
    } else {
      PrefixPlain(s, x, y, m);
      var c := s[m];
      var front := DataOps(s[..m]);
      assert PutStringPrefix(s, x, y, n) == (lead + front) + [Data(c as int)] by {
        PrefixStep(s, x, y, n);
        assert CharOps(s, m, x, y) == [Data(c as int)];
      }
      assert DataOps(s[..n]) == front + [Data(c as int)] by {
        assert s[..n] == s[..m] + [c];
        DataOpsSnoc(s[..m], c);
      }
      AppendAssoc(lead, front, [Data(c as int)]);
    }
  }

  /** Past the break point b = 16 - x on row 0: the characters before b,
      the cursor command for row 1, column 0, then characters b .. n - 1. */
  lemma {:induction false} PrefixWrapped(s: string, x: int, n: nat)
    requires 1 <= 16 - x < n <= |s|
    ensures PutStringPrefix(s, x, 0, n) ==
            Lead(x, 0) + DataOps(s[..16 - x]) + [Cmd(0xC0)] + DataOps(s[16 - x..n])
  {
    var b, m := 16 - x, n - 1;
    var c := s[m];
    var lead := Lead(x, 0);
    if m == b {
      PrefixPlain(s, x, 0, m);
      var front := DataOps(s[..b]);
      assert PutStringPrefix(s, x, 0, n) == (lead + front) + [Cmd(0xC0), Data(c as int)] by {
        PrefixStep(s, x, 0, n);
        assert CharOps(s, m, x, 0) == [Cmd(0xC0), Data(c as int)];
      }
      assert DataOps(s[b..n]) == [Data(c as int)] by {
        assert s[b..n] == [] + [c];
        DataOpsSnoc([], c);
      }
      assert [Cmd(0xC0), Data(c as int)] == [Cmd(0xC0)] + [Data(c as int)];
      AppendAssoc(lead + front, [Cmd(0xC0)], [Data(c as int)]);
    } else {
      PrefixWrapped(s, x, m);
      var front := lead + DataOps(s[..b]) + [Cmd(0xC0)];
      var back := DataOps(s[b..m]);
      assert PutStringPrefix(s, x, 0, n) == (front + back) + [Data(c as int)] by {
        PrefixStep(s, x, 0, n);
        assert CharOps(s, m, x, 0) == [Data(c as int)];
      }
      assert DataOps(s[b..n]) == back + [Data(c as int)] by {
        assert s[b..n] == s[b..m] + [c];
        DataOpsSnoc(s[b..m], c);
      }
      AppendAssoc(front, back, [Data(c as int)]);
    }
  }

  /** `putString` in closed form when it wraps: the cursor command for
      (x, y) unless x < 0, the characters before index 16 - x, one cursor
      command for (0, 1), then the rest of the characters. */
  lemma PutStringWrapped(s: string, x: int, y: int)
    requires Wraps(s, x, y)
    ensures PutStringOps(s, x, y) ==
            Lead(x, y) + DataOps(s[..16 - x]) + [Cmd(RowBase(1))] + DataOps(s[16 - x..])
  {
    var b := 16 - x;
    assert s[b..|s|] == s[b..];
    PrefixWrapped(s, x, |s|);
  }

  /** `putString` in closed form otherwise: nothing for the empty string,
      else the cursor command for (x, y) unless x < 0 and every character in
      order with no further cursor command. */
  lemma PutStringUnwrapped(s: string, x: int, y: int)
    requires !Wraps(s, x, y)
    ensures PutStringOps(s, x, y) == if s == [] then [] else Lead(x, y) + DataOps(s)
  {
    if s != [] {
      PrefixPlain(s, x, y, |s|);
      assert s[..|s|] == s;
    }
  }

  /** Seventeen characters from (0, 0): the sixteenth stays on row 0 and the
      seventeenth, 'Q', goes to row 1, column 0. */
  lemma PutStringWrapExample()
    ensures PutStringOps("ABCDEFGHIJKLMNOPQ", 0, 0) ==
            [Cmd(0x80)] + DataOps("ABCDEFGHIJKLMNOP") + [Cmd(0xC0), Data('Q' as int)]
  {
    var s := "ABCDEFGHIJKLMNOPQ";
    PutStringWrapped(s, 0, 0);
    assert s[..16] == "ABCDEFGHIJKLMNOP";
    assert s[16..] == "Q";
    DataOpsSnoc([], 'Q');
  }
}
