/** The fixed HD44780 instructions the driver issues, and its reset
    sequence for the 4-bit interface. */
module Commands {
  import opened JsNum
  import opened Encoder

  const ClearDisplay := 0x01        // clear, cursor home
  const EntryIncrement := 0x06      // entry mode: increment, no display shift
  const DisplayOff := 0x08          // display off, cursor off, blink off
  const DisplayOn := 0x0C           // display on, cursor off, blink off
  const ShiftDisplayLeft := 0x18    // cursor/display shift: display, left
  const ShiftDisplayRight := 0x1C   // cursor/display shift: display, right
  const FunctionSet4Bit2Line := 0x28  // 4-bit bus, two lines, 5x8 font

  /** `setI2CAddress` (main.ts:65-76), first part: `setcmd(0x33)` sends
      the nibble 3 twice, the two bare `send`s add 3 and then 2 (with RS
      still 0 from `setcmd`), each step followed by 5 ms. */
  const ResetOps: seq<Op> :=
    [Cmd(0x33)] + [Wait(5)] + [Half(0x30)] + [Wait(5)] + [Half(0x20)] + [Wait(5)]

  /** Second part: function set, display on, entry mode, clear. */
  const ConfigOps: seq<Op> :=
    [Cmd(FunctionSet4Bit2Line)] + [Cmd(DisplayOn)] + [Cmd(EntryIncrement)] + [Cmd(ClearDisplay)]

  const InitOps: seq<Op> := ResetOps + ConfigOps

  /** The log after the reset part, operation by operation, in the order
      `setI2CAddress` performs them. */
  lemma ResetLog(before: seq<Event>, addr: int, bk: bv8)
    requires ValidBacklight(bk)
    ensures before + OpsEvents(addr, bk, ResetOps) ==
            before + OpEvents(addr, bk, Cmd(0x33)) + OpEvents(addr, bk, Wait(5)) +
            OpEvents(addr, bk, Half(0x30)) + OpEvents(addr, bk, Wait(5)) +
            OpEvents(addr, bk, Half(0x20)) + OpEvents(addr, bk, Wait(5))
  {
    var l1: seq<Op> := [Cmd(0x33)];
    var l2 := l1 + [Wait(5)];
    var l3 := l2 + [Half(0x30)];
    var l4 := l3 + [Wait(5)];
    var l5 := l4 + [Half(0x20)];
    OpsEventsSingleLog(before, addr, bk, Cmd(0x33));
    LogStep(before, addr, bk, l1, Wait(5));
    LogStep(before, addr, bk, l2, Half(0x30));
    LogStep(before, addr, bk, l3, Wait(5));
    LogStep(before, addr, bk, l4, Half(0x20));
    LogStep(before, addr, bk, l5, Wait(5));
  }

  /** The log after the configuration part, operation by operation. */
  lemma ConfigLog(before: seq<Event>, addr: int, bk: bv8)
    requires ValidBacklight(bk)
    ensures before + OpsEvents(addr, bk, ConfigOps) ==
            before + OpEvents(addr, bk, Cmd(FunctionSet4Bit2Line)) + OpEvents(addr, bk, Cmd(DisplayOn)) +
            OpEvents(addr, bk, Cmd(EntryIncrement)) + OpEvents(addr, bk, Cmd(ClearDisplay))
  {
    var l1: seq<Op> := [Cmd(FunctionSet4Bit2Line)];
    var l2 := l1 + [Cmd(DisplayOn)];
    var l3 := l2 + [Cmd(EntryIncrement)];
    OpsEventsSingleLog(before, addr, bk, Cmd(FunctionSet4Bit2Line));
    LogStep(before, addr, bk, l1, Cmd(DisplayOn));
    LogStep(before, addr, bk, l2, Cmd(EntryIncrement));
    LogStep(before, addr, bk, l3, Cmd(ClearDisplay));
  }

  /** The initialisation is the reset part followed by the configuration
      part. */
  lemma InitLog(before: seq<Event>, addr: int, bk: bv8)
    requires ValidBacklight(bk)
    ensures before + OpsEvents(addr, bk, InitOps) ==
            (before + OpsEvents(addr, bk, ResetOps)) + OpsEvents(addr, bk, ConfigOps)
  {
    OpsEventsAppend(addr, bk, ResetOps, ConfigOps);
    AppendAssoc(before, OpsEvents(addr, bk, ResetOps), OpsEvents(addr, bk, ConfigOps));
  }

  /** The reset part delivers the nibble 3 three times, then 2: the
      datasheet's "initializing by instruction" for the 4-bit interface. */
  lemma ResetNibbles()
    ensures OpsNibbles(ResetOps) == [(0, 3), (0, 3), (0, 3), (0, 2)]
  {
    CmdNibbles(0x33);
    assert OpNibbles(Half(0x30)) == [(0, 3)];
    assert OpNibbles(Half(0x20)) == [(0, 2)];
    var t5: seq<Op> := [Wait(5)];
    var t4 := [Half(0x20)] + t5;
    var t3 := [Wait(5)] + t4;
    var t2 := [Half(0x30)] + t3;
    var t1 := [Wait(5)] + t2;
    assert ResetOps == [Cmd(0x33)] + t1;
    OpsNibblesCons(Wait(5), []);
    assert [Wait(5)] + [] == t5;
    OpsNibblesCons(Half(0x20), t5);
    OpsNibblesCons(Wait(5), t4);
    OpsNibblesCons(Half(0x30), t3);
    OpsNibblesCons(Wait(5), t2);
    OpsNibblesCons(Cmd(0x33), t1);
  }

  /** The configuration part delivers 0x28, 0x0C, 0x06 and 0x01, each as its
      high then its low nibble. */
  lemma ConfigNibbles()
    ensures OpsNibbles(ConfigOps) == [(0, 2), (0, 8), (0, 0), (0, 0xC), (0, 0), (0, 6), (0, 0), (0, 1)]
  {
    CmdNibbles(0x28);
    CmdNibbles(0x0C);
    CmdNibbles(0x06);
    CmdNibbles(0x01);
    var t3: seq<Op> := [Cmd(ClearDisplay)];
    var t2 := [Cmd(EntryIncrement)] + t3;
    var t1 := [Cmd(DisplayOn)] + t2;
    assert ConfigOps == [Cmd(FunctionSet4Bit2Line)] + t1;
    OpsNibblesCons(Cmd(ClearDisplay), []);
    assert [Cmd(ClearDisplay)] + [] == t3;
    OpsNibblesCons(Cmd(EntryIncrement), t3);
    OpsNibblesCons(Cmd(DisplayOn), t2);
    OpsNibblesCons(Cmd(FunctionSet4Bit2Line), t1);
  }

  /** All nibbles of the initialisation, in order, all with RS = 0. */
  lemma InitNibbles()
    ensures OpsNibbles(InitOps) ==
            [(0, 3), (0, 3), (0, 3), (0, 2),
             (0, 2), (0, 8), (0, 0), (0, 0xC), (0, 0), (0, 6), (0, 0), (0, 1)]
  {
    OpsNibblesAppend(ResetOps, ConfigOps);
    ResetNibbles();
    ConfigNibbles();
  }

  /** What the controller latches while the driver initialises it, at any
      address and with either backlight value: exactly those nibbles. */
  lemma InitLatched(addr: int, bk: bv8)
    requires ValidBacklight(bk)
    ensures Latched(OpsEvents(addr, bk, InitOps)) ==
            [(0, 3), (0, 3), (0, 3), (0, 2),
             (0, 2), (0, 8), (0, 0), (0, 0xC), (0, 0), (0, 6), (0, 0), (0, 1)]
  {
    OpsEventsLatched(addr, bk, InitOps);
    InitNibbles();
  }

  /** `set_backlight` sends command 0x00 with RS = 0: six port bytes that are
      the backlight bit alone, strobed twice (main.ts:149-155). */
  lemma ZeroCommandBytes(bk: bv8)
    requires ValidBacklight(bk)
    ensures ByteWrites(0, bk, 0) == [bk, bk | EnableBit, bk, bk, bk | EnableBit, bk]
  {
    ByteWritesLayout(0, bk, 0);
    assert Lo8(0) == 0;
  }
}
