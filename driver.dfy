/** The driver itself: the module state `LCD_I2C_ADDR`, `BK` and `RS` as the
    fields of one object, and every operation as a method that appends its
    bus traffic to a ghost log. Each method is proved against the
    specification functions of Encoder, Commands, Layout and Prober. */
module Driver {
  import opened JsNum
  import opened Encoder
  import opened Commands
  import opened Layout
  import opened Prober
  import opened Decimal

  class Lcd {
    /** `LCD_I2C_ADDR`: where every port byte goes. */
    var addr: int
    /** `BK`: the backlight bit, 0x08 or 0x00. */
    var bk: bv8
    /** `RS`: the register-select bit of the last command or data byte. */
    var rs: bv8
    /** Everything the driver has done on the bus, in order. */
    ghost var log: seq<Event>

    ghost predicate Valid()
      reads this
    {
      ValidBacklight(bk) && ValidRs(rs)
    }

    /** The initial module state (main.ts:7-10): address 0x3f, backlight on,
        RS = 0, nothing sent yet. */
    constructor ()
      ensures Valid()
      ensures addr == 0x3f && bk == BacklightBit && rs == 0 && log == []
    {
      addr := 0x3f;
      bk := BacklightBit;
      rs := 0;
      log := [];
    }

    /** `setReg` (main.ts:13-16): one byte to the expander, then 1 ms. */
    method SetReg(dat: bv8)
      modifies this`log
      ensures log == old(log) + [Write(addr, dat), Pause(1)]
    {
      log := log + [Write(addr, dat), Pause(1)];
    }

    /** `basic.pause(ms)`. */
    method Delay(ms: int)
      modifies this`log
      ensures log == old(log) + [Pause(ms)]
    {
      log := log + [Pause(ms)];
    }

    /** `send` (main.ts:18-25): the high nibble of `dat` with the current
        backlight and register select, strobed. */
    method Send(dat: int)
      requires Valid()
      modifies this`log
      ensures log == old(log) + Emit(addr, SendBytes(dat, bk, rs))
    {
      var d := Lo8(dat) & 0xF0;
      d := d | bk;
      d := d | rs;
      SetReg(d);
      SetReg(d | EnableBit);
      SetReg(d);
      EmitStrobe(addr, d);
    }

    /** `setcmd` (main.ts:27-31): RS = 0, then both nibbles of `cmd`. */
    method SetCmd(cmd: int)
      requires Valid()
      modifies this`log, this`rs
      ensures Valid() && rs == 0
      ensures log == old(log) + OpEvents(addr, bk, Cmd(cmd))
    {
      rs := 0;
      Send(cmd);
      Send(ShiftLeft4(cmd));
      ByteLog(old(log), addr, cmd, bk, 0);
    }

    /** `setdat` (main.ts:33-37): RS = 1, then both nibbles of `dat`. */
    method SetDat(dat: int)
      requires Valid()
      modifies this`log, this`rs
      ensures Valid() && rs == 1
      ensures log == old(log) + OpEvents(addr, bk, Data(dat))
    {
      rs := 1;
      Send(dat);
      Send(ShiftLeft4(dat));
      ByteLog(old(log), addr, dat, bk, 1);
    }

    /** The first half of `setI2CAddress` (main.ts:66-71): `setcmd(0x33)`,
        then the two bare `send`s, which run with the RS = 0 that
        `setcmd(0x33)` left behind, each step followed by 5 ms. */
    method ResetSequence()
      requires Valid()
      modifies this`log, this`rs
      ensures Valid() && rs == 0
      ensures log == old(log) + OpsEvents(addr, bk, ResetOps)
    {
      SetCmd(0x33);
      Delay(5);
      Send(0x30);
      Delay(5);
      Send(0x20);
      Delay(5);
      ResetLog(old(log), addr, bk);
    }

    /** The second half of `setI2CAddress` (main.ts:72-75): function set,
        display on, entry mode, clear. */
    method ConfigSequence()
      requires Valid()
      modifies this`log, this`rs
      ensures Valid() && rs == 0
      ensures log == old(log) + OpsEvents(addr, bk, ConfigOps)
    {
      SetCmd(FunctionSet4Bit2Line);
      SetCmd(DisplayOn);
      SetCmd(EntryIncrement);
      SetCmd(ClearDisplay);
      ConfigLog(old(log), addr, bk);
    }

    /** `setI2CAddress` (main.ts:65-76): the reset and configuration
        sequence, at the current address. */
    method SetI2CAddress()
      requires Valid()
      modifies this`log, this`rs
      ensures Valid() && rs == 0
      ensures log == old(log) + OpsEvents(addr, bk, InitOps)
    {
      ResetSequence();
      ConfigSequence();
      InitLog(old(log), addr, bk);
    }

    /** `setAddress` (main.ts:83-86): switch to `myAddr` first, then
        initialise the display there. */
    method SetAddress(myAddr: int)
      requires Valid()
      modifies this`addr, this`log, this`rs
      ensures Valid() && addr == myAddr && rs == 0
      ensures log == old(log) + OpsEvents(myAddr, bk, InitOps)
    {
      addr := myAddr;
      SetI2CAddress();
    }

    /** `setAddress2` (main.ts:93-96): the same for a numeric address. */
    method SetAddress2(myAddr: int)
      requires Valid()
      modifies this`addr, this`log, this`rs
      ensures Valid() && addr == myAddr && rs == 0
      ensures log == old(log) + OpsEvents(myAddr, bk, InitOps)
    {
      addr := myAddr;
      SetI2CAddress();
    }

    /** `setAddress3` (main.ts:130-133): probe for the backpack, store what
        the probe returned (0 when nothing answered) and initialise the
        display at that address regardless. */
    method SetAddress3(readback: Readback)
      requires Valid()
      modifies this`addr, this`log, this`rs
      ensures Valid() && rs == 0
      ensures Scan(readback).0.Found? ==> addr == Scan(readback).0.addr
      ensures Scan(readback).0.NotFound? ==> addr == 0
      ensures log == old(log) + ProbeEvents(Scan(readback).1) + OpsEvents(addr, bk, InitOps)
    {
      var a, probed := AutoAddr(readback);
      log := log + ProbeEvents(probed);
      addr := a;
      SetI2CAddress();
    }

    /** `clear` (main.ts:140-142): command 0x01. */
    method Clear()
      requires Valid()
      modifies this`log, this`rs
      ensures Valid() && rs == 0
      ensures log == old(log) + OpEvents(addr, bk, Cmd(ClearDisplay))
    {
      SetCmd(ClearDisplay);
    }

    /** `set_backlight` (main.ts:149-155): the backlight bit is set exactly
        when `on` is 1, then the six bytes of command 0x00 carry it. */
    method SetBacklight(on: int)
      requires Valid()
      modifies this`bk, this`log, this`rs
      ensures Valid() && rs == 0
      ensures bk == if on == 1 then BacklightBit else 0x00
      ensures log == old(log) + Emit(addr, [bk, bk | EnableBit, bk, bk, bk | EnableBit, bk])
    {
      if on == 1 {
        bk := BacklightBit;
      } else {
        bk := 0x00;
      }
      SetCmd(0x00);
      ZeroCommandBytes(bk);
    }

    /** `set_LCD_Show` (main.ts:162-167): display on (0x0C) when `show` is
        1, display off (0x08) otherwise. */
    method SetLcdShow(show: int)
      requires Valid()
      modifies this`log, this`rs
      ensures Valid() && rs == 0
      ensures log == old(log) + OpEvents(addr, bk, Cmd(if show == 1 then DisplayOn else DisplayOff))
    {
      if show == 1 {
        SetCmd(DisplayOn);
      } else {
        SetCmd(DisplayOff);
      }
    }

    /** `shl` (main.ts:218-220): shift the display left, 0x18. */
    method Shl()
      requires Valid()
      modifies this`log, this`rs
      ensures Valid() && rs == 0
      ensures log == old(log) + OpEvents(addr, bk, Cmd(ShiftDisplayLeft))
    {
      SetCmd(ShiftDisplayLeft);
    }

    /** `shr` (main.ts:227-229): shift the display right, 0x1C. */
    method Shr()
      requires Valid()
      modifies this`log, this`rs
      ensures Valid() && rs == 0
      ensures log == old(log) + OpEvents(addr, bk, Cmd(ShiftDisplayRight))
    {
      SetCmd(ShiftDisplayRight);
    }

    /** `printChar` (main.ts:169-182): the cursor command for (x, y) unless
        x is negative, then `ch` as data. */
    method PrintChar(ch: int, x: int, y: int)
      requires Valid()
      modifies this`log, this`rs
      ensures Valid() && rs == 1
      ensures log == old(log) + OpsEvents(addr, bk, PrintCharOps(ch, x, y))
    {
      if x >= 0 {
        var a := 0x80;
        if y == 1 {
          a := 0xC0;
        }
        if y == 2 {
          a := 0x80 + 0x14;
        }
        if y == 3 {
          a := 0xC0 + 0x14;
        }
        a := a + x;
        SetCmd(a);
        SetDat(ch);
        OpsEventsSingleLog(old(log), addr, bk, Cmd(a));
        LogStep(old(log), addr, bk, [Cmd(a)], Data(ch));
        assert PrintCharOps(ch, x, y) == [Cmd(a)] + [Data(ch)];
      } else {
        SetDat(ch);
        OpsEventsSingleLog(old(log), addr, bk, Data(ch));
        assert PrintCharOps(ch, x, y) == [Data(ch)];
      }
    }

    /** `putString` (main.ts:189-202): the first character at (x, y), the
        one at index 16 - x moved to (0, 1) when the string starts on row 0,
        every other character right after the previous one. */
    method PutString(s: string, x: int, y: int)
      requires Valid()
      modifies this`log, this`rs
      ensures Valid() && rs == if |s| > 0 then 1 else old(rs)
      ensures log == old(log) + OpsEvents(addr, bk, PutStringOps(s, x, y))
    {
      assert PutStringPrefix(s, x, y, 0) == [];
      assert log == old(log) + OpsEvents(addr, bk, []);
      if |s| > 0 {
        var breakPoint := -1;
        PrintChar(s[0] as int, x, y);
        PutStringLogStep(old(log), addr, bk, s, x, y, 0);
        if y == 0 {
          breakPoint := 16 - x;
        }
        for i := 1 to |s|
          invariant Valid() && rs == 1
          invariant log == old(log) + OpsEvents(addr, bk, PutStringPrefix(s, x, y, i))
        {
          if i == breakPoint {
            PrintChar(s[i] as int, 0, 1);
          } else {
            PrintChar(s[i] as int, -1, 0);
          }
          PutStringLogStep(old(log), addr, bk, s, x, y, i);
        }
      }
    }

    /** `putNumber` (main.ts:209-211) for an integer: its exact decimal
        numeral, placed as `putString` places text. The numeral is
        JavaScript's text for integers of magnitude at most 2^53. */
    method PutNumber(n: int, x: int, y: int)
      requires Valid()
      modifies this`log, this`rs
      ensures Valid() && rs == 1
      ensures log == old(log) + OpsEvents(addr, bk, PutStringOps(DecimalString(n), x, y))
    {
      PutString(DecimalString(n), x, y);
    }
  }
}
