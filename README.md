# LCD1602 I2C driver — a verified model

This project models `main.ts` of the MakeCode extension for LCD1602 displays.
The display has an HD44780 controller. The controller sits behind an I2C port
expander (a "backpack"), so every byte the driver writes sets eight port pins:

- bits 7..4 carry a nibble;
- bit 3 is the backlight (`BK`);
- bit 2 is the enable strobe (E);
- bit 0 is register select (`RS`).

The model has four parts:

- **Encoder** (`jsnum.dfy`, `encoder.dfy`). It covers `setReg`, `send`, `setcmd` and `setdat`.
  - A command or data byte becomes six port writes: its high nibble, then its low nibble moved up, each sent as `v`, `v | E`, `v`.
  - Every write is followed by a 1 ms pause.
  - The model has three levels: port bytes (`ByteWrites`), logical operations (`Op`: command, data, bare nibble, pause) and bus events (`Event`).
  - A decoder (`Latched`) reads back what the controller latches on each enable pulse. It is the independent partner of the encoder.
- **Commands** (`commands.dfy`). The fixed instructions, and the reset and configuration sequence of `setI2CAddress`.
- **Layout** (`layout.dfy`). Where `printChar` and `putString` place characters, including the single wrap from row 0 to row 1 at index `16 - x`.
- **Prober** (`prober.dfy`). `AutoAddr`'s two ascending scans, 0x20..0x27 then 0x38..0x3F. The bus readback is an oracle parameter.

`decimal.dfy` gives the integer numeral that `putNumber` shows.

The driver itself is the class `Driver.Lcd` (`driver.dfy`).

- Its fields are the module state `LCD_I2C_ADDR`, `BK` and `RS`, plus a ghost log of bus events.
- Every method states its new state and the exact events it appends, as a function of the old state.
- The properties of those functions are proved as lemmas: exact bytes, the decoded nibbles, the wire invariant, the closed form of `putString`, and the scan order.

JavaScript number semantics are written out explicitly:

- `<<` works on signed 32-bit values (`ToInt32`);
- `&` sees the low byte of the two's complement (`Lo8`);
- `%` truncates toward zero (`JsRem`).

`setI2CAddress` is written as two helper methods, `ResetSequence` and `ConfigSequence`, called one after the other. The calls and their order are the source's own.

The code sends the nibble 3 three times and then 2, as in the "Initializing by Instruction" procedure for the 4-bit interface in the HD44780U datasheet. Two of the 3s come from `setcmd(0x33)`, with only the 1 ms register pauses between them. The third comes from `send(0x30)`. `Commands.ResetNibbles` states this sequence.

## Model

| member | source | states |
|---|---|---|
| JsNum.ToInt32 | main.ts:30 | the value a 32-bit bitwise operator sees: in -2^31..2^31-1 and congruent to the input modulo 2^32 |
| JsNum.Lo8 | main.ts:19 | the low byte that `& 0xF0` inspects: its high nibble is digit 1 of v mod 256 in base 16, its low nibble v mod 16, for negative v too |
| JsNum.JsRem | main.ts:105 | JavaScript `%`: strictly between -b and b, Euclidean for a >= 0, and sign-symmetric for a < 0 |
| JsNum.ShiftLeft4LowByte | main.ts:30-36 | the low byte of `v << 4` is the low byte of v shifted left by four, despite the 32-bit wrap |
| JsNum.Lo8Mod | main.ts:19 | only v modulo 256 reaches the low byte |
| Encoder.NibbleByte | main.ts:19-21 | the port byte carries the high nibble of the data, BK and RS, with E clear |
| Encoder.Emit | main.ts:13-16 | `setReg` for each byte, two events per byte; its meaning is stated by `Encoder.EmitAt` and `Encoder.EmitAppend` |
| Encoder.SendBytes | main.ts:18-25 | the three bytes of `send`; their meaning is stated by `Encoder.EmitStrobe` and `Encoder.SendLatched` |
| Encoder.ByteWrites | main.ts:27-37 | the six bytes of `setcmd`/`setdat`; stated by `Encoder.ByteWritesLayout`, `Encoder.ByteWritesWire` and `Encoder.ByteLatched` |
| Encoder.OpEvents | main.ts:18-37 | the events of one operation; stated by `Encoder.OpLatched` and `Encoder.OpsEventsCarry` |
| Encoder.OpsEvents | main.ts:18-37 | the events of a list of operations, in order; stated by `Encoder.OpsEventsLatched` and `Encoder.OpsEventsCarry` |
| Commands.ResetOps | main.ts:66-71 | the operations of the reset part; stated by `Commands.ResetLog` and `Commands.ResetNibbles` |
| Commands.ConfigOps | main.ts:72-75 | the four configuration commands; stated by `Commands.ConfigLog` and `Commands.ConfigNibbles` |
| Commands.InitOps | main.ts:65-76 | the whole initialisation; stated by `Commands.InitLog`, `Commands.InitNibbles` and `Commands.InitLatched` |
| Layout.RowBase | main.ts:171-177 | the cursor base of a row; `Layout.PrintCharAddress` proves it is 0x80 plus the datasheet's DDRAM row start |
| Layout.BreakPoint | main.ts:191-194 | index 16 - x on row 0 and none otherwise; its effect is stated by `Layout.PrefixWrapped` and `Layout.PutStringWrapped` |
| Layout.CharOps | main.ts:192-200 | the operations for character i; stated by `Layout.PrefixPlain` and `Layout.PrefixWrapped` |
| Layout.PutStringPrefix | main.ts:195-200 | the operations after the first n characters; stated by `Layout.PrefixPlain`, `Layout.PrefixWrapped` and `Layout.PutStringLogStep` |
| Layout.PutStringOps | main.ts:189-202 | the operations of `putString`; their closed form is stated by `Layout.PutStringWrapped` and `Layout.PutStringUnwrapped` |
| Prober.Accepts | main.ts:105-108 | the signature test; stated by `Prober.AcceptsIff` and `Prober.AcceptedFirstReads` |
| Prober.Candidate | main.ts:101-113 | the scan order 0x20..0x27, then 0x38..0x3F; stated by the ensures of `Prober.Scan` |
| Encoder.EmitAt | main.ts:13-16 | `setReg` for each byte: byte i is the write at position 2i to the current address, and a 1 ms pause follows it |
| Encoder.EmitAppend | main.ts:13-16 | writing two byte runs one after the other logs their events one after the other |
| Encoder.EmitStrobe | main.ts:22-24 | `send` logs: write v, pause, write v with E set, pause, write v, pause |
| Encoder.ByteWritesLayout | main.ts:27-37 | `setcmd`/`setdat` write exactly the high nibble of c with BK and RS, strobed, then the nibble of `c << 4` (the low nibble of c moved up) with BK and RS, strobed |
| Encoder.ByteWritesWire | main.ts:19-24 | each of the six bytes is in 0..0xFD, has bit 1 clear, bit 3 equal to BK and bit 0 equal to RS |
| Encoder.ByteLog | main.ts:27-37 | the two `send`s of `setcmd`/`setdat` together log the byte's six writes |
| Encoder.OpsEventsCarry | main.ts:19-24 | whatever the operations, every write goes to the current address, is at most 0xFD, has bit 1 clear and carries the current BK |
| Encoder.StrobeLatched | main.ts:22-24 | one strobe makes the controller latch exactly one nibble with its RS |
| Encoder.SendLatched | main.ts:18-25 | `send(dat)` delivers the high nibble of dat with the current RS |
| Encoder.ByteLatched | main.ts:27-37 | a command or data byte delivers its high nibble, then its low nibble |
| Encoder.CmdNibbles | main.ts:27-31 | for 0 <= c < 256 the two nibbles of a command are its two hex digits |
| Encoder.OpLatched | main.ts:18-37 | decoding one operation's events gives back its nibbles |
| Encoder.OpsEventsLatched | main.ts:18-37 | decoding the encoder's events gives back exactly the nibbles of the operations, in order, each with its RS |
| Commands.ResetLog | main.ts:66-71 | the reset part logs `setcmd(0x33)`, 5 ms, `send(0x30)`, 5 ms, `send(0x20)`, 5 ms, in that order |
| Commands.ConfigLog | main.ts:72-75 | the configuration part logs commands 0x28, 0x0C, 0x06 and 0x01, in that order |
| Commands.InitLog | main.ts:65-76 | the initialisation logs the reset part, then the configuration part |
| Commands.ResetNibbles | main.ts:66-71 | the reset delivers the nibble 3 three times, then 2, all with RS = 0 |
| Commands.ConfigNibbles | main.ts:72-75 | the configuration delivers 2, 8, 0, C, 0, 6, 0, 1, all with RS = 0 |
| Commands.InitNibbles | main.ts:65-76 | the whole initialisation delivers all twelve nibbles in order |
| Commands.InitLatched | main.ts:65-76 | at any address and with either backlight, the controller latches exactly those twelve nibbles |
| Commands.ZeroCommandBytes | main.ts:149-155 | command 0x00 with RS = 0 writes exactly BK, BK + 4, BK, BK, BK + 4, BK |
| Layout.PrintCharOps | main.ts:169-182 | `printChar` issues two operations when x >= 0 and one otherwise, and the last one is always `ch` as data |
| Layout.PrintCharAddress | main.ts:170-179 | the cursor command is 0x80 plus the datasheet's DDRAM address of (x, y) for rows 0..3; any other row counts as row 0; a negative x sends none |
| Layout.CursorByteMasked | main.ts:178-179 | a cursor command above 0xFF writes the same bytes as its low byte |
| Layout.PutStringLogStep | main.ts:195-200 | one turn of the loop appends the events of character i to those of the characters before it |
| Layout.PrefixPlain | main.ts:189-202 | before the break point, or without one, the first n characters give the leading cursor command and then bare data writes |
| Layout.PrefixWrapped | main.ts:193-197 | past the break point, exactly one cursor command to (0, 1) is inserted, before character 16 - x |
| Layout.PutStringWrapped | main.ts:189-202 | a wrapping string: lead command, characters before 16 - x, command 0xC0, the rest |
| Layout.PutStringUnwrapped | main.ts:189-202 | any other string: nothing when empty, otherwise the lead command and every character as data |
| Layout.PutStringWrapExample | main.ts:189-202 | "ABCDEFGHIJKLMNOPQ" at (0, 0) puts the first sixteen on row 0 and 'Q' at (0, 1) |
| Prober.AcceptsIff | main.ts:105-108 | the signature test holds exactly when the first read is non-negative with remainder 7 and the second is 0 |
| Prober.AcceptedFirstReads | main.ts:105-108 | the first reads that pass are exactly 7, 23, 39, 55, 71, 87, 103 and 119 |
| Prober.ScanRange | main.ts:103-110 | one scan probes consecutive addresses from lo; it stops at the first accepted address or finds none below hi |
| Prober.Scan | main.ts:99-123 | at most 16 probes, in candidate order; a found address is a candidate, is accepted, is the last probed and follows only rejected candidates; not found means all 16 were probed and rejected |
| Prober.ProbeStep | main.ts:103-110 | probing one address either ends the scan there or continues from the next address |
| Prober.AutoAddr | main.ts:99-123 | the loops return the scan's address, or 0 when none answers, and probe exactly the scan's addresses |
| Prober.OnlyAt27 | main.ts:99-111 | when only 0x27 answers, the scan stops there after eight probes |
| Prober.NothingAnswers | main.ts:99-123 | when nothing answers, all sixteen candidates are probed and nothing is found |
| Prober.ProbeEvents | main.ts:104-107 | four probe events per address probed |
| Decimal.Digits | main.ts:210 | the digits of a natural number: at least one, all digits, no leading zero |
| Decimal.DecimalString | main.ts:210 | an integer's numeral: digits for n >= 0, a minus sign and digits without a leading zero for n < 0 |
| Decimal.DigitsRoundTrip | main.ts:210 | reading the digits back gives the number |
| Decimal.DecimalRoundTrip | main.ts:210 | reading the numeral back gives the integer |
| Driver.Lcd.constructor | main.ts:7-10 | initial state: address 0x3f, backlight on, RS = 0, nothing sent |
| Driver.Lcd.SetReg | main.ts:13-16 | one write of the byte to the current address, then a 1 ms pause |
| Driver.Lcd.Delay | main.ts:67 | `basic.pause(ms)` logged as a pause |
| Driver.Lcd.Send | main.ts:18-25 | the strobe of the high nibble with the current BK and RS |
| Driver.Lcd.SetCmd | main.ts:27-31 | RS becomes 0 and stays 0; the log gains the command's six writes |
| Driver.Lcd.SetDat | main.ts:33-37 | RS becomes 1 and stays 1; the log gains the data byte's six writes |
| Driver.Lcd.ResetSequence | main.ts:66-71 | the reset part at the current address, RS = 0 throughout |
| Driver.Lcd.ConfigSequence | main.ts:72-75 | the configuration commands at the current address |
| Driver.Lcd.SetI2CAddress | main.ts:65-76 | the whole initialisation at the current address, with address and BK unchanged |
| Driver.Lcd.SetAddress | main.ts:83-86 | the address becomes myAddr before any write; the initialisation goes to myAddr |
| Driver.Lcd.SetAddress2 | main.ts:93-96 | the same for a numeric address |
| Driver.Lcd.SetAddress3 | main.ts:130-133 | the probe traffic, then the address becomes the scan's result, 0 when nothing answered, and the initialisation goes there regardless |
| Driver.Lcd.Clear | main.ts:140-142 | command 0x01; address and BK unchanged |
| Driver.Lcd.SetBacklight | main.ts:149-155 | BK is 0x08 exactly when on == 1, else 0x00; the log gains BK, BK + 4, BK, BK, BK + 4, BK |
| Driver.Lcd.SetLcdShow | main.ts:162-167 | command 0x0C when show == 1, 0x08 otherwise |
| Driver.Lcd.Shl | main.ts:218-220 | command 0x18 |
| Driver.Lcd.Shr | main.ts:227-229 | command 0x1C |
| Driver.Lcd.PrintChar | main.ts:169-182 | the log gains the events of `PrintCharOps`; RS ends at 1 |
| Driver.Lcd.PutString | main.ts:189-202 | the log gains the events of the string's operations; nothing for the empty string |
| Driver.Lcd.PutNumber | main.ts:209-211 | an integer is shown as its exact decimal numeral, placed as `putString` places text; this is JavaScript's text up to magnitude 2^53 |

## Left out

- `pins.i2cWriteNumber`, `pins.i2cReadNumber` and `basic.pause` are MakeCode runtime calls. They appear only as log events, and the reads as the `readback` oracle.
- The probe writes of `AutoAddr` are logged as `ProbeWrite(addr)` without their payloads. The payloads are -1 as Int32LE and 0 as Int16LE.
- Prober.AutoAddr: the bus is a function, so an address answers the same way every time it is read. The two reads of one probe are a pair of signed bytes.
- What the display shows is not modelled: DDRAM contents, cursor auto-increment and timing. The driver never reads the display back.
- Driver.Lcd.PutNumber: only integers of magnitude at most 2^53 are shown as JavaScript shows them. Above 2^53 JavaScript prints the shortest digits that round-trip the double, padded with zeros: 2^64 shows as "18446744073709552000", but the model gives all the digits, "18446744073709551616". JavaScript's `toString` for fractions, NaN, infinities and the exponent form of |n| >= 1e21 is not modelled either.
- Number arguments are modelled as integers. The source receives doubles, and a fractional `x` or `ch` would be truncated by the bitwise operators.
- Driver.Lcd.SetReg takes a byte. The UInt8BE conversion of out-of-range values is not modelled, since every caller passes a port byte.
- Driver.Lcd.PutString reads each `char` as its Unicode code point. `charCodeAt` returns UTF-16 code units, so a character outside the Basic Multilingual Plane counts as one character here but two in the source.
- The block annotations (`//%`) and the enums `I2C_ADDR`, `on_off` and `visibled` are presentation only. Their values are passed as plain integers.
- The variables `buf` and `E` are never used by the source. `E` reappears as the constant `EnableBit`.
