# ST7789V panel driver: command logic

A Dafny model of the Linux fbtft driver for the Sitronix ST7789V LCD
controller (`fb_st7789v.c`). The driver has four hooks, and the model treats
each one as a pure function from its inputs to a status and an ordered trace
of controller events. An event is one of:

- `Reset`: the hardware reset line is pulsed.
- `Delay(ms)`: the driver waits `ms` milliseconds.
- `Write(opcode, params)`: a register write.

The hooks and their modules:

- `init_display` (module `InitSequencer`): the fixed power-on script.
- `set_var` (module `OrientationResolver`): the rotation table gives the
  MADCTL byte and the window offsets. The column and page address windows
  follow from those.
- `set_gamma` (module `GammaProgrammer`): it masks every gamma parameter with
  its position's bit mask, then sends one write per curve.
- `blank` (module `PowerController`): one display-on or display-off command.

Supporting modules:

- `Events`: the trace vocabulary, the status values, and properties of traces
  such as "every reset is followed by a wait".
- `Dcs`: the MIPI Display Command Set opcodes the driver uses, plus enter
  sleep (0x10) and exit invert mode (0x20). The driver never sends those two;
  only the controller model interprets them.
- `Registers`: the ST7789V vendor opcodes and the MADCTL bits.
- `Panel`: an abstract observer of the controller. It replays a trace and
  keeps the registers that writes leave behind, plus the display, sleep and
  inversion modes. It is not driver code. It is the independent reference the
  hooks' traces are judged against: "after this hook the controller holds
  exactly these registers".

All integers are unbounded. The kernel's 32-bit arithmetic is written out
wherever the source depends on it: the window end `offset + res - 1` is taken
modulo 2^32, and the gamma values and `xres`/`yres` are `U32`.

## Model

| member | source | states |
|---|---|---|
| InitSequencer.InitDisplay | linux_5.10/drivers/staging/fbtft/fb_st7789v.c:83-107 | `init_display` always returns 0, and the first thing it does is reset the controller |
| InitSequencer.InitFromAnyState | linux_5.10/drivers/staging/fbtft/fb_st7789v.c:83-107 | from any controller state, the script leaves exactly the 14 registers it writes, each holding its literal parameters and nothing else (VCMOFSET 0xC5 is never written), with the display on, awake and inverted |
| InitSequencer.ResetPhaseEffect | linux_5.10/drivers/staging/fbtft/fb_st7789v.c:85-86 | the reset and its wait return any controller to the power-on state |
| InitSequencer.RegisterPhaseEffect | linux_5.10/drivers/staging/fbtft/fb_st7789v.c:87-100 | the 14 register writes lay the init register file over whatever was stored and change no mode |
| InitSequencer.WakePhaseEffect | linux_5.10/drivers/staging/fbtft/fb_st7789v.c:101-105 | inversion on, sleep out and display on switch exactly those three modes and leave the registers alone |
| InitSequencer.InitResetSettles | linux_5.10/drivers/staging/fbtft/fb_st7789v.c:85-86 | every reset in the script is followed at once by a wait of at least 50 ms |
| InitSequencer.InitSleepOutSettles | linux_5.10/drivers/staging/fbtft/fb_st7789v.c:102-103 | every sleep-out (0x11) is followed at once by a wait of at least 120 ms |
| InitSequencer.InitDisplayOnLast | linux_5.10/drivers/staging/fbtft/fb_st7789v.c:104-105 | display-on (0x29) is written, no write follows it, and it is followed by a wait of at least 200 ms |
| InitSequencer.InitStoresEachRegisterOnce | linux_5.10/drivers/staging/fbtft/fb_st7789v.c:85-105 | the registers the script writes come in strictly increasing opcode order, so none is written twice; each is a register of the init register file, written with that file's value; and every register of the file is written |
| InitSequencer.InitStorePositions | linux_5.10/drivers/staging/fbtft/fb_st7789v.c:85-105 | an event of the script is a register write exactly when it lies between the reset's wait and the first mode command (positions 2 to 15), so all 14 registers are written before inversion, sleep out and display on |
| InitSequencer.InitControlEvents | linux_5.10/drivers/staging/fbtft/fb_st7789v.c:85-105 | apart from the register writes, the script is exactly: reset, wait 50 ms, inversion on, sleep out, wait 120 ms, display on, wait 200 ms |
| InitSequencer.InitWritesAreBytes | linux_5.10/drivers/staging/fbtft/fb_st7789v.c:87-104 | every opcode and every parameter of the script fits in a byte |
| InitSequencer.InitAddressModeIsUnrotatedRgb | linux_5.10/drivers/staging/fbtft/fb_st7789v.c:87 | the script's MADCTL write is the one `set_var` sends for rotation 0 in RGB order |
| InitSequencer.InitGammaIsMasked | linux_5.10/drivers/staging/fbtft/fb_st7789v.c:98-99 | the script's two gamma curves already lie within the per-position gamma masks |
| InitSequencer.InitGammaIsSetGammaFixedPoint | linux_5.10/drivers/staging/fbtft/fb_st7789v.c:98-99 | `set_gamma` on the script's curves leaves them unchanged and sends exactly the script's two gamma writes |
| OrientationResolver.RotationTable | linux_5.10/drivers/staging/fbtft/fb_st7789v.c:127-157 | the switch has a row exactly for the rotations 0, 90, 180 and 270 |
| OrientationResolver.SetVar | linux_5.10/drivers/staging/fbtft/fb_st7789v.c:116-170 | an unsupported rotation, and only that, gives -EINVAL with nothing written; otherwise the status is 0 after three writes: MADCTL with one parameter, then the column window and then the page window with four parameters each, whose first and third (the high bytes) are always 0x00, whatever the resolution |
| OrientationResolver.RotationTableRows | linux_5.10/drivers/staging/fbtft/fb_st7789v.c:124-153 | the MADCTL value and the window start offsets for each rotation, with and without BGR |
| OrientationResolver.AddressModeBits | linux_5.10/drivers/staging/fbtft/fb_st7789v.c:118-153 | bit 3 of MADCTL is set iff BGR; MV, MX and MY follow the rotation; bits 0, 1, 2 and 4 are never set |
| OrientationResolver.AddressModeRoundTrip | linux_5.10/drivers/staging/fbtft/fb_st7789v.c:118-159 | the MADCTL byte written decodes back to the colour order and rotation it came from |
| OrientationResolver.AddressModeDecodeComplete | linux_5.10/drivers/staging/fbtft/fb_st7789v.c:118-159 | every byte that decodes is exactly the MADCTL byte sent for the decoded colour order and rotation |
| OrientationResolver.WindowSpansResolution | linux_5.10/drivers/staging/fbtft/fb_st7789v.c:162-168 | for each window on its own, when `offset + res` neither is 0 nor exceeds 2^32: the column window starts at the rotation's x offset and spans exactly `xres` columns, and the page window starts at the y offset and spans exactly `yres` rows, both with zero high bytes |
| OrientationResolver.WindowEndWraps | linux_5.10/drivers/staging/fbtft/fb_st7789v.c:162-168 | for every supported rotation and every 32-bit resolution, both high bytes of each window are the literal 0x00, and each window end is `offset + res - 1` when `1 <= offset + res <= 2^32`, 0xFFFFFFFF when `offset + res == 0`, and `offset + res - 1 - 2^32` above 2^32; so a zero resolution at offset 20 ends at 19, before the start |
| OrientationResolver.ZeroHighByteExact | linux_5.10/drivers/staging/fbtft/fb_st7789v.c:162-168 | a literal zero high byte followed by `v` is the big-endian 16-bit encoding of `v` iff `v < 256` |
| OrientationResolver.FullPanelRowEndExceedsByte | linux_5.10/drivers/staging/fbtft/fb_st7789v.c:166-168 | at this panel's full 240 x 280 resolution and rotation 0 the page window ends at row 299, whose 16-bit encoding is [1, 43], not [0, 299] |
| OrientationResolver.SetVarEffect | linux_5.10/drivers/staging/fbtft/fb_st7789v.c:159-169 | a successful `set_var` changes exactly the address-mode, column and page registers; a rejected one changes nothing |
| GammaProgrammer.MasksAreBytes | linux_5.10/drivers/staging/fbtft/fb_st7789v.c:197-212 | every entry of the gamma mask table is a byte |
| GammaProgrammer.MaskEntryProperties | linux_5.10/drivers/staging/fbtft/fb_st7789v.c:217 | a masked value is at most its position's mask, and masking it again changes nothing |
| GammaProgrammer.MaskCurve | linux_5.10/drivers/staging/fbtft/fb_st7789v.c:215-217 | the inner loop masks the 14 values of one curve and leaves every other entry alone |
| GammaProgrammer.SetGamma | linux_5.10/drivers/staging/fbtft/fb_st7789v.c:186-226 | returns 0; each of the first `num_curves * 14` values becomes `old & mask` and the rest are untouched; the result is masked, an already-masked array is unchanged, and the writes are those of the masked curves |
| GammaProgrammer.GammaWritesAt | linux_5.10/drivers/staging/fbtft/fb_st7789v.c:214-224 | write `i` programs curve `i` (its 14 values) into register 0xE0 + `i`, so there is one write per curve in increasing order |
| GammaProgrammer.MaskedCurvesAreMasked | linux_5.10/drivers/staging/fbtft/fb_st7789v.c:214-217 | the masking loop's result is a fixed point of masking, and masking a fixed point changes nothing |
| GammaProgrammer.GammaParamsWithinMasks | linux_5.10/drivers/staging/fbtft/fb_st7789v.c:197-223 | every parameter `set_gamma` sends for position `j` is at most mask `j`, so it is a byte |
| GammaProgrammer.TwoCurvesUseBothGammaRegisters | linux_5.10/drivers/staging/fbtft/fb_st7789v.c:218-223 | with two curves, the positive curve goes to PVGAMCTRL (0xE0) and the negative to NVGAMCTRL (0xE1) |
| GammaProgrammer.GammaProgramsRegisters | linux_5.10/drivers/staging/fbtft/fb_st7789v.c:214-224 | replayed on the controller, the gamma writes leave curve `i` in register 0xE0 + `i` and change no other register and no mode |
| PowerController.Blank | linux_5.10/drivers/staging/fbtft/fb_st7789v.c:236-243 | returns 0 after one parameterless write: display-off (0x28) iff blanking, display-on (0x29) iff not |
| PowerController.BlankEffect | linux_5.10/drivers/staging/fbtft/fb_st7789v.c:236-243 | afterwards the display is lit exactly when not blanked, from any state, and nothing else changes |
| PowerController.BlankIdempotent | linux_5.10/drivers/staging/fbtft/fb_st7789v.c:236-243 | a repeated call leaves the controller in the state one call leaves it in |

## Left out

- Bus transport: `write_reg` and the fbtft core behind it (`fbtft.h`, the bus
  functions) are not part of this model. A write is only an event in the
  trace.
- Write failures: the driver never checks what a write returns, and every hook
  returns 0 apart from `set_var`'s -EINVAL. So the model has no
  transport-failure path.
- Byte narrowing: parameters stay unbounded integers. The column and page
  windows send a literal 0x00 high byte followed by the full low coordinate.
  How the bus layer narrows such a value to one byte is unseen, so the model
  does not assume it. `ZeroHighByteExact` and `FullPanelRowEndExceedsByte`
  show when the literal zero high byte is the true encoding and when it is
  not.
- Real time: `mdelay` is a `Delay(ms)` event carrying its duration, with no
  clock behind it.
- The reset hook (`par->fbtftops.reset`) is a `Reset` event. Its GPIO
  handling lives in the fbtft core.
- The gamma strings `DEFAULT_GAMMA` and `HSD20_IPS_GAMMA` and the `HSD20_IPS`
  switch are not modelled. They are parsed by the fbtft core, and the display
  descriptor does not use them.
- The `fbtft_display` descriptor, the driver registration and the module
  aliases are packaging, not command logic. The panel's 240 x 280 geometry
  appears only as `PanelWidth`/`PanelHeight` in one lemma. `set_gamma` is
  commented out of the descriptor's hook table but is modelled as the
  function it is.
- Locking and concurrency: callers are assumed to serialise the hooks.
- GammaProgrammer.SetGamma: requires `num_values == 14`.
  - The write always sends 14 values per curve, and the mask table has 14
    entries.
  - With more values, the mask table is read out of bounds.
  - With fewer, the last curve's write reads past the `num_curves *
    num_values` entries the fbtft core allocates.
  - Both are undefined behaviour in C.
- The `st7789v_command` documentation lists VCMOFSET (0xC5), but
  `init_display` never writes it. Instead it writes 0xC0 (LCM control) and
  0xC6 (frame rate control) by number. The model follows the code.
- The `Panel` observer is a reference model of the controller, not of the
  driver. It does not claim to capture every effect of every ST7789V command,
  only which register a write stores into and the display, sleep and
  inversion modes.
