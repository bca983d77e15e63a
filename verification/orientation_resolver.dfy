/**
 The `set_var` hook: from the rotation and the requested resolution it
 computes the memory-access-control byte (MADCTL) and the column and page
 address window, and writes them to the controller.
 */
module OrientationResolver {
  import opened Wrappers
  import opened Events
  import Dcs
  import opened Registers
  import opened Panel

  /** The fields of the framebuffer's variable screen information that the
      hook reads: the visible resolution and the rotation in degrees. */
  datatype ScreenInfo = ScreenInfo(xres: U32, yres: U32, rotate: U32)

  /** One row of the rotation table: the MADCTL bits the rotation adds, and
      where the window starts in controller memory. */
  datatype RotationEntry = RotationEntry(bits: bv8, xoffset: int, yoffset: int)

  /** The rotations the hook accepts. */
  predicate IsSupportedRotation(rotate: int) {
    rotate == 0 || rotate == 90 || rotate == 180 || rotate == 270
  }

  /** The switch on the rotation: `None` for the default branch. */
  function RotationTable(rotate: U32): (r: Option<RotationEntry>)
    ensures r.Some? <==> IsSupportedRotation(rotate)
  {
    if rotate == 0 then Some(RotationEntry(0, 0, 20))
    else if rotate == 90 then Some(RotationEntry(MadctlMv | MadctlMy, 20, 0))
    else if rotate == 180 then Some(RotationEntry(MadctlMx | MadctlMy, 0, 0))
    else if rotate == 270 then Some(RotationEntry(MadctlMv | MadctlMx, 0, 20))
    else None
  }

  /** The last coordinate of a window that starts at `offset` and spans `res`
      pixels. The sum is computed in unsigned 32-bit arithmetic, as the C
      expression `xoffset + info->var.xres - 1` is. */
  function WindowEnd(offset: int, res: U32): int
  {
    (offset + res - 1) % 0x1_0000_0000
  }

  /** The MADCTL value for a rotation: the BGR bit when `bgr`, plus the
      rotation's bits. */
  function Madctl(bgr: bool, e: RotationEntry): bv8
  {
    (if bgr then MadctlBgr else 0) | e.bits
  }

  /** `set_var(par)`: for a supported rotation, three writes (address mode,
      column window, page window) and success; otherwise -EINVAL before
      anything is written. */
  function SetVar(bgr: bool, info: ScreenInfo): (r: Outcome)
    ensures !IsSupportedRotation(info.rotate) <==> r.status == -EInval
    ensures r.status == -EInval || r.status == Success
    ensures r.status == -EInval <==> r.trace == []
    ensures r.status == Success ==>
      && |r.trace| == 3
      && r.trace[0].Write? && r.trace[0].opcode == Dcs.SetAddressMode && |r.trace[0].params| == 1
      && r.trace[1].Write? && r.trace[1].opcode == Dcs.SetColumnAddress && |r.trace[1].params| == 4
      && r.trace[2].Write? && r.trace[2].opcode == Dcs.SetPageAddress && |r.trace[2].params| == 4
      && r.trace[1].params[0] == 0 && r.trace[1].params[2] == 0
      && r.trace[2].params[0] == 0 && r.trace[2].params[2] == 0
  {
    match RotationTable(info.rotate)
    case None => Outcome(-EInval, [])
    case Some(e) =>
      Outcome(Success, [
        Write(Dcs.SetAddressMode, [Madctl(bgr, e) as int]),
        Write(Dcs.SetColumnAddress, [0x00, e.xoffset, 0x00, WindowEnd(e.xoffset, info.xres)]),
        Write(Dcs.SetPageAddress, [0x00, e.yoffset, 0x00, WindowEnd(e.yoffset, info.yres)])
      ])
  }

  /** Geometry of the panel this driver is built for, in its unrotated
      orientation. */
  const PanelWidth: U32 := 240
  const PanelHeight: U32 := 280

  /** The rotation table: which MADCTL orientation bits each supported
      rotation sets, and the window offsets it uses. */
  lemma RotationTableRows(bgr: bool, info: ScreenInfo)
    requires IsSupportedRotation(info.rotate)
    ensures var t := SetVar(bgr, info).trace;
      var m := t[0].params[0];
      && (info.rotate == 0 ==> m == (if bgr then 0x08 else 0x00) && t[1].params[1] == 0 && t[2].params[1] == 20)
      && (info.rotate == 90 ==> m == (if bgr then 0xA8 else 0xA0) && t[1].params[1] == 20 && t[2].params[1] == 0)
      && (info.rotate == 180 ==> m == (if bgr then 0xC8 else 0xC0) && t[1].params[1] == 0 && t[2].params[1] == 0)
      && (info.rotate == 270 ==> m == (if bgr then 0x68 else 0x60) && t[1].params[1] == 0 && t[2].params[1] == 20)
  {
  }

  /** Weight of each bit position of a byte. */
  const BitWeight: seq<int> := [1, 2, 4, 8, 16, 32, 64, 128]

  /** Bit `n` of the non-negative integer `v`. */
  predicate Bit(v: int, n: nat)
    requires 0 <= v && n < 8
  {
    (v / BitWeight[n]) % 2 == 1
  }

  /** Bit by bit, the address-mode byte that `SetVar` writes: BGR (bit 3)
      follows `bgr`, exchange (bit 5) is set for the quarter turns, column
      mirroring (bit 6) for 180 and 270, page mirroring (bit 7) for 90 and 180,
      and no bit outside {3, 5, 6, 7} is ever set. */
  lemma AddressModeBits(bgr: bool, info: ScreenInfo)
    requires IsSupportedRotation(info.rotate)
    ensures var m := SetVar(bgr, info).trace[0].params[0];
      && IsByte(m)
      && (Bit(m, 3) <==> bgr)
      && (Bit(m, 5) <==> info.rotate == 90 || info.rotate == 270)
      && (Bit(m, 6) <==> info.rotate == 180 || info.rotate == 270)
      && (Bit(m, 7) <==> info.rotate == 90 || info.rotate == 180)
      && !Bit(m, 0) && !Bit(m, 1) && !Bit(m, 2) && !Bit(m, 4)
  {
    RotationTableRows(bgr, info);
  }

  /** Reads a MADCTL value back into the colour order and the rotation it
      selects; `None` for a value `SetVar` never writes. */
  function DecodeAddressMode(m: int): Option<(bool, U32)>
  {
    if !IsByte(m) || Bit(m, 0) || Bit(m, 1) || Bit(m, 2) || Bit(m, 4) then None
    else
      var mv, mx, my := Bit(m, 5), Bit(m, 6), Bit(m, 7);
      if !mv && !mx && !my then Some((Bit(m, 3), 0))
      else if mv && !mx && my then Some((Bit(m, 3), 90))
      else if !mv && mx && my then Some((Bit(m, 3), 180))
      else if mv && mx && !my then Some((Bit(m, 3), 270))
      else None
  }

  /** The address mode written for a supported rotation decodes to the colour
      order and rotation it was computed from: no two rows of the table share
      a MADCTL value. */
  lemma AddressModeRoundTrip(bgr: bool, info: ScreenInfo)
    requires IsSupportedRotation(info.rotate)
    ensures DecodeAddressMode(SetVar(bgr, info).trace[0].params[0]) == Some((bgr, info.rotate))
  {
    AddressModeBits(bgr, info);
  }

  /** A byte is determined by its eight bits. */
  lemma ByteFromBits(m: int)
    requires IsByte(m)
    ensures m == m % 2 + 2 * ((m / 2) % 2) + 4 * ((m / 4) % 2) + 8 * ((m / 8) % 2)
               + 16 * ((m / 16) % 2) + 32 * ((m / 32) % 2) + 64 * ((m / 64) % 2)
               + 128 * ((m / 128) % 2)
  {
    var q1 := m / 2;
    var q2 := q1 / 2;
    var q3 := q2 / 2;
    var q4 := q3 / 2;
    var q5 := q4 / 2;
    var q6 := q5 / 2;
    var q7 := q6 / 2;
    assert m / 4 == q2;
    assert m / 8 == q3;
    assert m / 16 == q4;
    assert m / 32 == q5;
    assert m / 64 == q6;
    assert m / 128 == q7;
  }

  /** Conversely, every value that decodes is exactly what `SetVar` writes for
      the decoded colour order and rotation, whatever the resolution. */
  lemma AddressModeDecodeComplete(m: int, bgr: bool, info: ScreenInfo)
    requires DecodeAddressMode(m) == Some((bgr, info.rotate))
    ensures SetVar(bgr, info).trace[0].params[0] == m
  {
    ByteFromBits(m);
    AddressModeBits(bgr, info);
    ByteFromBits(SetVar(bgr, info).trace[0].params[0]);
  }

  /** Each window on its own: when `offset + res` neither is 0 nor exceeds
      2^32, the window starts at the rotation's offset, its high bytes are
      zero, and it spans exactly `res` columns (rows); a zero `res` at offset
      20 spans none. */
  lemma WindowSpansResolution(bgr: bool, info: ScreenInfo)
    requires IsSupportedRotation(info.rotate)
    ensures var t := SetVar(bgr, info).trace;
      var e := RotationTable(info.rotate).value;
      && (1 <= e.xoffset + info.xres <= 0x1_0000_0000 ==>
            && t[1].params[0] == 0 && t[1].params[1] == e.xoffset && t[1].params[2] == 0
            && t[1].params[3] - t[1].params[1] + 1 == info.xres)
      && (1 <= e.yoffset + info.yres <= 0x1_0000_0000 ==>
            && t[2].params[0] == 0 && t[2].params[1] == e.yoffset && t[2].params[2] == 0
            && t[2].params[3] - t[2].params[1] + 1 == info.yres)
  {
  }

  /** The window end in each of the three regimes of 32-bit unsigned
      arithmetic: the plain sum when `offset + res - 1` fits, 0xFFFFFFFF when
      both are zero, and the sum less 2^32 when it overflows. At offset 20 a
      zero resolution gives end 19, before the start; at offset 0 it wraps.
      Whatever the end, both high bytes stay the literal zero. */
  lemma WindowEndWraps(bgr: bool, info: ScreenInfo)
    requires IsSupportedRotation(info.rotate)
    ensures var t := SetVar(bgr, info).trace;
      forall w :: 1 <= w <= 2 ==>
        var o := t[w].params[1];
        var res := if w == 1 then info.xres else info.yres;
        && t[w].params[0] == 0 && t[w].params[2] == 0
        && (o + res == 0 ==> t[w].params[3] == 0xFFFF_FFFF)
        && (1 <= o + res <= 0x1_0000_0000 ==> t[w].params[3] == o + res - 1)
        && (o + res > 0x1_0000_0000 ==> t[w].params[3] == o + res - 1 - 0x1_0000_0000)
  {
  }

  /** The two-byte, most significant first, encoding of a 16-bit coordinate. */
  function BigEndian16(v: int): seq<int>
  {
    [v / 0x100, v % 0x100]
  }

  /** Sending a literal zero high byte before `v` is the coordinate's true
      16-bit encoding exactly when `v` fits in one byte. */
  lemma ZeroHighByteExact(v: int)
    requires 0 <= v < 0x1_0000
    ensures [0, v] == BigEndian16(v) <==> v < 0x100
  {
    if v >= 0x100 {
      assert BigEndian16(v)[0] != 0;
    }
  }

  /** On this panel's full 240 x 280 resolution at rotation 0 the last row is
      299, which does not fit in one byte, so the zero high byte in the page
      window is not the coordinate's encoding. */
  lemma FullPanelRowEndExceedsByte(bgr: bool)
    ensures SetVar(bgr, ScreenInfo(PanelWidth, PanelHeight, 0)).trace[2].params == [0, 20, 0, 299]
    ensures BigEndian16(299) == [1, 43] != [0, 299]
  {
  }

  /** Replayed on the controller, a successful `SetVar` changes exactly the
      address-mode, column and page registers; a rejected one changes
      nothing. */
  lemma SetVarEffect(p: Panel, bgr: bool, info: ScreenInfo)
    ensures var r := SetVar(bgr, info);
      && (r.status == Success ==>
            Run(p, r.trace) == p.(regs := p.regs[Dcs.SetAddressMode := r.trace[0].params]
                                                 [Dcs.SetColumnAddress := r.trace[1].params]
                                                 [Dcs.SetPageAddress := r.trace[2].params]))
      && (r.status != Success ==> Run(p, r.trace) == p)
  {
    var r := SetVar(bgr, info);
    if r.status == Success {
      var t := r.trace;
      assert t == [t[0]] + [t[1]] + [t[2]];
      RunAppend(p, [t[0]] + [t[1]], [t[2]]);
      RunAppend(p, [t[0]], [t[1]]);
      RunSingle(p, t[0]);
      RunSingle(Step(p, t[0]), t[1]);
      RunSingle(Step(Step(p, t[0]), t[1]), t[2]);
    }
  }
}
