/**
 The `init_display` hook: a hardware reset, then the controller's registers
 programmed one by one, inversion on, sleep out and display on, with fixed
 waits in between. The hook cannot fail.
 */
module InitSequencer {
  import opened Events
  import Dcs
  import opened Registers
  import opened Panel
  import GammaProgrammer
  import OrientationResolver

  /** The positive and the negative voltage gamma curve the hook programs. */
  const InitPositiveGamma: seq<U32> :=
    [0xF0, 0x06, 0x0B, 0x0A, 0x09, 0x26, 0x29, 0x33, 0x41, 0x18, 0x16, 0x15, 0x29, 0x2D]
  const InitNegativeGamma: seq<U32> :=
    [0xF0, 0x04, 0x08, 0x08, 0x07, 0x03, 0x28, 0x32, 0x40, 0x3B, 0x19, 0x18, 0x2A, 0x2E]

  /** First the reset, and a wait for the controller to come out of it. */
  const ResetPhase: seq<Event> := [Reset, Delay(50)]

  /** Then one write per register, each register written once. */
  const RegisterPhase: seq<Event> := [
    Write(Dcs.SetAddressMode, [0x00]),
    Write(Dcs.SetPixelFormat, [0x05]),
    Write(Porctrl, [0x0B, 0x0B, 0x00, 0x33, 0x35]),
    Write(Gctrl, [0x11]),
    Write(Vcoms, [0x35]),
    Write(Lcmctrl, [0x2C]),
    Write(Vdvvrhen, [0x01]),
    Write(Vrhs, [0x0D]),
    Write(Vdvs, [0x20]),
    Write(Frctrl2, [0x13]),
    Write(Pwctrl1, [0xA4, 0xA1]),
    Write(Pvgamctrl, InitPositiveGamma),
    Write(Nvgamctrl, InitNegativeGamma),
    Write(Gatectrl, [0x25, 0x00, 0x00])
  ]

  /** Last, inversion on, sleep out, and the display switched on, each
      followed by the wait the controller needs. */
  const WakePhase: seq<Event> := [
    Write(Dcs.EnterInvertMode, []),
    Write(Dcs.ExitSleepMode, []),
    Delay(120),
    Write(Dcs.SetDisplayOn, []),
    Delay(200)
  ]

  /** `init_display(par)`: the three phases in order, and success. */
  function InitDisplay(): (r: Outcome)
    ensures r.status == Success
    ensures |r.trace| > 0 && r.trace[0] == Reset
  {
    Outcome(Success, ResetPhase + RegisterPhase + WakePhase)
  }

  /** Every command and every parameter of the hook fits in a byte, so none
      is changed on its way to the wire. */
  lemma InitWritesAreBytes()
    ensures WritesAreBytes(InitDisplay().trace)
  {
    WritesAreBytesAppend(ResetPhase, RegisterPhase);
    WritesAreBytesAppend(ResetPhase + RegisterPhase, WakePhase);
  }

  /** Nothing is written until 50 ms after the reset. */
  lemma InitResetSettles()
    ensures ResetSettles(InitDisplay().trace, 50)
  {
    ResetSettlesAppend(ResetPhase, RegisterPhase, 50);
    ResetSettlesAppend(ResetPhase + RegisterPhase, WakePhase, 50);
  }

  /** The display is switched on no sooner than 120 ms after sleep out. */
  lemma InitSleepOutSettles()
    ensures CommandSettles(InitDisplay().trace, Dcs.ExitSleepMode, 120)
  {
    CommandSettlesAppend(ResetPhase, RegisterPhase, Dcs.ExitSleepMode, 120);
    CommandSettlesAppend(ResetPhase + RegisterPhase, WakePhase, Dcs.ExitSleepMode, 120);
  }

  /** The display is switched on only after everything else is written, and
      the hook returns no sooner than 200 ms later. */
  lemma InitDisplayOnLast()
    ensures WrittenLast(InitDisplay().trace, Dcs.SetDisplayOn)
    ensures CommandSettles(InitDisplay().trace, Dcs.SetDisplayOn, 200)
  {
    assert WakePhase[3] == Write(Dcs.SetDisplayOn, []);
    WrittenLastAppend(ResetPhase + RegisterPhase, WakePhase, Dcs.SetDisplayOn);
    CommandSettlesAppend(ResetPhase, RegisterPhase, Dcs.SetDisplayOn, 200);
    CommandSettlesAppend(ResetPhase + RegisterPhase, WakePhase, Dcs.SetDisplayOn, 200);
  }

  /** What the controller holds once the hook has run: every register the
      hook programs, with its value, and nothing else; display on, awake,
      colours inverted. The VCOM offset register is not among them. */
  const InitRegisterFile: map<int, seq<int>> := map[
    Dcs.SetAddressMode := [0x00],
    Dcs.SetPixelFormat := [0x05],
    Porctrl := [0x0B, 0x0B, 0x00, 0x33, 0x35],
    Gctrl := [0x11],
    Vcoms := [0x35],
    Lcmctrl := [0x2C],
    Vdvvrhen := [0x01],
    Vrhs := [0x0D],
    Vdvs := [0x20],
    Frctrl2 := [0x13],
    Pwctrl1 := [0xA4, 0xA1],
    Pvgamctrl := InitPositiveGamma,
    Nvgamctrl := InitNegativeGamma,
    Gatectrl := [0x25, 0x00, 0x00]
  ]

  /** The reset phase leaves the controller in its power-on state, whatever
      state it was in. */
  lemma ResetPhaseEffect(p: Panel)
    ensures Run(p, ResetPhase) == PowerOn
  {
    AfterIsRun(p, ResetPhase, 2);
    assert ResetPhase[..2] == ResetPhase;
  }

  /** Writing the registers one after another, in the hook's order, lays
      the register file over what was there. */
  lemma StoreRegisterFileIsUnion(m: map<int, seq<int>>)
    ensures m[Dcs.SetAddressMode := [0x00]][Dcs.SetPixelFormat := [0x05]]
      [Porctrl := [0x0B, 0x0B, 0x00, 0x33, 0x35]][Gctrl := [0x11]][Vcoms := [0x35]]
      [Lcmctrl := [0x2C]][Vdvvrhen := [0x01]][Vrhs := [0x0D]][Vdvs := [0x20]]
      [Frctrl2 := [0x13]][Pwctrl1 := [0xA4, 0xA1]][Pvgamctrl := InitPositiveGamma]
      [Nvgamctrl := InitNegativeGamma][Gatectrl := [0x25, 0x00, 0x00]]
      == m + InitRegisterFile
  {
  }

  /** The register phase's writes 0 to 3. */
  lemma RegisterWrites0To3(p: Panel)
    ensures After(p, RegisterPhase, 4) == p.(regs := p.regs
      [Dcs.SetAddressMode := [0x00]][Dcs.SetPixelFormat := [0x05]][Porctrl := [0x0B, 0x0B, 0x00, 0x33, 0x35]][Gctrl := [0x11]])
  {
    var t := RegisterPhase;
    AfterStore(p, t, 0, Dcs.SetAddressMode, [0x00]);
    AfterStore(p, t, 1, Dcs.SetPixelFormat, [0x05]);
    AfterStore(p, t, 2, Porctrl, [0x0B, 0x0B, 0x00, 0x33, 0x35]);
    AfterStore(p, t, 3, Gctrl, [0x11]);
  }

  /** Writes 4 to 6. */
  lemma RegisterWrites4To6(p: Panel)
    ensures After(p, RegisterPhase, 7) == var q := After(p, RegisterPhase, 4); q.(regs := q.regs
      [Vcoms := [0x35]][Lcmctrl := [0x2C]][Vdvvrhen := [0x01]])
  {
    var t := RegisterPhase;
    AfterStore(p, t, 4, Vcoms, [0x35]);
    AfterStore(p, t, 5, Lcmctrl, [0x2C]);
    AfterStore(p, t, 6, Vdvvrhen, [0x01]);
  }

  /** Writes 7 to 10. */
  lemma RegisterWrites7To10(p: Panel)
    ensures After(p, RegisterPhase, 11) == var q := After(p, RegisterPhase, 7); q.(regs := q.regs
      [Vrhs := [0x0D]][Vdvs := [0x20]][Frctrl2 := [0x13]][Pwctrl1 := [0xA4, 0xA1]])
  {
    var t := RegisterPhase;
    AfterStore(p, t, 7, Vrhs, [0x0D]);
    AfterStore(p, t, 8, Vdvs, [0x20]);
    AfterStore(p, t, 9, Frctrl2, [0x13]);
    AfterStore(p, t, 10, Pwctrl1, [0xA4, 0xA1]);
  }

  /** Writes 11 to 13. */
  lemma RegisterWrites11To13(p: Panel)
    ensures After(p, RegisterPhase, 14) == var q := After(p, RegisterPhase, 11); q.(regs := q.regs
      [Pvgamctrl := InitPositiveGamma][Nvgamctrl := InitNegativeGamma][Gatectrl := [0x25, 0x00, 0x00]])
  {
    var t := RegisterPhase;
    AfterStore(p, t, 11, Pvgamctrl, InitPositiveGamma);
    AfterStore(p, t, 12, Nvgamctrl, InitNegativeGamma);
    AfterStore(p, t, 13, Gatectrl, [0x25, 0x00, 0x00]);
  }

  /** The register phase stores every value of the register file and
      changes nothing else. */
  lemma RegisterPhaseEffect(p: Panel)
    ensures Run(p, RegisterPhase) == p.(regs := p.regs + InitRegisterFile)
  {
    RegisterWrites0To3(p);
    RegisterWrites4To6(p);
    RegisterWrites7To10(p);
    RegisterWrites11To13(p);
    StoreRegisterFileIsUnion(p.regs);
    AfterIsRun(p, RegisterPhase, 14);
    assert RegisterPhase[..14] == RegisterPhase;
  }

  /** The wake phase turns inversion on, takes the controller out of sleep
      and switches the display on, and leaves the registers alone. */
  lemma WakePhaseEffect(p: Panel)
    ensures Run(p, WakePhase) == p.(displayOn := true, asleep := false, inverted := true)
  {
    var t := WakePhase;
    assert After(p, t, 1) == p.(inverted := true);
    assert After(p, t, 2) == p.(inverted := true, asleep := false);
    assert After(p, t, 3) == After(p, t, 2);
    assert After(p, t, 4) == p.(inverted := true, asleep := false, displayOn := true);
    assert After(p, t, 5) == After(p, t, 4);
    AfterIsRun(p, t, 5);
    assert t[..5] == t;
  }

  /** Whatever state the controller is in, the hook leaves it holding
      exactly the register file, with the display on, awake and inverted. */
  lemma InitFromAnyState(p: Panel)
    ensures Run(p, InitDisplay().trace) == Panel(InitRegisterFile, true, false, true)
  {
    RunAppend(p, ResetPhase + RegisterPhase, WakePhase);
    RunAppend(p, ResetPhase, RegisterPhase);
    ResetPhaseEffect(p);
    RegisterPhaseEffect(PowerOn);
    assert map[] + InitRegisterFile == InitRegisterFile;
    WakePhaseEffect(Run(PowerOn, RegisterPhase));
  }

  /** The register phase's writes go to registers with strictly increasing
      opcodes, so none is written twice. */
  lemma RegisterPhaseAscending()
    ensures StoresAscending(RegisterPhase)
  {
    AdjacentStoresAscending(RegisterPhase);
  }

  /** Each write of the register phase stores the register file's value. */
  lemma RegisterPhaseWithin()
    ensures StoresWithin(RegisterPhase, InitRegisterFile)
  {
  }

  /** The register phase consists of stores only. */
  lemma RegisterPhaseOnlyStores()
    ensures Unstored(RegisterPhase) == []
  {
    UnstoredOfStores(RegisterPhase);
  }

  /** The register writes are exactly the events between the reset's wait
      and the first mode command. */
  lemma InitStorePositions()
    ensures forall i :: 0 <= i < |InitDisplay().trace| ==>
      (IsStore(InitDisplay().trace[i]) <==> |ResetPhase| <= i < |ResetPhase| + |RegisterPhase|)
  {
    var t := InitDisplay().trace;
    assert NoStores(ResetPhase) && NoStores(WakePhase);
    assert forall k :: 0 <= k < |RegisterPhase| ==> IsStore(RegisterPhase[k]);
    forall i | 0 <= i < |t|
      ensures IsStore(t[i]) <==> |ResetPhase| <= i < |ResetPhase| + |RegisterPhase|
    {
      if i < |ResetPhase| {
        assert t[i] == ResetPhase[i];
      } else if i < |ResetPhase| + |RegisterPhase| {
        assert t[i] == RegisterPhase[i - |ResetPhase|];
      } else {
        assert t[i] == WakePhase[i - |ResetPhase| - |RegisterPhase|];
      }
    }
  }

  /** Every register of the register file is written exactly once by the
      hook, with its value, and no other register is written at all. */
  lemma InitStoresEachRegisterOnce()
    ensures StoresAscending(InitDisplay().trace)
    ensures StoresWithin(InitDisplay().trace, InitRegisterFile)
    ensures forall op :: op in InitRegisterFile ==>
      exists i :: 0 <= i < |InitDisplay().trace| && InitDisplay().trace[i] == Write(op, InitRegisterFile[op])
  {
    var t := InitDisplay().trace;
    RegisterPhaseAscending();
    RegisterPhaseWithin();
    assert NoStores(ResetPhase) && NoStores(WakePhase);
    StoresAscendingAppend(ResetPhase, RegisterPhase);
    StoresAscendingAppend(ResetPhase + RegisterPhase, WakePhase);
    StoresWithinAppend(ResetPhase, RegisterPhase, InitRegisterFile);
    StoresWithinAppend(ResetPhase + RegisterPhase, WakePhase, InitRegisterFile);
    InitFromAnyState(PowerOn);
    forall op | op in InitRegisterFile
      ensures exists i :: 0 <= i < |t| && t[i] == Write(op, InitRegisterFile[op])
    {
      RunStoredWasWritten(PowerOn, t, op);
    }
  }

  /** Apart from the register writes the hook does exactly this, in this
      order: reset, wait 50 ms, inversion on, sleep out, wait 120 ms, display
      on, wait 200 ms. */
  lemma InitControlEvents()
    ensures Unstored(InitDisplay().trace) == [Reset, Delay(50),
      Write(Dcs.EnterInvertMode, []), Write(Dcs.ExitSleepMode, []), Delay(120),
      Write(Dcs.SetDisplayOn, []), Delay(200)]
  {
    RegisterPhaseOnlyStores();
    assert NoStores(ResetPhase) && NoStores(WakePhase);
    UnstoredOfNoStores(ResetPhase);
    UnstoredOfNoStores(WakePhase);
    UnstoredAppend(ResetPhase, RegisterPhase);
    UnstoredAppend(ResetPhase + RegisterPhase, WakePhase);
    assert Unstored(InitDisplay().trace) == ResetPhase + [] + WakePhase;
    ControlPhases();
  }

  /** The reset and wake phases, one after the other. */
  lemma ControlPhases()
    ensures ResetPhase + [] + WakePhase == [Reset, Delay(50),
      Write(Dcs.EnterInvertMode, []), Write(Dcs.ExitSleepMode, []), Delay(120),
      Write(Dcs.SetDisplayOn, []), Delay(200)]
  {
  }

  /** The address mode the hook writes is the one `set_var` writes for the
      unrotated panel in RGB order. */
  lemma InitAddressModeIsUnrotatedRgb(info: OrientationResolver.ScreenInfo)
    requires info.rotate == 0
    ensures InitDisplay().trace[2] == OrientationResolver.SetVar(false, info).trace[0]
  {
  }

  /** How many low one-bits make up each gamma mask. The mask of position 7
      (0x77) is not a run of low bits; its entry is unused. */
  const MaskWidth: seq<nat> := [8, 6, 6, 5, 5, 6, 7, 0, 7, 6, 5, 5, 6, 6]

  /** The low bits the hook's position-7 gamma values share with the mask
      0x77, one halving at a time: `And(0x33, 0x77)` and `And(0x32, 0x77)`
      unfold to `And(25, 59)`, since 0x33 / 2 == 0x32 / 2 == 25 and
      0x77 / 2 == 59. */
  lemma AndPosition7Chain()
    ensures GammaProgrammer.And(25, 59) == 25
  {
    assert GammaProgrammer.And(1, 3) == 1;
    assert GammaProgrammer.And(3, 7) == 3;
    assert GammaProgrammer.And(6, 14) == 6;
    assert GammaProgrammer.And(12, 29) == 12;
  }

  /** Position `j` of both of the hook's gamma curves already lies within
      position `j`'s mask. */
  lemma InitPositiveGammaPositionMasked(j: nat)
    requires j < GammaProgrammer.NumValues
    ensures GammaProgrammer.And(InitPositiveGamma[j], GammaProgrammer.GammaParMask[j]) == InitPositiveGamma[j]
  {
    if j == 7 {
      AndPosition7Chain();
      assert GammaProgrammer.And(51, 119) == 51;
    } else {
      assert GammaProgrammer.Pow2(5) == 32 && GammaProgrammer.Pow2(6) == 64;
      assert GammaProgrammer.Pow2(7) == 128 && GammaProgrammer.Pow2(8) == 256;
      var v, m, w := InitPositiveGamma[j], GammaProgrammer.GammaParMask[j], MaskWidth[j];
      assert m == GammaProgrammer.Pow2(w) - 1 && v < GammaProgrammer.Pow2(w);
      GammaProgrammer.AndLowBits(v, w);
      assert GammaProgrammer.And(v, m) == v;
    }
  }

  lemma InitNegativeGammaPositionMasked(j: nat)
    requires j < GammaProgrammer.NumValues
    ensures GammaProgrammer.And(InitNegativeGamma[j], GammaProgrammer.GammaParMask[j]) == InitNegativeGamma[j]
  {
    if j == 7 {
      AndPosition7Chain();
      assert GammaProgrammer.And(50, 119) == 50;
    } else {
      assert GammaProgrammer.Pow2(5) == 32 && GammaProgrammer.Pow2(6) == 64;
      assert GammaProgrammer.Pow2(7) == 128 && GammaProgrammer.Pow2(8) == 256;
      var v, m, w := InitNegativeGamma[j], GammaProgrammer.GammaParMask[j], MaskWidth[j];
      assert m == GammaProgrammer.Pow2(w) - 1 && v < GammaProgrammer.Pow2(w);
      GammaProgrammer.AndLowBits(v, w);
      assert GammaProgrammer.And(v, m) == v;
    }
  }

  /** The hook's gamma curves are already masked. */
  lemma InitGammaIsMasked()
    ensures GammaProgrammer.IsMasked(InitPositiveGamma + InitNegativeGamma, 2)
  {
    var curves := InitPositiveGamma + InitNegativeGamma;
    forall k | 0 <= k < 2 * GammaProgrammer.NumValues
      ensures GammaProgrammer.MaskEntry(curves[k], k) == curves[k]
    {
      if k < GammaProgrammer.NumValues {
        assert GammaProgrammer.PositionMask(k) == GammaProgrammer.GammaParMask[k];
        assert curves[k] == InitPositiveGamma[k];
        InitPositiveGammaPositionMasked(k);
      } else {
        var j := k - GammaProgrammer.NumValues;
        assert GammaProgrammer.PositionMask(k) == GammaProgrammer.GammaParMask[j];
        assert curves[k] == InitNegativeGamma[j];
        InitNegativeGammaPositionMasked(j);
      }
    }
  }

  /** `set_gamma` given the hook's gamma curves leaves them as they are and
      sends exactly the hook's two gamma writes. */
  lemma InitGammaIsSetGammaFixedPoint()
    ensures GammaProgrammer.IsMasked(InitPositiveGamma + InitNegativeGamma, 2)
    ensures GammaProgrammer.GammaWrites(InitPositiveGamma + InitNegativeGamma, 2)
         == InitDisplay().trace[13..15]
  {
    InitGammaIsMasked();
    var curves := InitPositiveGamma + InitNegativeGamma;
    GammaProgrammer.TwoCurvesUseBothGammaRegisters(curves);
    assert curves[0 .. 14] == InitPositiveGamma && curves[14 .. 28] == InitNegativeGamma;
  }
}
