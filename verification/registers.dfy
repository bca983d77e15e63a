/**
 The ST7789V vendor commands the driver names, and the bits of the
 memory-access-control byte (MADCTL, the parameter of DCS set_address_mode).
 */
module Registers {

  /** Vendor commands, named as in the controller's datasheet. */
  const Porctrl: int := 0xB2    // porch setting
  const Gctrl: int := 0xB7      // gate control
  const Vcoms: int := 0xBB      // VCOM setting
  const Vdvvrhen: int := 0xC2   // VDV and VRH command enable
  const Vrhs: int := 0xC3       // VRH set
  const Vdvs: int := 0xC4       // VDV set
  const Vcmofset: int := 0xC5   // VCOM offset set
  const Pwctrl1: int := 0xD0    // power control 1
  const Pvgamctrl: int := 0xE0  // positive voltage gamma control
  const Nvgamctrl: int := 0xE1  // negative voltage gamma control

  /** Vendor commands the initialisation sequence writes by number only; the
      names are the datasheet's. */
  const Lcmctrl: int := 0xC0    // LCM control
  const Frctrl2: int := 0xC6    // frame rate control in normal mode
  const Gatectrl: int := 0xE4   // gate control

  /** MADCTL bits. */
  const MadctlBgr: bv8 := 1 << 3  // RGB/BGR order
  const MadctlMv: bv8 := 1 << 5   // page/column exchange
  const MadctlMx: bv8 := 1 << 6   // column address order
  const MadctlMy: bv8 := 1 << 7   // page address order
}
