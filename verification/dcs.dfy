/**
 Command bytes of the MIPI Display Command Set (DCS): those the driver sends,
 and the opposites of its mode commands (enter sleep, exit invert mode), which
 it never sends but which the controller model interprets. The values are
 those of the DCS command table; the controller accepts them alongside its
 own vendor commands.
 */
module Dcs {

  const EnterSleepMode: int := 0x10
  const ExitSleepMode: int := 0x11
  const ExitInvertMode: int := 0x20
  const EnterInvertMode: int := 0x21
  const SetDisplayOff: int := 0x28
  const SetDisplayOn: int := 0x29
  const SetColumnAddress: int := 0x2A
  const SetPageAddress: int := 0x2B
  const SetAddressMode: int := 0x36
  const SetPixelFormat: int := 0x3A
}
