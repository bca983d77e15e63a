/**
 The `blank` hook: blanking switches the display off, unblanking switches it
 on, each with one parameterless DCS command and no delay.
 */
module PowerController {
  import opened Events
  import Dcs
  import opened Panel

  /** `blank(par, on)`: `on` asks for a blanked (dark) display. */
  function Blank(on: bool): (r: Outcome)
    ensures r.status == Success
    ensures |r.trace| == 1 && r.trace[0].Write? && r.trace[0].params == []
    ensures r.trace[0].opcode == Dcs.SetDisplayOff <==> on
    ensures r.trace[0].opcode == Dcs.SetDisplayOn <==> !on
  {
    if on then Outcome(Success, [Write(Dcs.SetDisplayOff, [])])
    else Outcome(Success, [Write(Dcs.SetDisplayOn, [])])
  }

  /** After `Blank(on)` the display is lit exactly when `on` is false, from
      whatever state it was in, and nothing else about the controller changes. */
  lemma BlankEffect(p: Panel, on: bool)
    ensures Run(p, Blank(on).trace) == p.(displayOn := !on)
  {
    RunSingle(p, Blank(on).trace[0]);
  }

  /** Blanking (or unblanking) twice leaves the controller as doing it once. */
  lemma BlankIdempotent(p: Panel, on: bool)
    ensures Run(Run(p, Blank(on).trace), Blank(on).trace) == Run(p, Blank(on).trace)
  {
    BlankEffect(p, on);
    BlankEffect(Run(p, Blank(on).trace), on);
  }
}
