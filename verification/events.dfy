/**
 This module defines what a driver hook of the ST7789V panel driver does, as
 seen from the controller: an ordered trace of events, together with the
 integer status the hook returns to the framebuffer core.
 */
module Events {

  /** One effect of a hook on the controller, in program order:
      - `Reset`: the hardware reset line is pulsed,
      - `Delay(ms)`: the caller busy-waits `ms` milliseconds,
      - `Write(opcode, params)`: a register write, one command byte followed
        by its parameters as the driver computes them (the narrowing of each
        parameter to a wire byte happens in the bus layer, which is not part
        of this model). */
  datatype Event = Reset | Delay(ms: nat) | Write(opcode: int, params: seq<int>)

  /** The status a hook returns together with the events it caused. */
  datatype Outcome = Outcome(status: int, trace: seq<Event>)

  /** The kernel's error number for an invalid argument; hooks return its negation. */
  const EInval: int := 22

  /** The status of a hook that completed. */
  const Success: int := 0

  /** The kernel's 32-bit unsigned integer (`u32`, `__u32`). */
  type U32 = x: int | 0 <= x < 0x1_0000_0000

  /** Fits in one unsigned byte. */
  predicate IsByte(v: int) {
    0 <= v < 0x100
  }

  /** Every command byte and every parameter of every write in `t` is a byte. */
  predicate WritesAreBytes(t: seq<Event>) {
    forall i :: 0 <= i < |t| && t[i].Write? ==>
      IsByte(t[i].opcode) && forall k :: 0 <= k < |t[i].params| ==> IsByte(t[i].params[k])
  }

  /** A trace made of two parts has bytes only when both parts do. */
  lemma WritesAreBytesAppend(a: seq<Event>, b: seq<Event>)
    requires WritesAreBytes(a) && WritesAreBytes(b)
    ensures WritesAreBytes(a + b)
  {
    forall i | 0 <= i < |a + b| && (a + b)[i].Write?
      ensures IsByte((a + b)[i].opcode)
      ensures forall k :: 0 <= k < |(a + b)[i].params| ==> IsByte((a + b)[i].params[k])
    {
      if i >= |a| {
        assert (a + b)[i] == b[i - |a|];
      }
    }
  }

  /** Every reset in `t` is followed at once by a wait of at least `ms`. */
  predicate ResetSettles(t: seq<Event>, ms: nat) {
    forall i :: 0 <= i < |t| && t[i] == Reset ==>
      i + 1 < |t| && t[i + 1].Delay? && t[i + 1].ms >= ms
  }

  /** Every write of command `op` in `t` is followed at once by a wait of at
      least `ms`. */
  predicate CommandSettles(t: seq<Event>, op: int, ms: nat) {
    forall i :: 0 <= i < |t| && t[i].Write? && t[i].opcode == op ==>
      i + 1 < |t| && t[i + 1].Delay? && t[i + 1].ms >= ms
  }

  /** Command `op` is written, and nothing is written after it. */
  predicate WrittenLast(t: seq<Event>, op: int) {
    && (exists i :: 0 <= i < |t| && t[i].Write? && t[i].opcode == op)
    && forall i, j :: 0 <= i < j < |t| && t[i].Write? && t[i].opcode == op ==> !t[j].Write?
  }

  /** The waits after resets survive concatenation when the first part does
      not end with a reset. */
  lemma ResetSettlesAppend(a: seq<Event>, b: seq<Event>, ms: nat)
    requires ResetSettles(a, ms) && ResetSettles(b, ms)
    requires a != [] ==> a[|a| - 1] != Reset
    ensures ResetSettles(a + b, ms)
  {
    forall i | 0 <= i < |a + b| && (a + b)[i] == Reset
      ensures i + 1 < |a + b| && (a + b)[i + 1].Delay? && (a + b)[i + 1].ms >= ms
    {
      if i >= |a| {
        assert (a + b)[i] == b[i - |a|];
        assert (a + b)[i + 1] == b[i + 1 - |a|];
      } else {
        assert (a + b)[i + 1] == a[i + 1];
      }
    }
  }

  /** The waits after a command survive concatenation when the first part
      does not end with that command. */
  lemma CommandSettlesAppend(a: seq<Event>, b: seq<Event>, op: int, ms: nat)
    requires CommandSettles(a, op, ms) && CommandSettles(b, op, ms)
    requires a != [] ==> !(a[|a| - 1].Write? && a[|a| - 1].opcode == op)
    ensures CommandSettles(a + b, op, ms)
  {
    forall i | 0 <= i < |a + b| && (a + b)[i].Write? && (a + b)[i].opcode == op
      ensures i + 1 < |a + b| && (a + b)[i + 1].Delay? && (a + b)[i + 1].ms >= ms
    {
      if i >= |a| {
        assert (a + b)[i] == b[i - |a|];
        assert (a + b)[i + 1] == b[i + 1 - |a|];
      } else {
        assert (a + b)[i + 1] == a[i + 1];
      }
    }
  }

  /** A part that never writes `op`, followed by one that writes `op` last,
      writes `op` last. */
  lemma WrittenLastAppend(a: seq<Event>, b: seq<Event>, op: int)
    requires forall i :: 0 <= i < |a| && a[i].Write? ==> a[i].opcode != op
    requires WrittenLast(b, op)
    ensures WrittenLast(a + b, op)
  {
    var w :| 0 <= w < |b| && b[w].Write? && b[w].opcode == op;
    assert (a + b)[|a| + w] == b[w];
    forall i, j | 0 <= i < j < |a + b| && (a + b)[i].Write? && (a + b)[i].opcode == op
      ensures !(a + b)[j].Write?
    {
      if i >= |a| {
        assert (a + b)[i] == b[i - |a|];
        assert (a + b)[j] == b[j - |a|];
      }
    }
  }
}
