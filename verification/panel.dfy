/**
 An abstract observer of the controller: it replays a trace and keeps what the
 writes leave behind. Parameterless DCS commands switch the display, sleep and
 inversion modes; every other write stores its parameters in the register it
 addresses; a reset returns to the power-on state. This is not driver code: it
 is the reference the hooks' traces are judged against.
 */
module Panel {
  import opened Events
  import Dcs

  datatype Panel = Panel(regs: map<int, seq<int>>, displayOn: bool, asleep: bool, inverted: bool)

  /** State right after a hardware reset: nothing programmed, display off, asleep. */
  const PowerOn: Panel := Panel(map[], false, true, false)

  /** The parameterless DCS commands that switch a mode rather than store
      parameters. */
  predicate IsModeCommand(op: int) {
    || op == Dcs.SetDisplayOn || op == Dcs.SetDisplayOff
    || op == Dcs.ExitSleepMode || op == Dcs.EnterSleepMode
    || op == Dcs.EnterInvertMode || op == Dcs.ExitInvertMode
  }

  /** The effect of one event. */
  function Step(p: Panel, e: Event): Panel
  {
    match e
    case Reset => PowerOn
    case Delay(_) => p
    case Write(op, params) =>
      if op == Dcs.SetDisplayOn then p.(displayOn := true)
      else if op == Dcs.SetDisplayOff then p.(displayOn := false)
      else if op == Dcs.ExitSleepMode then p.(asleep := false)
      else if op == Dcs.EnterSleepMode then p.(asleep := true)
      else if op == Dcs.EnterInvertMode then p.(inverted := true)
      else if op == Dcs.ExitInvertMode then p.(inverted := false)
      else p.(regs := p.regs[op := params])
  }

  /** The effect of a whole trace, first event first. */
  function Run(p: Panel, t: seq<Event>): Panel
    decreases |t|
  {
    if t == [] then p else Run(Step(p, t[0]), t[1..])
  }

  /** Replaying two traces one after the other is replaying their concatenation. */
  lemma {:induction false} RunAppend(p: Panel, a: seq<Event>, b: seq<Event>)
    ensures Run(p, a + b) == Run(Run(p, a), b)
    decreases |a|
  {
    if a == [] {
      assert a + b == b;
    } else {
      assert (a + b)[0] == a[0];
      assert (a + b)[1..] == a[1..] + b;
      RunAppend(Step(p, a[0]), a[1..], b);
    }
  }

  /** Replaying a single event is one step. */
  lemma RunSingle(p: Panel, e: Event)
    ensures Run(p, [e]) == Step(p, e)
  {
    assert [e][1..] == [];
  }

  /** Replaying one more event of `t` is one more step. */
  lemma RunPrefix(p: Panel, t: seq<Event>, i: nat)
    requires i < |t|
    ensures Run(p, t[..i + 1]) == Step(Run(p, t[..i]), t[i])
  {
    assert t[..i + 1] == t[..i] + [t[i]];
    RunAppend(p, t[..i], [t[i]]);
    RunSingle(Run(p, t[..i]), t[i]);
  }

  /** The state after the first `n` events of `t`. */
  function After(p: Panel, t: seq<Event>, n: nat): Panel
    requires n <= |t|
  {
    if n == 0 then p else Step(After(p, t, n - 1), t[n - 1])
  }

  /** Counting events from the front is replaying a prefix. */
  lemma {:induction false} AfterIsRun(p: Panel, t: seq<Event>, n: nat)
    requires n <= |t|
    ensures After(p, t, n) == Run(p, t[..n])
  {
    if n == 0 {
      assert t[..0] == [];
    } else {
      AfterIsRun(p, t, n - 1);
      RunPrefix(p, t, n - 1);
    }
  }

  /** One more event of `t`, a write to a register, stores the write's
      parameters in that register and changes nothing else. */
  lemma AfterStore(p: Panel, t: seq<Event>, i: nat, op: int, params: seq<int>)
    requires i < |t| && t[i] == Write(op, params) && !IsModeCommand(op)
    ensures After(p, t, i + 1) == After(p, t, i).(regs := After(p, t, i).regs[op := params])
  {
  }

  /** A write that stores its parameters in a register rather than switching
      a mode. */
  predicate IsStore(e: Event) {
    e.Write? && !IsModeCommand(e.opcode)
  }

  /** `t` stores to no register. */
  predicate NoStores(t: seq<Event>) {
    forall i :: 0 <= i < |t| ==> !IsStore(t[i])
  }

  /** The registers `t` stores to come in strictly increasing order, so none
      is stored to twice. */
  predicate StoresAscending(t: seq<Event>) {
    forall i, j :: 0 <= i < j < |t| && IsStore(t[i]) && IsStore(t[j]) ==> t[i].opcode < t[j].opcode
  }

  /** Every store of `t` is to a register of `m`, with the parameters `m`
      gives it. */
  predicate StoresWithin(t: seq<Event>, m: map<int, seq<int>>) {
    forall i :: 0 <= i < |t| && IsStore(t[i]) ==> t[i].opcode in m && t[i].params == m[t[i].opcode]
  }

  /** In a trace of stores whose opcodes increase from each store to the
      next, the opcode of an earlier store is below that of any later one. */
  lemma {:induction false} AscendingBetween(t: seq<Event>, i: nat, j: nat)
    requires forall k :: 0 <= k < |t| ==> t[k].Write? && !IsModeCommand(t[k].opcode)
    requires forall k {:trigger t[k]} :: 0 < k < |t| ==> t[k - 1].Write? && t[k].Write? && t[k - 1].opcode < t[k].opcode
    requires i < j < |t|
    ensures t[i].opcode < t[j].opcode
    decreases j - i
  {
    if i + 1 < j {
      AscendingBetween(t, i, j - 1);
      assert t[j - 1].opcode < t[j].opcode;
    }
  }

  /** A trace of stores with increasing neighbours is ascending. */
  lemma AdjacentStoresAscending(t: seq<Event>)
    requires forall k :: 0 <= k < |t| ==> t[k].Write? && !IsModeCommand(t[k].opcode)
    requires forall k {:trigger t[k]} :: 0 < k < |t| ==> t[k - 1].Write? && t[k].Write? && t[k - 1].opcode < t[k].opcode
    ensures StoresAscending(t)
  {
    forall i, j | 0 <= i < j < |t| && IsStore(t[i]) && IsStore(t[j])
      ensures t[i].opcode < t[j].opcode
    {
      AscendingBetween(t, i, j);
    }
  }

  /** Ascending stores survive concatenation when one part stores nothing. */
  lemma StoresAscendingAppend(a: seq<Event>, b: seq<Event>)
    requires StoresAscending(a) && StoresAscending(b)
    requires NoStores(a) || NoStores(b)
    ensures StoresAscending(a + b)
  {
    forall i, j | 0 <= i < j < |a + b| && IsStore((a + b)[i]) && IsStore((a + b)[j])
      ensures (a + b)[i].opcode < (a + b)[j].opcode
    {
      if j < |a| {
        assert (a + b)[i] == a[i] && (a + b)[j] == a[j];
      } else if i >= |a| {
        assert (a + b)[i] == b[i - |a|] && (a + b)[j] == b[j - |a|];
      } else {
        assert false;
      }
    }
  }

  /** Stores confined to `m` survive concatenation. */
  lemma StoresWithinAppend(a: seq<Event>, b: seq<Event>, m: map<int, seq<int>>)
    requires StoresWithin(a, m) && StoresWithin(b, m)
    ensures StoresWithin(a + b, m)
  {
    forall i | 0 <= i < |a + b| && IsStore((a + b)[i])
      ensures (a + b)[i].opcode in m && (a + b)[i].params == m[(a + b)[i].opcode]
    {
      if i >= |a| {
        assert (a + b)[i] == b[i - |a|];
      }
    }
  }

  /** The events of `t` that are not stores, in order. */
  function Unstored(t: seq<Event>): (r: seq<Event>)
    ensures NoStores(r) && |r| <= |t|
    decreases |t|
  {
    if t == [] then []
    else (if IsStore(t[0]) then [] else [t[0]]) + Unstored(t[1..])
  }

  /** Dropping the stores of a concatenation drops them from each part. */
  lemma {:induction false} UnstoredAppend(a: seq<Event>, b: seq<Event>)
    ensures Unstored(a + b) == Unstored(a) + Unstored(b)
    decreases |a|
  {
    if a == [] {
      assert a + b == b;
    } else {
      assert (a + b)[0] == a[0];
      assert (a + b)[1..] == a[1..] + b;
      UnstoredAppend(a[1..], b);
    }
  }

  /** A trace of stores only has nothing else. */
  lemma {:induction false} UnstoredOfStores(t: seq<Event>)
    requires forall k :: 0 <= k < |t| ==> IsStore(t[k])
    ensures Unstored(t) == []
    decreases |t|
  {
    if t != [] {
      assert IsStore(t[0]);
      UnstoredOfStores(t[1..]);
    }
  }

  /** A trace without stores is kept whole. */
  lemma {:induction false} UnstoredOfNoStores(t: seq<Event>)
    requires NoStores(t)
    ensures Unstored(t) == t
    decreases |t|
  {
    if t != [] {
      assert !IsStore(t[0]);
      UnstoredOfNoStores(t[1..]);
      assert [t[0]] + t[1..] == t;
    }
  }

  /** A register that a trace leaves holding a value it did not hold before
      was written with exactly that value by some event of the trace. */
  lemma {:induction false} RunStoredWasWritten(p: Panel, t: seq<Event>, op: int)
    requires op in Run(p, t).regs
    requires op !in p.regs || p.regs[op] != Run(p, t).regs[op]
    ensures exists i :: 0 <= i < |t| && t[i] == Write(op, Run(p, t).regs[op])
    decreases |t|
  {
    assert t != [];
    var q := Step(p, t[0]);
    assert Run(p, t) == Run(q, t[1..]);
    if op !in q.regs || q.regs[op] != Run(p, t).regs[op] {
      RunStoredWasWritten(q, t[1..], op);
      var i :| 0 <= i < |t[1..]| && t[1..][i] == Write(op, Run(q, t[1..]).regs[op]);
      assert t[i + 1] == t[1..][i];
    } else {
      assert t[0] == Write(op, Run(p, t).regs[op]);
    }
  }
}
