// What the options of a callback list change: stopping at a callback that returns false, firing once, remembering
// what was fired, and listing a function once; and what locking and disabling put an end to.
module CallbackOptions {
  import opened Prelude
  import opened Callbacks

  // ---------------------------------------------------------------- stopping

  lemma NoStops<F>(s: State<F>)
    ensures Stopped !in Loop(s).1
    decreases Pending(s), 1
  {
    if !(s.list.Some? && s.firingIndex < s.firingLength) {
      FinishNoStops(s);
    }
  }

  lemma FinishNoStops<F>(s: State<F>)
    ensures Stopped !in Finish(s).1
    decreases Pending(s), 0
  {
    if s.list.Some? && s.stack.Some? && s.stack.value != [] {
      BeginNoStops(s.(firing := false, stack := Some(s.stack.value[1..])), s.stack.value[0]);
    }
  }

  lemma BeginNoStops<F>(s: State<F>, data: Data)
    requires s.list.Some?
    ensures Stopped !in Begin(s, data).1
    decreases Pending(s), 2
  {
    NoStops(s.(memory := if s.options.memory then Some(data) else None, fired := true, firingIndex := s.firingStart,
               firingStart := 0, firingLength := |s.list.value|, firing := true, data := data));
  }

  // A firing is cut short exactly by a callback that returns false, on a list that minds that.
  lemma StopsExactly<F>(s: State<F>, op: Op<F>)
    ensures Stopped in Step(s, op).1 <==> op == DoReturn(true) && s.firing && s.options.stopOnFalse
  {
    match op
    case DoAdd(fns) =>
      if s.list.Some? && !s.firing && s.memory.Some? {
        var list := Appended(s.options.unique, s.list.value, fns, s.nextReg);
        BeginNoStops(s.(list := Some(list), nextReg := s.nextReg + |fns|, firingStart := |s.list.value|),
                     s.memory.value);
      }
    case DoFire(data) =>
      if s.list.Some? {
        BeginNoStops(s, data);
      }
    case DoReturn(returnedFalse) =>
      NoStops(s.(firingIndex := s.firingIndex + 1));
    case _ =>
  }

  // On any other list it makes no difference what a callback returns.
  lemma ReturnIgnored<F>(s: State<F>)
    requires !s.options.stopOnFalse
    ensures Step(s, DoReturn(true)) == Step(s, DoReturn(false))
  {
  }

  // What a firing that is cut short leaves: no callback of it is called any more, and the memory is gone; the next
  // stacked firing begins, if there is one.
  lemma StoppedIsOver<F>(s: State<F>)
    requires s.options.stopOnFalse
    ensures var (s', es) := Resume(s, true);
      && es != [] && es[0] == Stopped
      && (|es| == 1 ==> !s'.firing && s'.memory.None?)
      && (|es| > 1 ==> s.stack.Some? && s.stack.value != [] && es[1].Began? && es[1].data == s.stack.value[0])
  {
    var s1 := s.(memory := None);
    assert Resume(s, true) == (Finish(s1).0, [Stopped] + Finish(s1).1);
    if s.list.Some? && s.stack.Some? && s.stack.value != [] {
      var next := s1.(firing := false, stack := Some(s.stack.value[1..]));
      assert Finish(s1) == Begin(next, s.stack.value[0]);
      assert Begin(next, s.stack.value[0]).1[0].Began?;
    } else {
      assert Finish(s1).1 == [];
    }
  }

  lemma {:induction false} OptionsStay<F>(s: State<F>, ops: seq<Op<F>>)
    ensures Run(s, ops).0.options == s.options
  {
    if ops != [] {
      OptionsStay(s, ops[..|ops| - 1]);
      StepOptions(Run(s, ops[..|ops| - 1]).0, ops[|ops| - 1]);
    }
  }

  lemma LoopOptions<F>(s: State<F>)
    ensures Loop(s).0.options == s.options
    decreases Pending(s), 1
  {
    if !(s.list.Some? && s.firingIndex < s.firingLength) {
      FinishOptions(s);
    }
  }

  lemma FinishOptions<F>(s: State<F>)
    ensures Finish(s).0.options == s.options
    decreases Pending(s), 0
  {
    if s.list.Some? && s.stack.Some? && s.stack.value != [] {
      BeginOptions(s.(firing := false, stack := Some(s.stack.value[1..])), s.stack.value[0]);
    }
  }

  lemma BeginOptions<F>(s: State<F>, data: Data)
    requires s.list.Some?
    ensures Begin(s, data).0.options == s.options
    decreases Pending(s), 2
  {
    LoopOptions(s.(memory := if s.options.memory then Some(data) else None, fired := true, firingIndex := s.firingStart,
                   firingStart := 0, firingLength := |s.list.value|, firing := true, data := data));
  }

  lemma {:induction false} RemoveOptions<F>(s: State<F>, fns: seq<F>)
    ensures var s' := Remove(s, fns);
      && s'.options == s.options && s'.stack == s.stack && s'.firing == s.firing && s'.fired == s.fired
      && s'.memory == s.memory && (s'.list.Some? <==> s.list.Some?)
  {
    if s.list.Some? && fns != [] {
      RemoveOptions(s, fns[..|fns| - 1]);
    }
  }

  lemma StepOptions<F>(s: State<F>, op: Op<F>)
    ensures Step(s, op).0.options == s.options
  {
    match op
    case DoAdd(fns) =>
      if s.list.Some? && !s.firing && s.memory.Some? {
        var list := Appended(s.options.unique, s.list.value, fns, s.nextReg);
        BeginOptions(s.(list := Some(list), nextReg := s.nextReg + |fns|, firingStart := |s.list.value|),
                     s.memory.value);
      }
    case DoRemove(fns) => RemoveOptions(s, fns);
    case DoFire(data) =>
      if s.list.Some? {
        BeginOptions(s, data);
      }
    case DoReturn(returnedFalse) =>
      if s.firing {
        if returnedFalse && s.options.stopOnFalse {
          FinishOptions(s.(memory := None));
        } else {
          LoopOptions(s.(firingIndex := s.firingIndex + 1));
        }
      }
    case _ =>
  }

  // No firing of a list that does not mind is ever cut short.
  lemma {:induction false} NeverStopped<F>(options: Options, ops: seq<Op<F>>)
    requires !options.stopOnFalse
    ensures Stopped !in Run(New<F>(options), ops).1
  {
    if ops != [] {
      var l := |ops| - 1;
      NeverStopped(options, ops[..l]);
      OptionsStay(New<F>(options), ops[..l]);
      StopsExactly(Run(New<F>(options), ops[..l]).0, ops[l]);
    }
  }

  // ---------------------------------------------------------------- stacked firings

  // What the firings that begin are begun with.
  ghost function BegunWith<F>(es: seq<Event<F>>): seq<Data> {
    if es == [] then []
    else BegunWith(es[..|es| - 1]) + if es[|es| - 1].Began? then [es[|es| - 1].data] else []
  }

  lemma {:induction false} BegunAppend<F>(es: seq<Event<F>>, fs: seq<Event<F>>)
    ensures BegunWith(es + fs) == BegunWith(es) + BegunWith(fs)
  {
    if fs == [] {
      assert es + fs == es;
    } else {
      BegunAppend(es, fs[..|fs| - 1]);
      assert (es + fs)[..|es + fs| - 1] == es + fs[..|fs| - 1];
    }
  }

  lemma BegunCons<F>(e: Event<F>, es: seq<Event<F>>)
    ensures BegunWith([e] + es) == (if e.Began? then [e.data] else []) + BegunWith(es)
  {
    BegunAppend([e], es);
    assert [e][..0] == [];
  }

  // In a run, what the firings that were asked for are begun with.  Those that repeat the memory for added callbacks
  // come first in an addition, and are left out.
  ghost function Begun<F>(s: State<F>, ops: seq<Op<F>>): seq<Data> {
    if ops == [] then []
    else
      var l := |ops| - 1;
      var es := Step(Run(s, ops[..l]).0, ops[l]).1;
      Begun(s, ops[..l]) + BegunWith(if ops[l].DoAdd? && es != [] then es[1..] else es)
  }

  // What is asked for.
  ghost function Asked<F>(ops: seq<Op<F>>): seq<Data> {
    if ops == [] then []
    else Asked(ops[..|ops| - 1]) + if ops[|ops| - 1].DoFire? then [ops[|ops| - 1].data] else []
  }

  ghost predicate Undisturbed<F>(ops: seq<Op<F>>) {
    forall i :: 0 <= i < |ops| ==> !ops[i].DoLock? && !ops[i].DoDisable?
  }

  // The list may be fired again: what is stacked is waiting for the present firing.
  ghost predicate Stacking<F>(s: State<F>) {
    s.list.Some? && s.stack.Some? && (!s.firing ==> s.stack.value == [])
  }

  // Some firings were begun; what is still stacked comes after them.
  ghost predicate Drained<F>(stack: seq<Data>, r: (State<F>, seq<Event<F>>)) {
    Stacking(r.0) && BegunWith(r.1) + r.0.stack.value == stack
  }

  lemma LoopDrains<F>(s: State<F>)
    requires s.list.Some? && s.stack.Some? && s.firing
    ensures Drained(s.stack.value, Loop(s))
    decreases Pending(s), 1
  {
    if s.firingIndex < s.firingLength {
      var e := Loop(s).1[0];
      assert Loop(s).1 == [e] + [];
      BegunCons(e, []);
    } else {
      FinishDrains(s);
      BegunCons(Ended(s.list.value), Finish(s).1);
    }
  }

  lemma FinishDrains<F>(s: State<F>)
    requires s.list.Some? && s.stack.Some?
    ensures Drained(s.stack.value, Finish(s))
    decreases Pending(s), 0
  {
    if s.stack.value != [] {
      var next, rest := s.stack.value[0], s.stack.value[1..];
      BeginDrains(s.(firing := false, stack := Some(rest)), next);
      assert s.stack.value == [next] + rest;
    }
  }

  lemma BeginDrains<F>(s: State<F>, data: Data)
    requires s.list.Some? && s.stack.Some?
    ensures Drained([data] + s.stack.value, Begin(s, data))
    ensures Begin(s, data).1 != [] && Drained(s.stack.value, (Begin(s, data).0, Begin(s, data).1[1..]))
    decreases Pending(s), 2
  {
    var s1 := s.(memory := if s.options.memory then Some(data) else None, fired := true, firingIndex := s.firingStart,
                 firingStart := 0, firingLength := |s.list.value|, firing := true, data := data);
    LoopDrains(s1);
    var e := Begin(s, data).1[0];
    assert Begin(s, data).1 == [e] + Loop(s1).1 && e.Began? && e.data == data;
    BegunCons(e, Loop(s1).1);
  }

  // A list that may fire again carries out all that it is asked for, in the order asked and with the data of each;
  // what has not begun is stacked while a firing goes on.
  lemma {:induction false} StackedInOrder<F>(options: Options, ops: seq<Op<F>>)
    requires !options.once && Undisturbed(ops)
    ensures var s := Run(New<F>(options), ops).0;
      Stacking(s) && Begun(New<F>(options), ops) + s.stack.value == Asked(ops)
  {
    if ops != [] {
      var l := |ops| - 1;
      var s0 := New<F>(options);
      StackedInOrder(options, ops[..l]);
      var s, op := Run(s0, ops[..l]).0, ops[l];
      var r := Step(s, op);
      var es := if op.DoAdd? && r.1 != [] then r.1[1..] else r.1;
      StepDrains(s, op);
      assert Begun(s0, ops) == Begun(s0, ops[..l]) + BegunWith(es);
      var more := if op.DoFire? then [op.data] else [];
      assert Begun(s0, ops[..l]) + BegunWith(es) + r.0.stack.value ==
             Begun(s0, ops[..l]) + (BegunWith(es) + r.0.stack.value);
      assert Begun(s0, ops[..l]) + s.stack.value + more == Begun(s0, ops[..l]) + (s.stack.value + more);
    }
  }

  lemma StepDrains<F>(s: State<F>, op: Op<F>)
    requires Stacking(s) && !op.DoLock? && !op.DoDisable?
    ensures var r := Step(s, op);
      Drained(s.stack.value + if op.DoFire? then [op.data] else [],
              (r.0, if op.DoAdd? && r.1 != [] then r.1[1..] else r.1))
  {
    assert s.stack.value + [] == s.stack.value;
    match op
    case DoAdd(fns) =>
      if !s.firing && s.memory.Some? {
        var list := Appended(s.options.unique, s.list.value, fns, s.nextReg);
        BeginDrains(s.(list := Some(list), nextReg := s.nextReg + |fns|, firingStart := |s.list.value|),
                    s.memory.value);
      }
    case DoRemove(fns) => RemoveOptions(s, fns);
    case DoFire(data) =>
      if !s.firing {
        BeginDrains(s, data);
        assert [] + [data] == [data] + [];
      }
    case DoReturn(returnedFalse) =>
      if s.firing {
        if returnedFalse && s.options.stopOnFalse {
          FinishDrains(s.(memory := None));
          BegunCons(Stopped, Finish(s.(memory := None)).1);
        } else {
          LoopDrains(s.(firingIndex := s.firingIndex + 1));
        }
      }
    case DoEmpty =>
  }

  // ---------------------------------------------------------------- firing once, locking, disabling

  // No firing that is asked for will begin: nothing is stacked, and the list is gone or has been fired.
  ghost predicate Spent<F>(s: State<F>) {
    s.stack.None? && (s.list.Some? ==> s.fired)
  }

  ghost predicate NoneBegun<F>(r: (State<F>, seq<Event<F>>)) {
    Spent(r.0) && BegunWith(r.1) == []
  }

  lemma SpentLoops<F>(s: State<F>)
    requires Spent(s)
    ensures NoneBegun(Finish(s)) && NoneBegun(Loop(s))
  {
    assert Finish(s).1 == [];
    var e := Loop(s).1[0];
    assert Loop(s).1 == [e] + [];
    BegunCons(e, []);
  }

  // The memory alone may be fired again.
  lemma SpentBegins<F>(s: State<F>, data: Data)
    requires s.stack.None? && s.list.Some?
    ensures var r := Begin(s, data); r.1 != [] && NoneBegun((r.0, r.1[1..])) && BegunWith(r.1) == [data]
  {
    var s1 := s.(memory := if s.options.memory then Some(data) else None, fired := true, firingIndex := s.firingStart,
                 firingStart := 0, firingLength := |s.list.value|, firing := true, data := data);
    SpentLoops(s1);
    var e := Begin(s, data).1[0];
    assert Begin(s, data).1 == [e] + Loop(s1).1 && e.Began? && e.data == data;
    BegunCons(e, Loop(s1).1);
  }

  lemma SpentStep<F>(s: State<F>, op: Op<F>)
    requires Spent(s) && (s.list.None? ==> !op.DoEmpty?)
    ensures var r := Step(s, op); NoneBegun((r.0, if op.DoAdd? && r.1 != [] then r.1[1..] else r.1))
    ensures s.list.None? && !s.firing ==> Step(s, op).0.list.None? && Step(s, op).1 == []
  {
    match op
    case DoAdd(fns) =>
      if s.list.Some? && !s.firing && s.memory.Some? {
        var list := Appended(s.options.unique, s.list.value, fns, s.nextReg);
        SpentBegins(s.(list := Some(list), nextReg := s.nextReg + |fns|, firingStart := |s.list.value|),
                    s.memory.value);
      }
    case DoRemove(fns) => RemoveOptions(s, fns);
    case DoReturn(returnedFalse) =>
      if s.firing {
        if returnedFalse && s.options.stopOnFalse {
          SpentLoops(s.(memory := None));
          BegunCons(Stopped, Finish(s.(memory := None)).1);
        } else {
          SpentLoops(s.(firingIndex := s.firingIndex + 1));
        }
      }
    case _ =>
  }

  ghost predicate NeverEmptied<F>(ops: seq<Op<F>>) {
    forall i :: 0 <= i < |ops| ==> !ops[i].DoEmpty?
  }

  lemma {:induction false} SpentForGood<F>(s: State<F>, ops: seq<Op<F>>)
    requires Spent(s) && NeverEmptied(ops)
    ensures Spent(Run(s, ops).0) && Begun(s, ops) == []
  {
    if ops != [] {
      SpentForGood(s, ops[..|ops| - 1]);
      SpentStep(Run(s, ops[..|ops| - 1]).0, ops[|ops| - 1]);
    }
  }

  // A list that has been locked or disabled begins no firing any more, except for its memory; what is going on is
  // carried to its end, unless the list was disabled.
  lemma LockedFiresNothing<F>(options: Options, ops: seq<Op<F>>, op: Op<F>, later: seq<Op<F>>)
    requires Timely(New<F>(options), ops) && (op.DoLock? || op.DoDisable?) && NeverEmptied(later)
    ensures Begun(Step(Run(New<F>(options), ops).0, op).0, later) == []
  {
    EveryRunIsProper(options, ops);
    SpentForGood(Step(Run(New<F>(options), ops).0, op).0, later);
  }

  // A disabled list calls nothing at all.
  lemma {:induction false} DisabledIsSilent<F>(s: State<F>, later: seq<Op<F>>)
    requires NeverEmptied(later)
    ensures var (s', es) := Run(Disable(s), later);
      s'.list.None? && s'.stack.None? && forall i :: 0 <= i < |es| ==> !es[i].Called? && !es[i].Began?
  {
    if later != [] {
      DisabledIsSilent(s, later[..|later| - 1]);
      DisabledStep(Run(Disable(s), later[..|later| - 1]).0, later[|later| - 1]);
    }
  }

  lemma DisabledStep<F>(s: State<F>, op: Op<F>)
    requires s.list.None? && s.stack.None? && !op.DoEmpty?
    ensures var (s', es) := Step(s, op);
      s'.list.None? && s'.stack.None? && forall i :: 0 <= i < |es| ==> !es[i].Called? && !es[i].Began?
  {
    match op
    case DoRemove(fns) => RemoveOptions(s, fns);
    case DoReturn(_) =>
      assert forall t: State<F> :: t.list.None? ==> Finish(t).1 == [];
      var t := s.(firingIndex := s.firingIndex + 1);
      var e: Event<F> := Vanished;
      assert Loop(t) == (Finish(t).0, [e] + Finish(t).1);
      assert [e] + [] == [e];
    case _ =>
  }

  // A list that fires once carries out the first firing asked for, and no other.
  lemma {:induction false} FiresOnce<F>(options: Options, ops: seq<Op<F>>)
    requires options.once && Undisturbed(ops) && NeverEmptied(ops)
    ensures var s := Run(New<F>(options), ops).0;
      && s.stack.None? && (Asked(ops) == [] ==> s.list.Some? && !s.fired && !s.firing && s.memory.None?)
      && (Asked(ops) != [] ==> Spent(s))
      && Begun(New<F>(options), ops) == if Asked(ops) == [] then [] else [Asked(ops)[0]]
  {
    if ops != [] {
      var l := |ops| - 1;
      var s0 := New<F>(options);
      FiresOnce(options, ops[..l]);
      var s, op := Run(s0, ops[..l]).0, ops[l];
      if Asked(ops[..l]) != [] {
        SpentStep(s, op);
      } else if op.DoFire? {
        SpentBegins(s, op.data);
      } else if op.DoRemove? {
        RemoveOptions(s, op.fns);
      }
    }
  }

  // ---------------------------------------------------------------- remembering

  // What is remembered and what is left of the list, by the options.
  ghost predicate Remembering<F>(s: State<F>) {
    && (s.options.once ==> s.stack.None?)
    && (!s.options.memory ==> s.memory.None?)
    && (s.options.memory && !s.options.stopOnFalse ==> (s.memory.Some? <==> s.fired))
    && (s.options.once && !s.options.memory && s.fired && !s.firing ==> s.list.None?)
    && (!s.options.once || (s.options.memory && !s.options.stopOnFalse) ==> s.list.Some?)
    && (s.list.None? || s.firing || s.memory.Some? ==> s.fired) && (!s.options.once ==> s.stack.Some?)
  }

  lemma LoopRemembers<F>(s: State<F>)
    requires s.firing && s.fired && Remembering(s)
    ensures Remembering(Loop(s).0) && Loop(s).0.fired
    decreases Pending(s), 1
  {
    if !(s.list.Some? && s.firingIndex < s.firingLength) {
      FinishRemembers(s);
    }
  }

  lemma FinishRemembers<F>(s: State<F>)
    requires s.firing && s.fired && Remembering(s)
    ensures Remembering(Finish(s).0) && Finish(s).0.fired
    decreases Pending(s), 0
  {
    if s.list.Some? && s.stack.Some? && s.stack.value != [] {
      BeginRemembers(s.(firing := false, stack := Some(s.stack.value[1..])), s.stack.value[0]);
    }
  }

  lemma BeginRemembers<F>(s: State<F>, data: Data)
    requires s.list.Some? && (s.stack.None? <==> s.options.once)
    ensures Remembering(Begin(s, data).0) && Begin(s, data).0.fired
    decreases Pending(s), 2
  {
    LoopRemembers(s.(memory := if s.options.memory then Some(data) else None, fired := true,
                     firingIndex := s.firingStart, firingStart := 0, firingLength := |s.list.value|, firing := true,
                     data := data));
  }

  lemma StepRemembers<F>(s: State<F>, op: Op<F>)
    requires Remembering(s) && !op.DoLock? && !op.DoDisable? && !op.DoEmpty?
    ensures Remembering(Step(s, op).0) && (Step(s, op).0.fired <==> s.fired || op.DoFire?)
  {
    match op
    case DoAdd(fns) =>
      if s.list.Some? && !s.firing && s.memory.Some? {
        var list := Appended(s.options.unique, s.list.value, fns, s.nextReg);
        BeginRemembers(s.(list := Some(list), nextReg := s.nextReg + |fns|, firingStart := |s.list.value|),
                       s.memory.value);
      }
    case DoRemove(fns) => RemoveOptions(s, fns);
    case DoFire(data) =>
      if s.list.Some? && (!s.fired || s.stack.Some?) && !s.firing {
        BeginRemembers(s, data);
      }
    case DoReturn(returnedFalse) =>
      if s.firing {
        if returnedFalse && s.options.stopOnFalse {
          FinishRemembers(s.(memory := None));
        } else {
          LoopRemembers(s.(firingIndex := s.firingIndex + 1));
        }
      }
  }

  lemma {:induction false} RunRemembers<F>(options: Options, ops: seq<Op<F>>)
    requires Undisturbed(ops) && NeverEmptied(ops)
    ensures var s := Run(New<F>(options), ops).0;
      s.options == options && Remembering(s) && (s.fired <==> Asked(ops) != [])
  {
    if ops != [] {
      var l := |ops| - 1;
      RunRemembers(options, ops[..l]);
      StepRemembers(Run(New<F>(options), ops[..l]).0, ops[l]);
      StepOptions(Run(New<F>(options), ops[..l]).0, ops[l]);
    }
  }

  // Adding to a list at rest begins a firing exactly if the list has the memory option and has been fired.
  lemma RepeatsExactly<F>(options: Options, ops: seq<Op<F>>, fns: seq<F>)
    requires Undisturbed(ops) && NeverEmptied(ops) && !options.stopOnFalse && !Run(New<F>(options), ops).0.firing
    ensures Step(Run(New<F>(options), ops).0, DoAdd(fns)).1 != [] <==> options.memory && Asked(ops) != []
  {
    RunRemembers(options, ops);
  }

  // After its firing a list is gone exactly if it fires once only and remembers nothing.
  lemma GoneExactly<F>(options: Options, ops: seq<Op<F>>)
    requires Undisturbed(ops) && NeverEmptied(ops) && !options.stopOnFalse && !Run(New<F>(options), ops).0.firing
    ensures Run(New<F>(options), ops).0.list.None? <==> options.once && !options.memory && Asked(ops) != []
  {
    RunRemembers(options, ops);
  }

  // ---------------------------------------------------------------- adding

  ghost predicate Lists<F>(list: seq<Entry<F>>, fn: F) {
    exists i :: 0 <= i < |list| && list[i].fn == fn
  }

  ghost predicate NoFunctionTwice<F>(list: seq<Entry<F>>) {
    forall i, j :: 0 <= i < j < |list| ==> list[i].fn != list[j].fn
  }

  // Added functions go to the end of the list in their order; on a unique list only those that are not there yet.
  lemma {:induction false} AddedAtTheEnd<F>(unique: bool, list: seq<Entry<F>>, fns: seq<F>, reg: nat)
    ensures var list' := Appended(unique, list, fns, reg);
      && list <= list'
      && (!unique ==> |list'| == |list| + |fns| && forall i :: 0 <= i < |fns| ==> list'[|list| + i].fn == fns[i])
      && (unique && NoFunctionTwice(list) ==>
            NoFunctionTwice(list') && forall fn :: Lists(list', fn) <==> Lists(list, fn) || fn in fns)
  {
    if fns != [] {
      var l := |fns| - 1;
      AddedAtTheEnd(unique, list, fns[..l], reg);
      var before := Appended(unique, list, fns[..l], reg);
      var after := Appended(unique, list, fns, reg);
      if unique && NoFunctionTwice(list) {
        forall fn
          ensures Lists(after, fn) <==> Lists(before, fn) || fn == fns[l]
        {
          if after != before {
            assert after[|before|].fn == fns[l];
            assert forall i :: 0 <= i < |before| ==> after[i] == before[i];
          }
        }
        assert fns == fns[..l] + [fns[l]];
      }
    }
  }

  lemma {:induction false} WithoutUnique<F>(list: seq<Entry<F>>, fn: F)
    requires NoFunctionTwice(list)
    ensures NoFunctionTwice(Without(list, fn))
  {
    if list != [] {
      var l := |list| - 1;
      WithoutUnique(list[..l], fn);
      var before := Without(list[..l], fn);
      forall i | 0 <= i < |before|
        ensures before[i].fn != list[l].fn
      {
        WithoutFrom(list[..l], fn, before, i);
      }
    }
  }

  // Firing lists nothing: the list stays, or all of it goes.
  ghost predicate KeepsList<F>(s: State<F>, s': State<F>) {
    s'.list == s.list || s'.list == None || s'.list == Some([])
  }

  lemma LoopKeepsList<F>(s: State<F>)
    ensures KeepsList(s, Loop(s).0)
    decreases Pending(s), 1
  {
    if !(s.list.Some? && s.firingIndex < s.firingLength) {
      FinishKeepsList(s);
    }
  }

  lemma FinishKeepsList<F>(s: State<F>)
    ensures KeepsList(s, Finish(s).0)
    decreases Pending(s), 0
  {
    if s.list.Some? && s.stack.Some? && s.stack.value != [] {
      BeginKeepsList(s.(firing := false, stack := Some(s.stack.value[1..])), s.stack.value[0]);
    }
  }

  lemma BeginKeepsList<F>(s: State<F>, data: Data)
    requires s.list.Some?
    ensures KeepsList(s, Begin(s, data).0)
    decreases Pending(s), 2
  {
    LoopKeepsList(s.(memory := if s.options.memory then Some(data) else None, fired := true,
                     firingIndex := s.firingStart, firingStart := 0, firingLength := |s.list.value|, firing := true,
                     data := data));
  }

  lemma {:induction false} RemoveUnique<F>(s: State<F>, fns: seq<F>)
    requires s.list.Some? ==> NoFunctionTwice(s.list.value)
    ensures Remove(s, fns).list.Some? ==> NoFunctionTwice(Remove(s, fns).list.value)
  {
    if s.list.Some? && fns != [] {
      RemoveUnique(s, fns[..|fns| - 1]);
      RemoveOptions(s, fns[..|fns| - 1]);
      WithoutUnique(Remove(s, fns[..|fns| - 1]).list.value, fns[|fns| - 1]);
    }
  }

  // A unique list never lists a function twice.
  lemma {:induction false} UniqueForGood<F>(options: Options, ops: seq<Op<F>>)
    requires options.unique
    ensures var s := Run(New<F>(options), ops).0; s.list.Some? ==> NoFunctionTwice(s.list.value)
  {
    if ops != [] {
      var l := |ops| - 1;
      UniqueForGood(options, ops[..l]);
      OptionsStay(New<F>(options), ops[..l]);
      var s := Run(New<F>(options), ops[..l]).0;
      match ops[l]
      case DoAdd(fns) =>
        if s.list.Some? {
          AddedAtTheEnd(true, s.list.value, fns, s.nextReg);
          var s1 := s.(list := Some(Appended(true, s.list.value, fns, s.nextReg)), nextReg := s.nextReg + |fns|,
                       firingStart := |s.list.value|);
          if s.memory.Some? {
            BeginKeepsList(s1, s.memory.value);
          }
        }
      case DoRemove(fns) => RemoveUnique(s, fns);
      case DoFire(data) =>
        if s.list.Some? {
          BeginKeepsList(s, data);
        }
      case DoReturn(returnedFalse) =>
        FinishKeepsList(s.(memory := None));
        LoopKeepsList(s.(firingIndex := s.firingIndex + 1));
      case _ =>
    }
  }

  // Adding to a list that remembers and does not fire begins a firing with what was fired last, on the new callbacks
  // only; adding while it fires, or when there is nothing to remember, begins nothing.
  lemma MemoryIsRepeated<F>(s: State<F>, w: Watch, fns: seq<F>)
    requires Good(s, w) && s.list.Some?
    ensures var es, list' := Add(s, fns).1, Appended(s.options.unique, s.list.value, fns, s.nextReg);
      if !s.firing && s.memory.Some? then
        && es != [] && es[0].Began? && es[0].data == w.data
        && forall e :: e in list' ==> (e.reg >= es[0].from <==> e !in s.list.value)
      else es == []
  {
    AppendedFacts(s.options.unique, s.list.value, fns, s.nextReg);
    var list, list' := s.list.value, Appended(s.options.unique, s.list.value, fns, s.nextReg);
    if !s.firing && s.memory.Some? {
      var from := if |list| < |list'| then list'[|list|].reg else s.nextReg + |fns|;
      assert Add(s, fns).1[0] == Began(from, s.memory.value);
      forall i | 0 <= i < |list'|
        ensures list'[i].reg >= from <==> list'[i] !in list
      {
        if i < |list| {
          assert list'[i] == list[i];
        } else {
          assert forall j :: 0 <= j < |list| ==> list[j].reg < s.nextReg;
        }
      }
    }
  }
}
