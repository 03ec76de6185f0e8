// The callback list as the object it is: variables that its functions update in place.
module CallbackLists {
  import opened Prelude
  import opened Callbacks

  // Splicing out one entry of a function does not change what is left without that function, ...
  lemma {:induction false} SpliceWithout<F>(list: seq<Entry<F>>, fn: F, p: nat)
    requires p < |list| && list[p].fn == fn
    ensures Without(list[..p] + list[p + 1..], fn) == Without(list, fn)
  {
    var l := |list| - 1;
    var spliced := list[..p] + list[p + 1..];
    if p == l {
      assert spliced == list[..l];
    } else {
      SpliceWithout(list[..l], fn, p);
      assert spliced[..l - 1] == list[..l][..p] + list[..l][p + 1..];
    }
  }

  // ... and moves an index by what goes at or before it.
  lemma {:induction false} SpliceCount<F>(list: seq<Entry<F>>, fn: F, p: nat, index: int)
    requires p < |list| && list[p].fn == fn
    ensures CountUpTo(list, fn, index) ==
            CountUpTo(list[..p] + list[p + 1..], fn, if p <= index then index - 1 else index) +
                if p <= index then 1 else 0
  {
    var l := |list| - 1;
    var spliced := list[..p] + list[p + 1..];
    if p == l {
      assert spliced == list[..l];
      CountBeyond(list[..l], fn, index);
    } else {
      SpliceCount(list[..l], fn, p, index);
      assert spliced[..l - 1] == list[..l][..p] + list[..l][p + 1..];
    }
  }

  lemma {:induction false} CountBeyond<F>(list: seq<Entry<F>>, fn: F, index: int)
    ensures index >= |list| ==> CountUpTo(list, fn, index) == CountUpTo(list, fn, index - 1)
  {
    if list != [] {
      CountBeyond(list[..|list| - 1], fn, index);
    }
  }

  lemma {:induction false} WithoutNone<F>(list: seq<Entry<F>>, fn: F, index: int)
    requires forall i :: 0 <= i < |list| ==> list[i].fn != fn
    ensures Without(list, fn) == list && CountUpTo(list, fn, index) == 0
  {
    if list != [] {
      WithoutNone(list[..|list| - 1], fn, index);
    }
  }

  ghost predicate NoneUpTo<F>(list: seq<Entry<F>>, fn: F, n: nat) {
    forall i :: 0 <= i < n && i < |list| ==> list[i].fn != fn
  }

  class CallbackList<F(==)> {
    const options: Options
    var memory: Option<Data>
    var fired: bool
    var firing: bool
    var firingStart: nat
    var firingLength: nat
    var firingIndex: int
    var list: Option<seq<Entry<F>>>
    var stack: Option<seq<Data>>
    var data: Data
    var nextReg: nat
    ghost var events: seq<Event<F>>

    constructor (options: Options)
      ensures Now() == New<F>(options) && events == [] && Valid()
    {
      this.options := options;
      memory, fired, firing, firingStart, firingLength, firingIndex := None, false, false, 0, 0, 0;
      list, stack, data, nextReg := Some([]), if options.once then None else Some([]), Data(Undefined, []), 0;
      events := [];
    }

    ghost function Now(): State<F>
      reads this
    {
      State(options, memory, fired, firing, firingStart, firingLength, firingIndex, list, stack, data, nextReg)
    }

    // All that has happened to the list so far was proper, and no callback is out of turn or missing.
    ghost predicate Valid()
      reads this
    {
      AllProper(UNSEEN, events) && Good(Now(), WatchedAll(UNSEEN, events))
    }

    // What happened since was a step.
    twostate lemma StaysValid(op: Op<F>)
      requires old(Valid()) && (op.DoEmpty? ==> CanEmpty(old(Now()))) && Did(Step(old(Now()), op))
      ensures Valid()
    {
      StepGood(old(Now()), op, WatchedAll(UNSEEN, old(events)));
      WatchedAppend(UNSEEN, old(events), Step(old(Now()), op).1);
    }

    // From here on the operations did what the step function says.
    twostate predicate Did(next: (State<F>, seq<Event<F>>))
      reads this
    {
      Now() == next.0 && events == old(events) + next.1
    }

    // Begins a firing and goes to its first callback.
    method Fire(args: Data)
      requires list.Some?
      modifies this
      ensures Did(Begin(old(Now()), args))
      decreases Pending(Now()), 2
    {
      memory := if options.memory then Some(args) else None;
      fired := true;
      events := events + [Began(if firingStart < |list.value| then list.value[firingStart].reg else nextReg, args)];
      firingIndex := firingStart;
      firingStart := 0;
      firingLength := |list.value|;
      firing := true;
      data := args;
      Continue();
    }

    // The head of the firing loop.  A call of a callback ends here; `Resume` comes back when it returns.
    method Continue()
      modifies this
      ensures Did(Loop(old(Now())))
      decreases Pending(Now()), 1
    {
      if list.Some? && firingIndex < firingLength {
        if 0 <= firingIndex < |list.value| {
          events := events + [Called(list.value[firingIndex], data)];
        } else {
          events := events + [Missing];
        }
      } else {
        events := events + [if list.Some? then Ended(list.value) else Vanished];
        FinishFiring();
      }
    }

    method FinishFiring()
      modifies this
      ensures Did(Finish(old(Now())))
      decreases Pending(Now()), 0
    {
      firing := false;
      if list.Some? {
        if stack.Some? {
          if stack.value != [] {
            var next := stack.value[0];
            stack := Some(stack.value[1..]);
            Fire(next);
          }
        } else if memory.Some? {
          list := Some([]);
        } else {
          SelfDisable();
        }
      }
    }

    method ReturnFromCallback(returnedFalse: bool)
      requires Valid() && firing
      modifies this
      ensures Valid() && Did(Resume(old(Now()), returnedFalse))
    {
      if returnedFalse && options.stopOnFalse {
        memory := None;
        events := events + [Stopped];
        FinishFiring();
      } else {
        firingIndex := firingIndex + 1;
        Continue();
      }
      StaysValid(DoReturn(returnedFalse));
    }

    method SelfDisable()
      modifies this
      ensures Did((Disable(old(Now())), []))
      ensures old(Valid()) ==> Valid()
    {
      list, stack, memory := None, None, None;
    }

    // The object stays valid exactly if the list can be emptied; `EmptyExactly` says what that means for a run.
    method Empty()
      modifies this`list
      ensures Did((Emptied(old(Now())), []))
      ensures old(Valid()) ==> (Valid() <==> CanEmpty(old(Now())))
    {
      list := Some([]);
    }

    method SelfLock()
      requires Valid()
      modifies this
      ensures Valid() && Did((Lock(old(Now())), []))
    {
      stack := None;
      if memory.None? {
        SelfDisable();
      }
    }

    method FireWithArgs(args: Data)
      requires Valid()
      modifies this
      ensures Valid() && Did(FireWith(old(Now()), args))
    {
      if list.Some? && (!fired || stack.Some?) {
        if firing {
          stack := Some(stack.value + [args]);
        } else {
          Fire(args);
        }
      }
      StaysValid(DoFire(args));
    }

    method AddAll(fns: seq<F>)
      requires Valid()
      modifies this
      ensures Valid() && Did(Add(old(Now()), fns))
    {
      if list.Some? {
        var start := |list.value|;
        ghost var list0, reg0 := list.value, nextReg;
        for i := 0 to |fns|
          invariant list == Some(Appended(options.unique, list0, fns[..i], reg0)) && nextReg == reg0 + i
          invariant Now() == old(Now()).(list := list, nextReg := nextReg) && events == old(events)
        {
          assert fns[..i + 1][..i] == fns[..i];
          if !options.unique || !Has(list.value, fns[i]) {
            list := Some(list.value + [Entry(fns[i], nextReg)]);
          }
          nextReg := nextReg + 1;
        }
        assert fns[..|fns|] == fns;
        if firing {
          firingLength := |list.value|;
        } else if memory.Some? {
          firingStart := start;
          Fire(memory.value);
        }
      }
      StaysValid(DoAdd(fns));
    }

    // The first entry of a function from an index on, or -1.
    method InArray(fn: F, from: nat) returns (index: int)
      requires list.Some? && from <= |list.value|
      ensures -1 <= index < |list.value|
      ensures index == -1 ==> forall i :: from <= i < |list.value| ==> list.value[i].fn != fn
      ensures index >= 0 ==>
                && from <= index && list.value[index].fn == fn
                && forall i :: from <= i < index ==> list.value[i].fn != fn
      ensures NoneUpTo(list.value, fn, from) ==> NoneUpTo(list.value, fn, if index == -1 then |list.value| else index)
    {
      index := from;
      while index < |list.value|
        invariant from <= index <= |list.value|
        invariant forall i :: from <= i < index ==> list.value[i].fn != fn
      {
        if list.value[index].fn == fn {
          return;
        }
        index := index + 1;
      }
      index := -1;
    }

    // Takes out every entry of one function, and moves the firing indexes along.
    method RemoveFn(fn: F)
      requires list.Some? && (firing ==> firingLength == |list.value|)
      modifies this
      ensures Did((RemoveOne(old(Now()), fn), []))
      ensures list.Some? && (firing ==> firingLength == |list.value|)
    {
      ghost var list0, index0 := list.value, firingIndex;
      var index := InArray(fn, 0);
      while index > -1
        invariant list.Some? && (firing ==> firingLength == |list.value|)
        invariant Now() == old(Now()).(list := list, firingLength := firingLength, firingIndex := firingIndex) &&
                  events == old(events)
        invariant !firing ==> firingLength == old(firingLength) && firingIndex == index0
        invariant -1 <= index < |list.value|
        invariant if index == -1 then NoneUpTo(list.value, fn, |list.value|)
                  else list.value[index].fn == fn && NoneUpTo(list.value, fn, index)
        invariant Without(list.value, fn) == Without(list0, fn)
        invariant firing ==>
                    firingIndex - CountUpTo(list.value, fn, firingIndex) == index0 - CountUpTo(list0, fn, index0)
        decreases |list.value|
      {
        SpliceWithout(list.value, fn, index);
        SpliceCount(list.value, fn, index, firingIndex);
        list := Some(list.value[..index] + list.value[index + 1..]);
        if firing {
          if index <= firingLength {
            firingLength := firingLength - 1;
          }
          if index <= firingIndex {
            firingIndex := firingIndex - 1;
          }
        }
        index := InArray(fn, index);
      }
      WithoutNone(list.value, fn, firingIndex);
    }

    method RemoveAll(fns: seq<F>)
      requires Valid()
      modifies this
      ensures Valid() && Did((Remove(old(Now()), fns), []))
    {
      if list.Some? {
        for i := 0 to |fns|
          invariant list.Some? && (firing ==> firingLength == |list.value|)
          invariant Did((Remove(old(Now()), fns[..i]), []))
        {
          assert fns[..i + 1][..i] == fns[..i];
          RemoveFn(fns[i]);
        }
        assert fns[..|fns|] == fns;
      }
      StaysValid(DoRemove(fns));
    }
  }
}
