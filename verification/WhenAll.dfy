// Waiting for several deferreds at once: the master that `when` makes of its arguments.
module WhenAll {
  import opened Prelude
  import opened Callbacks
  import opened Deferreds

  // An argument is a value of any kind or one that has a promise; `self` is the promise as a value.
  datatype Arg = Settled(value: Value) | Promise(id: nat, self: Value)

  // The variables of a call of `when` and what its callbacks have seen.  `outcomes` says how promises have
  // been settled, `order` which arguments' done or fail callbacks have been called so far, and `master` what
  // has been done to the deferred that is returned.
  datatype Waiting = Waiting(
    args: seq<Arg>,
    i: nat, finished: bool, remaining: int,
    resolveContexts: seq<Value>, resolveValues: seq<Value>,
    progressContexts: seq<Value>, progressValues: seq<Value>,
    outcomes: map<nat, (Which, Data)>, order: seq<nat>, master: seq<Move>)

  function Blank(n: nat): (vs: seq<Value>)
    ensures |vs| == n && forall k :: 0 <= k < n ==> vs[k] == Undefined
  {
    seq(n, k => Undefined)
  }

  function AsValue(a: Arg): Value {
    match a case Settled(v) => v case Promise(_, self) => self
  }

  function AsValues(args: seq<Arg>): (vs: seq<Value>)
    ensures |vs| == |args| && forall k :: 0 <= k < |args| ==> vs[k] == AsValue(args[k])
  {
    seq(|args|, k requires 0 <= k < |args| => AsValue(args[k]))
  }

  // A call with a single promise returns that promise and waits for nothing; with fewer than two arguments
  // the loop is skipped.
  predicate HasMaster(args: seq<Arg>) {
    !(|args| == 1 && args[0].Promise?)
  }

  function Start(args: seq<Arg>): Waiting
    requires HasMaster(args)
  {
    var n := |args|;
    Waiting(args, if n > 1 then 0 else n, false, if n == 1 then 0 else n,
            Blank(n), AsValues(args), Blank(n), Blank(n), map[], [], [])
  }

  // What a callback makes of its arguments: the only one, or the array of them.
  function Passed(args: seq<Value>): Value {
    if |args| > 1 then Items(args) else if |args| == 1 then args[0] else Undefined
  }

  function Contexts(n: nat, contexts: seq<Value>): Value {
    if n > 1 then Items(contexts) else Undefined
  }

  function ResolveMaster(w: Waiting): Waiting {
    w.(master := w.master + [FireList(Done, Data(Contexts(|w.args|, w.resolveContexts), w.resolveValues))])
  }

  // A promise is settled; the loop comes to its next argument; the loop has ended; the done or fail callback
  // of an argument is called; its progress callback is; something else happens to the master.
  datatype Happening =
    | Settle(id: nat, which: Which, data: Data)
    | NextArgument
    | Finish
    | SettledCalled(k: nat)
    | ProgressCalled(k: nat, data: Data)
    | MasterMove(m: Move)

  // The callbacks of an argument are there from when the loop has come to it.
  predicate Listening(w: Waiting, k: nat) {
    k < w.i && k < |w.args| && w.args[k].Promise?
  }

  predicate MayCall(w: Waiting, k: nat) {
    Listening(w, k) && k !in w.order && w.args[k].id in w.outcomes
  }

  function CountedOff(w: Waiting, k: nat, data: Data): Waiting
    requires k < |w.resolveContexts| == |w.resolveValues|
  {
    w.(order := w.order + [k], remaining := w.remaining - 1,
       resolveContexts := w.resolveContexts[k := data.context],
           resolveValues := w.resolveValues[k := Passed(data.args)])
  }

  // There is a slot of each kind for every argument.
  predicate Sized(w: Waiting) {
    |w.resolveContexts| == |w.resolveValues| == |w.progressContexts| == |w.progressValues| == |w.args|
  }

  function Happens(w: Waiting, h: Happening): (w': Waiting)
    requires Sized(w)
    ensures Sized(w') && w'.args == w.args
  {
    match h
    case Settle(id, which, data) =>
      if id in w.outcomes || which.Progress? then w else w.(outcomes := w.outcomes[id := (which, data)])
    case NextArgument =>
      if w.i >= |w.args| then w
      else if w.args[w.i].Promise? then w.(i := w.i + 1)
      else w.(i := w.i + 1, remaining := w.remaining - 1)
    case Finish =>
      if w.i < |w.args| || w.finished then w
      else if w.remaining == 0 then ResolveMaster(w.(finished := true))
      else w.(finished := true)
    case SettledCalled(k) =>
      if !MayCall(w, k) then w
      else
        var (which, data) := w.outcomes[w.args[k].id];
        if which.Done? then
          var w1 := CountedOff(w, k, data);
          if w1.remaining == 0 then ResolveMaster(w1) else w1
        else w.(order := w.order + [k], master := w.master + [FireList(Fail, data)])
    case ProgressCalled(k, data) =>
      if !Listening(w, k) then w
      else
        var contexts, values := w.progressContexts[k := data.context], w.progressValues[k := Passed(data.args)];
        w.(progressContexts := contexts, progressValues := values,
           master := w.master + [FireList(Progress, Data(Items(contexts), values))])
    case MasterMove(m) =>
      if m.FireList? then w else w.(master := w.master + [m])
  }

  // ---------------------------------------------------------------- what is to come of it

  // An argument needs no more waiting for.
  ghost predicate Complete(w: Waiting, k: nat)
    requires k < |w.args|
  {
    k < w.i && (w.args[k].Settled? ||
        (k in w.order && w.args[k].id in w.outcomes && w.outcomes[w.args[k].id].0 == Done))
  }

  ghost predicate AllComplete(w: Waiting) {
    forall k :: 0 <= k < |w.args| ==> Complete(w, k)
  }

  ghost predicate Failed(w: Waiting, k: nat) {
    k < |w.args| && w.args[k].Promise? && w.args[k].id in w.outcomes && w.outcomes[w.args[k].id].0 == Fail
  }

  // The first argument whose fail callback was called.
  ghost function FirstFailed(w: Waiting, order: seq<nat>): (r: Option<nat>)
    ensures r.Some? ==> Failed(w, r.value) && r.value in order
    ensures r.None? ==> forall k :: k in order ==> !Failed(w, k)
  {
    if order == [] then None
    else
      var l := |order| - 1;
      var before := FirstFailed(w, order[..l]);
      if before.None? && Failed(w, order[l]) then Some(order[l]) else before
  }

  // What is to stand in a slot once its argument is complete.
  ghost function SlotValue(w: Waiting, k: nat): Value
    requires k < |w.args|
  {
    match w.args[k]
    case Settled(v) => v
    case Promise(id, self) => if Complete(w, k) then Passed(w.outcomes[id].1.args) else self
  }

  ghost function SlotContext(w: Waiting, k: nat): Value
    requires k < |w.args|
  {
    if w.args[k].Promise? && Complete(w, k) then w.outcomes[w.args[k].id].1.context else Undefined
  }

  ghost function SlotValues(w: Waiting): (vs: seq<Value>)
    ensures |vs| == |w.args| && forall k :: 0 <= k < |w.args| ==> vs[k] == SlotValue(w, k)
  {
    seq(|w.args|, k requires 0 <= k < |w.args| => SlotValue(w, k))
  }

  ghost function SlotContexts(w: Waiting): (vs: seq<Value>)
    ensures |vs| == |w.args| && forall k :: 0 <= k < |w.args| ==> vs[k] == SlotContext(w, k)
  {
    seq(|w.args|, k requires 0 <= k < |w.args| => SlotContext(w, k))
  }

  // How the master is to be settled: as the first argument that failed, or else, when all are complete, with
  // all values and contexts, each in its argument's place.
  ghost function Verdict(w: Waiting): Option<(Which, Data)> {
    match FirstFailed(w, w.order)
    case Some(k) => Some((Fail, w.outcomes[w.args[k].id].1))
    case None =>
      if AllComplete(w) then Some((Done, Data(Contexts(|w.args|, SlotContexts(w)), SlotValues(w)))) else None
  }

  // ---------------------------------------------------------------- counting

  ghost function Open(flags: seq<bool>): nat {
    if flags == [] then 0 else Open(flags[..|flags| - 1]) + if flags[|flags| - 1] then 0 else 1
  }

  lemma {:induction false} OpenNone(flags: seq<bool>)
    ensures Open(flags) == 0 <==> forall k :: 0 <= k < |flags| ==> flags[k]
  {
    if flags != [] {
      var l := |flags| - 1;
      OpenNone(flags[..l]);
      assert forall k :: 0 <= k < l ==> flags[..l][k] == flags[k];
    }
  }

  lemma {:induction false} OpenClosed(flags: seq<bool>, k: nat)
    requires k < |flags| && !flags[k]
    ensures Open(flags[k := true]) == Open(flags) - 1
  {
    var l := |flags| - 1;
    if k == l {
      assert flags[k := true][..l] == flags[..l];
    } else {
      OpenClosed(flags[..l], k);
      assert flags[k := true][..l] == flags[..l][k := true];
    }
  }

  lemma {:induction false} OpenAll(flags: seq<bool>)
    requires forall k :: 0 <= k < |flags| ==> !flags[k]
    ensures Open(flags) == |flags|
  {
    if flags != [] {
      OpenAll(flags[..|flags| - 1]);
    }
  }

  ghost function Flags(w: Waiting): (flags: seq<bool>)
    ensures |flags| == |w.args| && forall k :: 0 <= k < |w.args| ==> flags[k] == Complete(w, k)
  {
    seq(|w.args|, k requires 0 <= k < |w.args| => Complete(w, k))
  }

  // ---------------------------------------------------------------- the invariant

  ghost predicate Slots(w: Waiting) {
    && Sized(w)
    && w.resolveValues == SlotValues(w) && w.resolveContexts == SlotContexts(w)
  }

  ghost predicate CalledOnce(w: Waiting) {
    && (forall j :: 0 <= j < |w.order| ==> Listening(w, w.order[j]) && w.args[w.order[j]].id in w.outcomes)
    && (forall id :: id in w.outcomes ==> !w.outcomes[id].0.Progress?)
    && forall j, l :: 0 <= j < l < |w.order| ==> w.order[j] != w.order[l]
  }

  ghost predicate Counted(w: Waiting) {
    && HasMaster(w.args) && w.i <= |w.args| && (w.finished ==> w.i == |w.args|)
    && Slots(w) && CalledOnce(w)
    && w.remaining == Open(Flags(w))
  }

  ghost predicate WaitingInv(w: Waiting) {
    && Counted(w)
    && (FirstSettle(w.master) == Verdict(w) || (FirstSettle(w.master).None? && !w.finished && AllComplete(w)))
  }

  lemma {:induction false} FailedSame(w: Waiting, w': Waiting, order: seq<nat>)
    requires forall k :: k in order ==> (Failed(w, k) <==> Failed(w', k))
    ensures FirstFailed(w, order) == FirstFailed(w', order)
  {
    if order != [] {
      FailedSame(w, w', order[..|order| - 1]);
    }
  }

  lemma FailedNext(w: Waiting, order: seq<nat>, k: nat)
    ensures FirstFailed(w, order + [k]) ==
            (if FirstFailed(w, order).Some? then FirstFailed(w, order) else if Failed(w, k) then Some(k) else None)
  {
    assert (order + [k])[..|order|] == order;
  }

  lemma SettleNext(moves: seq<Move>, m: Move)
    ensures FirstSettle(moves + [m]) ==
            (if FirstSettle(moves).None? && m.FireList? && !m.which.Progress? then Some((m.which, m.data))
                else FirstSettle(moves))
  {
    assert (moves + [m])[..|moves|] == moves;
  }

  // Nothing has changed that the verdict looks at.
  ghost predicate Alike(w: Waiting, w': Waiting) {
    && w'.args == w.args && w'.order == w.order
    && (forall k :: 0 <= k < |w.args| ==> (Complete(w', k) <==> Complete(w, k)))
    && (forall k :: k in w.order ==> k < |w.args| && w.args[k].Promise? && w.args[k].id in w.outcomes
                                     && w.args[k].id in w'.outcomes
                                     && w'.outcomes[w.args[k].id] == w.outcomes[w.args[k].id])
  }

  lemma AlikeVerdict(w: Waiting, w': Waiting)
    requires Alike(w, w')
    ensures Verdict(w') == Verdict(w) && Flags(w') == Flags(w) && SlotValues(w') == SlotValues(w)
            && SlotContexts(w') == SlotContexts(w)
    ensures AllComplete(w') <==> AllComplete(w)
  {
    FailedSame(w, w', w.order);
    forall k | 0 <= k < |w.args|
      ensures SlotValue(w', k) == SlotValue(w, k) && SlotContext(w', k) == SlotContext(w, k)
    {
      assert Complete(w', k) <==> Complete(w, k);
    }
    if AllComplete(w) {
      forall k | 0 <= k < |w.args|
        ensures Complete(w', k)
      {
        assert Complete(w, k);
      }
    }
    if AllComplete(w') {
      forall k | 0 <= k < |w.args|
        ensures Complete(w, k)
      {
        assert Complete(w', k);
      }
    }
    assert SlotValues(w') == SlotValues(w) && SlotContexts(w') == SlotContexts(w);
    assert Flags(w') == Flags(w);
  }

  lemma StartInv(args: seq<Arg>)
    requires HasMaster(args)
    ensures WaitingInv(Start(args))
  {
    var w := Start(args);
    assert SlotValues(w) == w.resolveValues;
    assert SlotContexts(w) == w.resolveContexts;
    if |args| > 1 {
      OpenAll(Flags(w));
      assert !Complete(w, 0);
    } else {
      OpenNone(Flags(w));
    }
  }

  lemma SettleInv(w: Waiting, id: nat, which: Which, data: Data)
    requires WaitingInv(w)
    ensures WaitingInv(Happens(w, Settle(id, which, data)))
  {
    AlikeVerdict(w, Happens(w, Settle(id, which, data)));
  }

  // When all are complete, none that was called has failed.
  lemma NoneFailed(w: Waiting)
    requires CalledOnce(w) && AllComplete(w)
    ensures FirstFailed(w, w.order).None?
  {
    forall k | k in w.order
      ensures !Failed(w, k)
    {
      var j :| 0 <= j < |w.order| && w.order[j] == k;
      assert Listening(w, w.order[j]) && Complete(w, k);
    }
  }

  lemma AllCompleteWhen(w: Waiting)
    ensures Open(Flags(w)) == 0 <==> AllComplete(w)
  {
    OpenNone(Flags(w));
    if AllComplete(w) {
      forall k | 0 <= k < |w.args|
        ensures Flags(w)[k]
      {
        assert Complete(w, k);
      }
    } else {
      var k :| 0 <= k < |w.args| && !Complete(w, k);
      assert !Flags(w)[k];
    }
  }

  lemma NextArgumentInv(w: Waiting)
    requires WaitingInv(w)
    ensures WaitingInv(Happens(w, NextArgument))
  {
    var w' := Happens(w, NextArgument);
    if w.i < |w.args| {
      assert !Complete(w, w.i);
      if w.args[w.i].Promise? {
        AlikeVerdict(w, w');
      } else {
        FailedSame(w, w', w.order);
        OpenClosed(Flags(w), w.i);
        assert Flags(w') == Flags(w)[w.i := true];
        assert SlotValues(w') == SlotValues(w) && SlotContexts(w') == SlotContexts(w);
      }
    }
  }

  // The master, which nobody has settled, is resolved when nothing remains.
  lemma ResolvedInv(w: Waiting, w': Waiting)
    requires Counted(w) && w.remaining == 0 && FirstSettle(w.master).None? && w' == ResolveMaster(w)
    ensures WaitingInv(w')
  {
    AllCompleteWhen(w);
    NoneFailed(w);
    AlikeVerdict(w, w');
    SettleNext(w.master, FireList(Done, Data(Contexts(|w.args|, w.resolveContexts), w.resolveValues)));
  }

  lemma FinishInv(w: Waiting)
    requires WaitingInv(w)
    ensures WaitingInv(Happens(w, Finish))
  {
    var w' := Happens(w, Finish);
    AlikeVerdict(w, w');
    AllCompleteWhen(w);
    if w.i >= |w.args| && !w.finished && w.remaining == 0 {
      NoneFailed(w);
      SettleNext(w.master, FireList(Done, Data(Contexts(|w.args|, w.resolveContexts), w.resolveValues)));
    }
  }

  // The done callback of an argument: the argument is complete now, ...
  lemma CompletesOne(w: Waiting, k: nat, w': Waiting)
    requires WaitingInv(w) && MayCall(w, k) && w.outcomes[w.args[k].id].0 == Done
    requires w' == CountedOff(w, k, w.outcomes[w.args[k].id].1)
    ensures !Complete(w, k) && forall j :: 0 <= j < |w.args| ==> (Complete(w', j) <==> Complete(w, j) || j == k)
  {
  }

  // ... its slots are filled and it is counted off; ...
  lemma CountedOffKeeps(w: Waiting, k: nat, w': Waiting)
    requires WaitingInv(w) && MayCall(w, k) && w.outcomes[w.args[k].id].0 == Done
    requires w' == CountedOff(w, k, w.outcomes[w.args[k].id].1)
    ensures Counted(w')
  {
    CompletesOne(w, k, w');
    OpenClosed(Flags(w), k);
    assert Flags(w') == Flags(w)[k := true];
    assert SlotValues(w') == w'.resolveValues;
    assert SlotContexts(w') == w'.resolveContexts;
  }

  lemma CountedOffVerdict(w: Waiting, k: nat, w': Waiting)
    requires WaitingInv(w) && MayCall(w, k) && w.outcomes[w.args[k].id].0 == Done
    requires w' == CountedOff(w, k, w.outcomes[w.args[k].id].1)
    ensures FirstFailed(w', w'.order) == FirstFailed(w, w.order) && !AllComplete(w)
    ensures FirstSettle(w.master) == Verdict(w)
  {
    CompletesOne(w, k, w');
    FailedSame(w, w', w.order);
    FailedNext(w', w.order, k);
  }

  // ... if it was the last, the master is resolved.
  lemma DoneCalledInv(w: Waiting, k: nat, w': Waiting)
    requires WaitingInv(w) && MayCall(w, k) && w.outcomes[w.args[k].id].0 == Done
    requires w' == Happens(w, SettledCalled(k))
    ensures WaitingInv(w') && w'.args == w.args
  {
    var w1 := CountedOff(w, k, w.outcomes[w.args[k].id].1);
    CountedOffKeeps(w, k, w1);
    CountedOffVerdict(w, k, w1);
    AllCompleteWhen(w1);
    if w1.remaining == 0 {
      NoneFailed(w1);
      ResolvedInv(w1, w');
    }
  }

  // The fail callback of an argument: the master is rejected, unless it was before.
  lemma FailCalledInv(w: Waiting, k: nat, w': Waiting)
    requires WaitingInv(w) && MayCall(w, k) && w.outcomes[w.args[k].id].0 == Fail
    requires w' == Happens(w, SettledCalled(k))
    ensures WaitingInv(w') && w'.args == w.args
  {
    assert !Complete(w, k) && !Complete(w', k);
    FailedSame(w, w', w.order);
    FailedNext(w', w.order, k);
    SettleNext(w.master, FireList(Fail, w.outcomes[w.args[k].id].1));
    assert FirstSettle(w.master) == Verdict(w);
    assert forall j :: 0 <= j < |w.args| ==> Flags(w')[j] == Flags(w)[j];
    assert Flags(w') == Flags(w);
    assert SlotValues(w') == SlotValues(w) && SlotContexts(w') == SlotContexts(w);
  }

  // Progress, and what else happens to the master, settles nothing.
  lemma AsideInv(w: Waiting, m: Move, contexts: seq<Value>, values: seq<Value>, w': Waiting)
    requires WaitingInv(w) && (m.FireList? ==> m.which.Progress?) && |contexts| == |values| == |w.args|
    requires w' == w.(progressContexts := contexts, progressValues := values, master := w.master + [m])
    ensures WaitingInv(w') && w'.args == w.args
  {
    AlikeVerdict(w, w');
    SettleNext(w.master, m);
  }

  lemma HappensInv(w: Waiting, h: Happening, w': Waiting)
    requires WaitingInv(w) && w' == Happens(w, h)
    ensures WaitingInv(w') && w'.args == w.args
  {
    match h
    case Settle(id, which, data) => SettleInv(w, id, which, data);
    case NextArgument => NextArgumentInv(w);
    case Finish => FinishInv(w);
    case SettledCalled(k) =>
      if MayCall(w, k) {
        if w.outcomes[w.args[k].id].0 == Done {
          DoneCalledInv(w, k, w');
        } else {
          FailCalledInv(w, k, w');
        }
      }
    case ProgressCalled(k, data) =>
      if Listening(w, k) {
        var m := FireList(Progress, Data(Items(w'.progressContexts), w'.progressValues));
        AsideInv(w, m, w'.progressContexts, w'.progressValues, w');
      }
    case MasterMove(m) =>
      if !m.FireList? {
        AsideInv(w, m, w.progressContexts, w.progressValues, w');
      }
  }

  // ---------------------------------------------------------------- runs

  function AfterAll(args: seq<Arg>, hs: seq<Happening>): (w: Waiting)
    requires HasMaster(args)
    ensures w.args == args && Sized(w)
  {
    if hs == [] then Start(args) else Happens(AfterAll(args, hs[..|hs| - 1]), hs[|hs| - 1])
  }

  lemma {:induction false} EveryRunKeepsCount(args: seq<Arg>, hs: seq<Happening>)
    requires HasMaster(args)
    ensures WaitingInv(AfterAll(args, hs))
  {
    if hs == [] {
      StartInv(args);
    } else {
      EveryRunKeepsCount(args, hs[..|hs| - 1]);
      HappensInv(AfterAll(args, hs[..|hs| - 1]), hs[|hs| - 1], AfterAll(args, hs));
    }
  }

  // Over every run, in whatever order the promises are settled and their callbacks called, also while the
  // loop is still going on: the counter is the number of arguments that are not complete, ...
  lemma CounterCounts(args: seq<Arg>, hs: seq<Happening>)
    requires HasMaster(args)
    ensures var w := AfterAll(args, hs); w.remaining == Open(Flags(w)) && (w.remaining == 0 <==> AllComplete(w))
  {
    EveryRunKeepsCount(args, hs);
    AllCompleteWhen(AfterAll(args, hs));
  }

  // ... and once the loop is over, what the master has been told first is the verdict: as the first argument
  // that failed, with what that was rejected with, or, exactly when all are resolved, with all values in
  // their places, or nothing yet.
  lemma MasterFollows(args: seq<Arg>, hs: seq<Happening>)
    requires HasMaster(args)
    ensures var w := AfterAll(args, hs);
      && (w.finished ==> FirstSettle(w.master) == Verdict(w))
      && (FirstSettle(w.master).Some? ==> FirstSettle(w.master) == Verdict(w))
  {
    EveryRunKeepsCount(args, hs);
  }

  // So, when nothing runs any more in the master: it is resolved if and only if all arguments are, rejected
  // if and only if one has failed, and all callbacks registered with it have been called accordingly.
  lemma MasterIsSettled(args: seq<Arg>, hs: seq<Happening>)
    requires HasMaster(args)
    ensures var w := AfterAll(args, hs); var d := After(w.master);
      w.finished && d.frames == [] ==>
        && (d.status == Resolved <==> AllComplete(w))
        && (d.status == Rejected <==> exists k :: k in w.order && Failed(w, k))
        && (Verdict(w).None? ==> d.status == Unsettled && d.doneLog == [] && d.failLog == [])
        && (Verdict(w).Some? ==>
              var which, data := Verdict(w).value.0, Verdict(w).value.1;
              Log(d, which) == Calls(data, Registrations(w.master, which)) && Log(d, Other(which)) == [])
  {
    var w := AfterAll(args, hs);
    EveryRunKeepsCount(args, hs);
    SettledForGood(w.master);
    if AllComplete(w) {
      NoneFailed(w);
    }
  }

  // If every promise has been settled and has called back, the master is resolved or rejected.
  lemma NothingIsLeftOpen(args: seq<Arg>, hs: seq<Happening>)
    requires HasMaster(args)
    requires var w := AfterAll(args, hs); w.finished && forall k :: 0 <= k < |args| && args[k].Promise? ==> k in w.order
    ensures var w := AfterAll(args, hs); FirstSettle(w.master).Some?
  {
    var w := AfterAll(args, hs);
    EveryRunKeepsCount(args, hs);
    if FirstFailed(w, w.order).None? {
      forall k | 0 <= k < |args|
        ensures Complete(w, k)
      {
        if args[k].Promise? {
          assert k in w.order && !Failed(w, k);
        }
      }
      assert AllComplete(w);
    }
  }

  // ---------------------------------------------------------------- the values, one by one

  // What stands for the arguments that a callback got: the only one, an array of several, or nothing.
  ghost predicate StandsFor(v: Value, args: seq<Value>) {
    && (|args| == 0 ==> v == Undefined)
    && (|args| == 1 ==> v == args[0])
    && (|args| > 1 ==> v == Items(args))
  }

  // How a promise was settled first in what happened.
  ghost function FirstOutcome(hs: seq<Happening>, id: nat): Option<(Which, Data)> {
    if hs == [] then None
    else
      var l := |hs| - 1;
      var before := FirstOutcome(hs[..l], id);
      if before.None? && hs[l].Settle? && hs[l].id == id && !hs[l].which.Progress? then Some((hs[l].which, hs[l].data))
      else before
  }

  lemma {:induction false} OutcomeIsFirst(args: seq<Arg>, hs: seq<Happening>, id: nat)
    requires HasMaster(args)
    ensures var w := AfterAll(args, hs);
      FirstOutcome(hs, id) == if id in w.outcomes then Some(w.outcomes[id]) else None
  {
    if hs != [] {
      OutcomeIsFirst(args, hs[..|hs| - 1], id);
    }
  }

  // If the master is resolved first, it is with one value for every argument, in its place: a plain value as it is,
  // and for a promise what it was resolved with; and with the contexts in the same order, if there are two arguments
  // or more.
  lemma MasterValues(args: seq<Arg>, hs: seq<Happening>, data: Data)
    requires HasMaster(args) && FirstSettle(AfterAll(args, hs).master) == Some((Done, data))
    ensures |data.args| == |args|
    ensures forall k :: 0 <= k < |args| && args[k].Settled? ==> data.args[k] == args[k].value
    ensures forall k :: 0 <= k < |args| && args[k].Promise? ==>
              exists got: Data :: FirstOutcome(hs, args[k].id) == Some((Done, got)) && StandsFor(data.args[k], got.args)
    ensures |args| <= 1 ==> data.context == Undefined
    ensures |args| > 1 ==>
              && data.context.Items? && |data.context.items| == |args|
              && (forall k :: 0 <= k < |args| && args[k].Settled? ==> data.context.items[k] == Undefined)
              && forall k :: 0 <= k < |args| && args[k].Promise? ==>
                   FirstOutcome(hs, args[k].id).Some? &&
                   data.context.items[k] == FirstOutcome(hs, args[k].id).value.1.context
  {
    var w := AfterAll(args, hs);
    EveryRunKeepsCount(args, hs);
    forall k | 0 <= k < |args|
      ensures Complete(w, k)
      ensures args[k].Promise? ==> FirstOutcome(hs, args[k].id) == Some(w.outcomes[args[k].id])
    {
      assert AllComplete(w);
      if args[k].Promise? {
        OutcomeIsFirst(args, hs, args[k].id);
      }
    }
    forall k | 0 <= k < |args| && args[k].Promise?
      ensures exists got: Data :: FirstOutcome(hs, args[k].id) == Some((Done, got)) && StandsFor(data.args[k], got.args)
    {
      assert FirstOutcome(hs, args[k].id) == Some((Done, w.outcomes[args[k].id].1));
    }
  }

  // If it is rejected first, it is with what some argument was rejected with.
  lemma MasterRejected(args: seq<Arg>, hs: seq<Happening>, data: Data)
    requires HasMaster(args) && FirstSettle(AfterAll(args, hs).master) == Some((Fail, data))
    ensures exists k :: 0 <= k < |args| && args[k].Promise? && FirstOutcome(hs, args[k].id) == Some((Fail, data))
  {
    var w := AfterAll(args, hs);
    EveryRunKeepsCount(args, hs);
    var k := FirstFailed(w, w.order).value;
    OutcomeIsFirst(args, hs, args[k].id);
  }

  // The last news of an argument.
  ghost function LastProgress(args: seq<Arg>, hs: seq<Happening>, k: nat): Option<Data>
    requires HasMaster(args)
  {
    if hs == [] then None
    else
      var h := hs[|hs| - 1];
      if h.ProgressCalled? && h.k == k && Listening(AfterAll(args, hs[..|hs| - 1]), k) then Some(h.data)
      else LastProgress(args, hs[..|hs| - 1], k)
  }

  ghost predicate NewsAt(args: seq<Arg>, hs: seq<Happening>, k: nat, context: Value, value: Value)
    requires HasMaster(args)
  {
    match LastProgress(args, hs, k)
    case None => context == Undefined && value == Undefined
    case Some(data) => context == data.context && StandsFor(value, data.args)
  }

  lemma {:induction false} ProgressSlots(args: seq<Arg>, hs: seq<Happening>, k: nat)
    requires HasMaster(args) && k < |args|
    ensures var w := AfterAll(args, hs); NewsAt(args, hs, k, w.progressContexts[k], w.progressValues[k])
  {
    if hs != [] {
      ProgressSlots(args, hs[..|hs| - 1], k);
    }
  }

  // The news of an argument is passed on to the master at once, with the last news of all others, each in its
  // argument's place.
  lemma ProgressPassedOn(args: seq<Arg>, hs: seq<Happening>, k: nat, data: Data)
    returns (contexts: seq<Value>, values: seq<Value>)
    requires HasMaster(args) && Listening(AfterAll(args, hs), k)
    ensures var hs' := hs + [ProgressCalled(k, data)];
      && AfterAll(args, hs').master == AfterAll(args, hs).master + [FireList(Progress, Data(Items(contexts), values))]
      && |contexts| == |values| == |args| && LastProgress(args, hs', k) == Some(data)
      && forall j :: 0 <= j < |args| ==> NewsAt(args, hs', j, contexts[j], values[j])
  {
    var hs' := hs + [ProgressCalled(k, data)];
    assert hs'[..|hs|] == hs;
    contexts, values := AfterAll(args, hs').progressContexts, AfterAll(args, hs').progressValues;
    forall j | 0 <= j < |args|
      ensures NewsAt(args, hs', j, contexts[j], values[j])
    {
      ProgressSlots(args, hs', j);
    }
  }
}
