// A deferred: three callback lists tied together, and the call stack of the callbacks that are running.
module Deferreds {
  import opened Prelude
  import opened Callbacks

  datatype Which = Done | Fail | Progress
  datatype Status = Unsettled | Resolved | Rejected

  // What is in the lists: callbacks of the user, numbered as they were registered, and the three that the
  // deferred itself puts first into the done and the fail list.
  datatype Fn = User(which: Which, id: nat) | SetState(to: Status) | DisableList(which: Which) | LockProgress

  // A callback that is running.
  datatype Frame = Frame(which: Which, fn: Fn)

  // A call that a user callback has received.
  datatype Call = Call(id: nat, data: Data)

  datatype Deferred = Deferred(
    done: State<Fn>, fail: State<Fn>, progress: State<Fn>,
    status: Status,
    frames: seq<Frame>,
    doneCount: nat, failCount: nat, progressCount: nat,
    doneLog: seq<Call>, failLog: seq<Call>, progressLog: seq<Call>,
    first: Option<(Which, Data)>)

  const ONCE_MEMORY := Options(true, true, false, false)
  const MEMORY := Options(false, true, false, false)

  function Other(which: Which): Which {
    if which.Done? then Fail else Done
  }

  // The deferred's own callbacks on a list.
  function Own(which: Which): seq<Fn> {
    if which.Progress? then []
      else [SetState(if which.Done? then Resolved else Rejected), DisableList(Other(which)), LockProgress]
  }

  function NewDeferred(): Deferred {
    Deferred(Add(New<Fn>(ONCE_MEMORY), Own(Done)).0, Add(New<Fn>(ONCE_MEMORY), Own(Fail)).0, New<Fn>(MEMORY),
             Unsettled, [], 0, 0, 0, [], [], [], None)
  }

  function List(d: Deferred, which: Which): State<Fn> {
    match which case Done => d.done case Fail => d.fail case Progress => d.progress
  }

  function Count(d: Deferred, which: Which): nat {
    match which case Done => d.doneCount case Fail => d.failCount case Progress => d.progressCount
  }

  function Log(d: Deferred, which: Which): seq<Call> {
    match which case Done => d.doneLog case Fail => d.failLog case Progress => d.progressLog
  }

  function WithList(d: Deferred, which: Which, s: State<Fn>): Deferred {
    match which case Done => d.(done := s) case Fail => d.(fail := s) case Progress => d.(progress := s)
  }

  function WithCall(d: Deferred, which: Which, c: Call): Deferred {
    match which
    case Done => d.(doneLog := d.doneLog + [c])
    case Fail => d.(failLog := d.failLog + [c])
    case Progress => d.(progressLog := d.progressLog + [c])
  }

  function WithCount(d: Deferred, which: Which, n: nat): Deferred {
    match which case Done => d.(doneCount := n) case Fail => d.(failCount := n) case Progress => d.(progressCount := n)
  }

  // A list operation has run; if it ended in the call of a callback, that callback is running now.
  function Entered(d: Deferred, which: Which, r: (State<Fn>, seq<Event<Fn>>)): Deferred {
    var d1 := WithList(d, which, r.0);
    if r.1 != [] && r.1[|r.1| - 1].Called? then
      var e := r.1[|r.1| - 1];
      var d2 := d1.(frames := d1.frames + [Frame(which, e.entry.fn)]);
      if e.entry.fn.User? then WithCall(d2, which, Call(e.entry.fn.id, e.data)) else d2
    else d1
  }

  // The effect of one of the deferred's own callbacks.
  function Effect(d: Deferred, fn: Fn): Deferred {
    match fn
    case User(_, _) => d
    case SetState(to) => d.(status := to)
    case DisableList(which) => WithList(d, which, Disable(List(d, which)))
    case LockProgress => d.(progress := Lock(d.progress))
  }

  // What may happen next.  User code registers callbacks, fires a list, or returns from the callback it
  // runs in; one of the deferred's own callbacks does its work and returns.
  datatype Move = Register(which: Which, n: nat) | FireList(which: Which, data: Data) | Return(returnedFalse: bool)

  function Users(which: Which, lo: nat, n: nat): seq<Fn> {
    if n == 0 then [] else Users(which, lo, n - 1) + [User(which, lo + n - 1)]
  }

  predicate OwnRunning(d: Deferred) {
    d.frames != [] && !d.frames[|d.frames| - 1].fn.User?
  }

  function Registered(d: Deferred, which: Which, n: nat): Deferred {
    Entered(WithCount(d, which, Count(d, which) + n), which, Add(List(d, which), Users(which, Count(d, which), n)))
  }

  function Fired(d: Deferred, which: Which, data: Data): Deferred {
    var d1 := if d.first.None? && !which.Progress? then d.(first := Some((which, data))) else d;
    Entered(d1, which, FireWith(List(d, which), data))
  }

  // The deferred's own callbacks return something other than false.
  function Returned(d: Deferred, returnedFalse: bool): Deferred
    requires d.frames != []
  {
    var top := d.frames[|d.frames| - 1];
    var d1 := Effect(d.(frames := d.frames[..|d.frames| - 1]), top.fn);
    Entered(d1, top.which, Resume(List(d1, top.which), returnedFalse && top.fn.User?))
  }

  function Next(d: Deferred, m: Move): Deferred {
    if m.Return? then if d.frames == [] then d else Returned(d, m.returnedFalse)
    else if OwnRunning(d) then d
    else match m case Register(which, n) => Registered(d, which, n) case FireList(which, data) => Fired(d, which, data)
  }

  function After(moves: seq<Move>): Deferred {
    if moves == [] then NewDeferred() else Next(After(moves[..|moves| - 1]), moves[|moves| - 1])
  }

  // ---------------------------------------------------------------- the lists of a deferred

  ghost function FnsOf(list: seq<Entry<Fn>>): (fns: seq<Fn>)
    ensures |fns| == |list| && forall i :: 0 <= i < |list| ==> fns[i] == list[i].fn
  {
    seq(|list|, i requires 0 <= i < |list| => list[i].fn)
  }

  lemma {:induction false} AppendedFns(list: seq<Entry<Fn>>, fns: seq<Fn>, reg: nat)
    ensures FnsOf(Appended(false, list, fns, reg)) == FnsOf(list) + fns
  {
    if fns == [] {
      assert FnsOf(list) + fns == FnsOf(list);
    } else {
      AppendedFns(list, fns[..|fns| - 1], reg);
      assert fns == fns[..|fns| - 1] + [fns[|fns| - 1]];
      var before := Appended(false, list, fns[..|fns| - 1], reg);
      assert FnsOf(before + [Entry(fns[|fns| - 1], reg + |fns| - 1)]) == FnsOf(before) + [fns[|fns| - 1]];
    }
  }

  lemma {:induction false} UsersAt(which: Which, lo: nat, n: nat)
    ensures |Users(which, lo, n)| == n && forall i :: 0 <= i < n ==> Users(which, lo, n)[i] == User(which, lo + i)
  {
    if n > 0 {
      UsersAt(which, lo, n - 1);
    }
  }

  lemma {:induction false} UsersAppend(which: Which, lo: nat, m: nat, n: nat)
    ensures Users(which, lo, m) + Users(which, lo + m, n) == Users(which, lo, m + n)
  {
    if n > 0 {
      UsersAppend(which, lo, m, n - 1);
    }
  }

  // The calls that the first k callbacks have received, each once, in order, with the same arguments.
  ghost function Calls(data: Data, k: nat): (cs: seq<Call>)
    ensures |cs| == k && forall i :: 0 <= i < k ==> cs[i] == Call(i, data)
  {
    seq(k, i requires 0 <= i < k => Call(i, data))
  }

  // A done or fail list that has not been fired: its own callbacks, then all of the user's.
  ghost predicate Fresh(s: State<Fn>, which: Which, count: nat, log: seq<Call>) {
    && s == s.(options := ONCE_MEMORY, fired := false, firing := false, firingStart := 0, memory := None, stack := None)
    && s.list.Some?
    && FnsOf(s.list.value) == Own(which) + Users(which, 0, count)
    && log == []
  }

  // One that has been disabled before it was ever fired.
  ghost predicate Off(s: State<Fn>, log: seq<Call>) {
    && s == s.(list := None, stack := None, memory := None, firing := false)
    && log == []
  }

  // What is being fired: the first time the list's own callbacks and all registered so far, later the
  // callbacks from number `base` on.
  ghost function Batch(which: Which, own: bool, base: nat, count: nat): seq<Fn>
    requires base <= count
  {
    (if own then Own(which) else []) + Users(which, base, count - base)
  }

  // How many user callbacks have been called when the index-th one of a batch is running.
  ghost function CalledSoFar(own: bool, base: nat, index: int): int {
    if own then (if index < 3 then 0 else index - 2) else base + index + 1
  }

  ghost predicate Active(s: State<Fn>, which: Which, count: nat, log: seq<Call>, data: Data, own: bool, base: nat) {
    && !which.Progress? && base <= count && (own ==> base == 0)
    && s == s.(options := ONCE_MEMORY, fired := true, firing := true, firingStart := 0,
               memory := Some(data), data := data, stack := None)
    && s.list.Some?
    && FnsOf(s.list.value) == Batch(which, own, base, count)
    && 0 <= s.firingIndex < s.firingLength == |s.list.value|
    && log == Calls(data, CalledSoFar(own, base, s.firingIndex))
  }

  // One that has been fired and is not firing: everything registered has been called.
  ghost predicate Rest(s: State<Fn>, count: nat, log: seq<Call>, data: Data) {
    && s == s.(options := ONCE_MEMORY, fired := true, firing := false, firingStart := 0,
               memory := Some(data), stack := None, list := Some([]))
    && log == Calls(data, count)
  }

  ghost predicate EndsInCall<F>(es: seq<Event<F>>) {
    es != [] && es[|es| - 1].Called?
  }

  // The loop of a list that keeps its memory and has no stack.
  lemma LoopCalls(s: State<Fn>)
    requires s.list.Some? && 0 <= s.firingIndex < s.firingLength == |s.list.value|
    ensures Loop(s) == (s, [Called(s.list.value[s.firingIndex], s.data)])
  {
  }

  lemma LoopEnds(s: State<Fn>)
    requires s.list.Some? && s.stack.None? && s.memory.Some? && s.firingIndex >= s.firingLength
    ensures Loop(s) == (s.(firing := false, list := Some([])), [Ended(s.list.value)])
  {
    assert Finish(s) == (s.(firing := false, list := Some([])), []);
    var e: Event<Fn> := Ended(s.list.value);
    assert [e] + [] == [e];
  }

  ghost function Started(s: State<Fn>, data: Data): State<Fn>
    requires s.list.Some?
  {
    s.(memory := if s.options.memory then Some(data) else None, fired := true,
       firingIndex := s.firingStart, firingStart := 0, firingLength := |s.list.value|, firing := true, data := data)
  }

  lemma BeginLoops(s: State<Fn>, data: Data)
    requires s.list.Some?
    ensures Begin(s, data).0 == Loop(Started(s, data)).0
    ensures |Begin(s, data).1| == 1 + |Loop(Started(s, data)).1| && Begin(s, data).1[1..] == Loop(Started(s, data)).1
    ensures Begin(s, data).1[0].Began?
  {
  }

  lemma FreshAdd(s: State<Fn>, which: Which, count: nat, log: seq<Call>, n: nat)
    requires Fresh(s, which, count, log)
    ensures var r := Add(s, Users(which, count, n)); Fresh(r.0, which, count + n, log) && r.1 == []
  {
    AppendedFns(s.list.value, Users(which, count, n), s.nextReg);
    UsersAppend(which, 0, count, n);
    Regrouped(Own(which), Users(which, 0, count), Users(which, count, n));
  }

  lemma Regrouped<T>(a: seq<T>, b: seq<T>, c: seq<T>)
    ensures a + b + c == a + (b + c)
  {
  }

  lemma FreshFire(s: State<Fn>, which: Which, count: nat, log: seq<Call>, data: Data)
    requires Fresh(s, which, count, log) && !which.Progress?
    ensures var r := FireWith(s, data);
      && Active(r.0, which, count, log, data, true, 0) && r.0.firingIndex == 0
      && EndsInCall(r.1) && r.1[|r.1| - 1].entry.fn == Own(which)[0] && r.1[|r.1| - 1].data == data
  {
    assert FnsOf(s.list.value)[0] == Own(which)[0];
    BeginLoops(s, data);
    LoopCalls(Started(s, data));
  }

  lemma ActiveAdd(s: State<Fn>, which: Which, count: nat, log: seq<Call>, data: Data, own: bool, base: nat, n: nat)
    requires Active(s, which, count, log, data, own, base)
    ensures var r := Add(s, Users(which, count, n));
      && Active(r.0, which, count + n, log, data, own, base) && r.0.firingIndex == s.firingIndex && r.1 == []
      && FnsOf(r.0.list.value)[s.firingIndex] == FnsOf(s.list.value)[s.firingIndex]
  {
    var fns := Users(which, count, n);
    AppendedFns(s.list.value, fns, s.nextReg);
    BatchAppend(which, own, base, count, n);
    var list := Appended(false, s.list.value, fns, s.nextReg);
    assert |FnsOf(list)| == |list|;
    assert Add(s, fns) == (s.(list := Some(list), nextReg := s.nextReg + |fns|, firingLength := |list|), []);
  }

  lemma BatchAppend(which: Which, own: bool, base: nat, count: nat, n: nat)
    requires base <= count
    ensures Batch(which, own, base, count) + Users(which, count, n) == Batch(which, own, base, count + n)
  {
    UsersAppend(which, base, count - base, n);
    var first := if own then Own(which) else [];
    Regrouped(first, Users(which, base, count - base), Users(which, count, n));
  }

  // The next callback of the batch, or the end of it.
  ghost predicate Resumed(s: State<Fn>, r: (State<Fn>, seq<Event<Fn>>), which: Which, count: nat, log: seq<Call>,
                          data: Data, own: bool, base: nat)
    requires Active(s, which, count, log, data, own, base)
  {
    var next := s.firingIndex + 1;
    if next < |s.list.value| then
      var fn := FnsOf(s.list.value)[next];
      && r.0 == s.(firingIndex := next)
      && EndsInCall(r.1) && r.1[|r.1| - 1].entry.fn == fn && r.1[|r.1| - 1].data == data
      && Active(r.0, which, count, if fn.User? then log + [Call(fn.id, data)] else log, data, own, base)
    else Rest(r.0, count, log, data) && !EndsInCall(r.1)
  }

  lemma ActiveResume(s: State<Fn>, which: Which, count: nat, log: seq<Call>, data: Data, own: bool, base: nat)
    requires Active(s, which, count, log, data, own, base)
    ensures Resumed(s, Resume(s, false), which, count, log, data, own, base)
  {
    UsersAt(which, base, count - base);
    var batch := Batch(which, own, base, count);
    var s1 := s.(firingIndex := s.firingIndex + 1);
    if s.firingIndex + 1 < |s.list.value| {
      LoopCalls(s1);
      assert FnsOf(s.list.value)[s.firingIndex + 1] == batch[s.firingIndex + 1];
    } else {
      LoopEnds(s1);
      assert |batch| == (if own then 3 else 0) + count - base;
    }
  }

  // What a list at rest makes of n new callbacks.
  ghost predicate RestAdded(r: (State<Fn>, seq<Event<Fn>>), w: Which, count: nat, log: seq<Call>, data: Data, n: nat) {
    if n == 0 then Rest(r.0, count, log, data) && !EndsInCall(r.1)
    else
      && Active(r.0, w, count + n, log + [Call(count, data)], data, false, count) && r.0.firingIndex == 0
      && EndsInCall(r.1) && r.1[|r.1| - 1].entry.fn == User(w, count) && r.1[|r.1| - 1].data == data
  }

  // A list at rest that gets callbacks is fired again at once, on these only.
  lemma RestAdd(s: State<Fn>, which: Which, count: nat, log: seq<Call>, data: Data, n: nat)
    requires Rest(s, count, log, data) && !which.Progress?
    ensures RestAdded(Add(s, Users(which, count, n)), which, count, log, data, n)
  {
    var fns := Users(which, count, n);
    UsersAt(which, count, n);
    var list := Appended(false, s.list.value, fns, s.nextReg);
    var s1 := s.(list := Some(list), nextReg := s.nextReg + |fns|, firingStart := |s.list.value|);
    assert Add(s, fns) == Begin(s1, s.memory.value);
    AppendedFns(s.list.value, fns, s.nextReg);
    assert FnsOf(s.list.value) + fns == fns;
    RestBegins(s1, which, count, log, data, n);
  }

  lemma RestBegins(s: State<Fn>, which: Which, count: nat, log: seq<Call>, data: Data, n: nat)
    requires s.options == ONCE_MEMORY && s.stack.None? && s.firingStart == 0 && !which.Progress?
    requires s.list.Some? && FnsOf(s.list.value) == Users(which, count, n) && log == Calls(data, count)
    ensures RestAdded(Begin(s, data), which, count, log, data, n)
  {
    UsersAt(which, count, n);
    if n > 0 {
      RestCalls(s, which, count, log, data, n);
    } else {
      BeginLoops(s, data);
      LoopEnds(Started(s, data));
    }
  }

  lemma RestCalls(s: State<Fn>, which: Which, count: nat, log: seq<Call>, data: Data, n: nat)
    requires s.options == ONCE_MEMORY && s.stack.None? && s.firingStart == 0 && !which.Progress? && n > 0
    requires s.list.Some? && FnsOf(s.list.value) == Users(which, count, n) && log == Calls(data, count)
    ensures RestAdded(Begin(s, data), which, count, log, data, n)
  {
    UsersAt(which, count, n);
    BeginLoops(s, data);
    LoopCalls(Started(s, data));
    assert FnsOf(s.list.value)[0] == User(which, count);
    assert [] + Users(which, count, n) == Users(which, count, n);
    assert log + [Call(count, data)] == Calls(data, count + 1);
  }

  // ---------------------------------------------------------------- the progress list

  ghost predicate OnlyUsers(list: seq<Entry<Fn>>) {
    forall i :: 0 <= i < |list| ==> list[i].fn.User?
  }

  ghost predicate ProgressList(s: State<Fn>) {
    && s == s.(options := MEMORY, firingStart := 0)
    && (s.list.Some? ==> OnlyUsers(s.list.value))
    && (s.memory.Some? ==> s.fired)
    && (s.firing ==>
          && s.fired && s.list.Some? && s.memory.Some?
          && 0 <= s.firingIndex < s.firingLength == |s.list.value|)
  }

  ghost predicate IsOpen(s: State<Fn>) {
    ProgressList(s) && s.stack.Some? && s.list.Some?
  }

  // Firing a list in this state does nothing.
  ghost predicate IsLocked(s: State<Fn>) {
    ProgressList(s) && s.stack.None? && (s.list.Some? ==> s.memory.Some? && s.fired)
  }

  // An operation kept the list as it was, open or locked, and calls a user callback exactly when it leaves
  // the list firing.
  ghost predicate ProgressDone(s: State<Fn>, r: (State<Fn>, seq<Event<Fn>>)) {
    && (s.stack.Some? ==> IsOpen(r.0)) && (s.stack.None? ==> IsLocked(r.0))
    && (EndsInCall(r.1) <==> r.0.firing)
    && (EndsInCall(r.1) ==> r.1[|r.1| - 1].entry.fn.User?)
  }

  // The same of an operation that may also have found the list firing, and left it at that.
  ghost predicate ProgressStep(s: State<Fn>, r: (State<Fn>, seq<Event<Fn>>)) {
    if s.firing then (if IsOpen(s) then IsOpen(r.0) else IsLocked(r.0)) && r.0.firing && r.1 == []
    else ProgressDone(s, r)
  }

  lemma ProgressLoop(s: State<Fn>)
    requires s.options == MEMORY && s.firingStart == 0 && s.fired && s.firing && s.list.Some? && s.memory.Some?
    requires OnlyUsers(s.list.value) && s.firingLength == |s.list.value| && 0 <= s.firingIndex <= |s.list.value|
    ensures ProgressDone(s, Loop(s))
    decreases Pending(s), 1
  {
    if s.firingIndex < s.firingLength {
      LoopCalls(s);
    } else if s.stack.Some? && s.stack.value != [] {
      var s1 := s.(firing := false, stack := Some(s.stack.value[1..]));
      ProgressBegin(s1, s.stack.value[0]);
      assert Loop(s).1 == [Ended(s.list.value)] + Begin(s1, s.stack.value[0]).1;
    } else {
      var e: Event<Fn> := Ended(s.list.value);
      assert [e] + [] == [e];
      assert Finish(s).1 == [];
    }
  }

  lemma ProgressBegin(s: State<Fn>, data: Data)
    requires s.options == MEMORY && s.list.Some? && OnlyUsers(s.list.value) && s.firingStart <= |s.list.value|
    ensures ProgressDone(s, Begin(s, data))
    decreases Pending(s), 2
  {
    BeginLoops(s, data);
    ProgressLoop(Started(s, data));
    var es := Begin(s, data).1;
    assert es == [es[0]] + es[1..];
  }

  lemma ProgressResume(s: State<Fn>)
    requires ProgressList(s) && s.firing && (IsOpen(s) || IsLocked(s))
    ensures ProgressDone(s, Resume(s, false))
  {
    ProgressLoop(s.(firingIndex := s.firingIndex + 1));
  }

  lemma ProgressFire(s: State<Fn>, data: Data)
    requires IsOpen(s) || IsLocked(s)
    ensures var r := FireWith(s, data);
      if IsLocked(s) then r == (s, [])
      else if s.firing then IsOpen(r.0) && r.0.firing && r.1 == []
      else ProgressDone(s, r)
  {
    if IsOpen(s) && !s.firing {
      ProgressBegin(s, data);
    }
  }

  lemma ProgressAdd(s: State<Fn>, count: nat, n: nat)
    requires IsOpen(s) || IsLocked(s)
    ensures ProgressStep(s, Add(s, Users(Progress, count, n)))
  {
    if s.list.Some? {
      var fns := Users(Progress, count, n);
      AppendedFns(s.list.value, fns, s.nextReg);
      UsersAt(Progress, count, n);
      var list := Appended(false, s.list.value, fns, s.nextReg);
      forall i | 0 <= i < |list|
        ensures list[i].fn.User?
      {
        assert FnsOf(list)[i] == (FnsOf(s.list.value) + fns)[i];
      }
      assert |list| == |s.list.value| + n;
      if !s.firing && s.memory.Some? {
        ProgressBegin(s.(list := Some(list), nextReg := s.nextReg + |fns|, firingStart := |s.list.value|),
            s.memory.value);
      }
    }
  }

  // ---------------------------------------------------------------- the deferred as a whole

  function StatusOf(which: Which): Status {
    match which case Done => Resolved case Fail => Rejected case Progress => Unsettled
  }

  ghost predicate Has(frames: seq<Frame>, which: Which) {
    exists i :: 0 <= i < |frames| && frames[i].which == which
  }

  // A list has a frame, and only one, exactly while it fires; all frames but the top one are the user's.
  ghost predicate FramesFit(d: Deferred) {
    && (forall i, j :: 0 <= i < j < |d.frames| ==> d.frames[i].which != d.frames[j].which)
    && (forall i :: 0 <= i < |d.frames| - 1 ==> d.frames[i].fn.User?)
    && (Has(d.frames, Done) <==> d.done.firing)
    && (Has(d.frames, Fail) <==> d.fail.firing)
    && (Has(d.frames, Progress) <==> d.progress.firing)
  }

  // No list has been fired.
  ghost predicate IsUnsettled(d: Deferred) {
    && d.status == Unsettled && !OwnRunning(d)
    && Fresh(d.done, Done, d.doneCount, d.doneLog) && Fresh(d.fail, Fail, d.failCount, d.failLog)
    && IsOpen(d.progress)
  }

  // The first list to be fired is at its i-th own callback.
  ghost predicate IsSettling(d: Deferred, w: Which, data: Data, i: nat) {
    var o := Other(w);
    && !w.Progress? && i < 3
    && Active(List(d, w), w, Count(d, w), Log(d, w), data, true, 0) && List(d, w).firingIndex == i
    && d.status == (if i == 0 then Unsettled else StatusOf(w))
    && (if i <= 1 then Fresh(List(d, o), o, Count(d, o), Log(d, o)) else Off(List(d, o), Log(d, o)))
    && IsOpen(d.progress)
    && d.frames != [] && d.frames[|d.frames| - 1] == Frame(w, Own(w)[i])
  }

  // The list has been fired with this data, the other one is off, and progress is locked.
  ghost predicate IsSettled(d: Deferred, w: Which, data: Data) {
    var o := Other(w);
    && !w.Progress? && d.status == StatusOf(w) && !OwnRunning(d)
    && Off(List(d, o), Log(d, o)) && IsLocked(d.progress)
    && (Rest(List(d, w), Count(d, w), Log(d, w), data)
        || exists own, base :: Active(List(d, w), w, Count(d, w), Log(d, w), data, own, base) &&
            (own ==> List(d, w).firingIndex >= 3))
  }

  ghost predicate Inv(d: Deferred) {
    && FramesFit(d)
    && match d.first
       case None => IsUnsettled(d)
       case Some((w, data)) => IsSettled(d, w, data) || exists i :: IsSettling(d, w, data, i)
  }

  lemma NewInv()
    ensures Inv(NewDeferred())
  {
    NewIsFresh(Done);
    NewIsFresh(Fail);
  }

  lemma NewIsFresh(which: Which)
    requires !which.Progress?
    ensures Fresh(Add(New<Fn>(ONCE_MEMORY), Own(which)).0, which, 0, [])
  {
    var none: seq<Entry<Fn>> := [];
    AppendedFns(none, Own(which), 0);
    assert FnsOf(none) + Own(which) == Own(which) == Own(which) + Users(which, 0, 0);
  }

  // ---------------------------------------------------------------- frames

  ghost predicate Firing(d: Deferred, which: Which) {
    List(d, which).firing
  }

  // The frames fit all lists but one, which has none, and are all the user's.
  ghost predicate FramesFitBut(d: Deferred, which: Which) {
    && (forall i, j :: 0 <= i < j < |d.frames| ==> d.frames[i].which != d.frames[j].which)
    && (forall i :: 0 <= i < |d.frames| ==> d.frames[i].fn.User?)
    && !Has(d.frames, which)
    && forall o: Which :: o != which ==> (Has(d.frames, o) <==> Firing(d, o))
  }

  lemma EnteredFrames(d: Deferred, which: Which, r: (State<Fn>, seq<Event<Fn>>))
    requires FramesFitBut(d, which) && (EndsInCall(r.1) <==> r.0.firing)
    ensures FramesFit(Entered(d, which, r))
    ensures EndsInCall(r.1) ==> Entered(d, which, r).frames == d.frames + [Frame(which, r.1[|r.1| - 1].entry.fn)]
    ensures !EndsInCall(r.1) ==> Entered(d, which, r).frames == d.frames
  {
    var d' := Entered(d, which, r);
    forall o: Which
      ensures Has(d'.frames, o) <==> List(d', o).firing
    {
      if o == which && EndsInCall(r.1) {
        assert d'.frames[|d.frames|].which == which;
      } else {
        assert Has(d'.frames, o) <==> Has(d.frames, o) by {
          if i :| 0 <= i < |d.frames| && d.frames[i].which == o {
            assert d'.frames[i].which == o;
          }
          if i :| 0 <= i < |d'.frames| && d'.frames[i].which == o {
            assert i < |d.frames| && d.frames[i].which == o;
          }
        }
        assert o != which ==> (Has(d.frames, o) <==> Firing(d, o));
      }
    }
    assert Has(d'.frames, Done) <==> List(d', Done).firing;
    assert Has(d'.frames, Fail) <==> List(d', Fail).firing;
    assert Has(d'.frames, Progress) <==> List(d', Progress).firing;
  }

  // User code is running, and a list that does not fire is about to be used.
  lemma FramesBefore(d: Deferred, d1: Deferred, which: Which)
    requires FramesFit(d) && !OwnRunning(d) && !Firing(d, which)
    requires d1.frames == d.frames && d1.done.firing == d.done.firing && d1.fail.firing == d.fail.firing
             && d1.progress.firing == d.progress.firing
    ensures FramesFitBut(d1, which)
  {
    forall o: Which | o != which
      ensures Has(d1.frames, o) <==> Firing(d1, o)
    {
      match o case Done => case Fail => case Progress =>
    }
  }

  // The top frame has gone.
  lemma FramesPopped(d: Deferred)
    requires FramesFit(d) && d.frames != []
    ensures var top, rest := d.frames[|d.frames| - 1], d.frames[..|d.frames| - 1];
      FramesFitBut(d.(frames := rest), top.which) && Firing(d, top.which)
  {
    var l := |d.frames| - 1;
    var top, rest := d.frames[l], d.frames[..l];
    assert Has(d.frames, top.which);
    forall o: Which
      ensures Has(rest, o) <==> Has(d.frames, o) && o != top.which
      ensures Has(d.frames, o) <==> Firing(d, o)
    {
      if i :| 0 <= i < |d.frames| && d.frames[i].which == o {
        assert o != top.which ==> i < l && rest[i].which == o;
        assert forall j :: 0 <= j < l ==> rest[j].which != top.which;
      }
      if i :| 0 <= i < l && rest[i].which == o {
        assert d.frames[i].which == o;
      }
      match o case Done => case Fail => case Progress =>
    }
  }

  // ---------------------------------------------------------------- every move keeps the invariant

  // Progress may be used in a state of either kind.
  lemma ProgressMove(d: Deferred, d1: Deferred, r: (State<Fn>, seq<Event<Fn>>))
    requires FramesFit(d) && !OwnRunning(d)
    requires d1 == d || d1 == d.(progressCount := d1.progressCount)
    requires IsOpen(d.progress) || IsLocked(d.progress)
    requires ProgressStep(d.progress, r)
    ensures var d' := Entered(d1, Progress, r);
      && FramesFit(d') && !OwnRunning(d')
      && d'.done == d.done && d'.fail == d.fail && d'.doneLog == d.doneLog && d'.failLog == d.failLog
      && d'.doneCount == d.doneCount && d'.failCount == d.failCount && d'.first == d1.first && d'.status == d.status
      && (IsOpen(d.progress) ==> IsOpen(d'.progress)) && (IsLocked(d.progress) ==> IsLocked(d'.progress))
  {
    if !d.progress.firing {
      FramesBefore(d, d1, Progress);
      EnteredFrames(d1, Progress, r);
    }
  }

  // Progress aside, nothing has changed.
  lemma ProgressAside(d: Deferred, d': Deferred)
    requires Inv(d) && !OwnRunning(d) && FramesFit(d') && !OwnRunning(d')
    requires d'.done == d.done && d'.fail == d.fail && d'.doneLog == d.doneLog && d'.failLog == d.failLog
    requires d'.doneCount == d.doneCount && d'.failCount == d.failCount && d'.first == d.first && d'.status == d.status
    requires (IsOpen(d.progress) ==> IsOpen(d'.progress)) && (IsLocked(d.progress) ==> IsLocked(d'.progress))
    ensures Inv(d')
  {
    if d.first.Some? {
      var (w, data) := d.first.value;
      assert IsSettled(d, w, data);
      assert List(d', w) == List(d, w) && Log(d', w) == Log(d, w) && Count(d', w) == Count(d, w);
      assert IsSettled(d', w, data);
    }
  }

  lemma ProgressSteps(d: Deferred, d1: Deferred, r: (State<Fn>, seq<Event<Fn>>), d': Deferred)
    requires Inv(d) && !OwnRunning(d) && d' == Entered(d1, Progress, r)
    requires d1 == d || d1 == d.(progressCount := d1.progressCount)
    requires ProgressStep(d.progress, r)
    ensures Inv(d')
  {
    ProgressMove(d, d1, r);
    ProgressAside(d, d');
  }

  lemma RegisterEntered(d: Deferred, which: Which, n: nat)
    requires !OwnRunning(d)
    ensures Next(d, Register(which, n)) == Registered(d, which, n)
  {
  }

  lemma RegisterProgress(d: Deferred, n: nat, d': Deferred)
    requires Inv(d) && !OwnRunning(d) && d' == Next(d, Register(Progress, n))
    ensures Inv(d')
  {
    var r := Add(d.progress, Users(Progress, d.progressCount, n));
    ProgressAdd(d.progress, d.progressCount, n);
    RegisterEntered(d, Progress, n);
    ProgressSteps(d, WithCount(d, Progress, d.progressCount + n), r, d');
  }

  lemma Notify(d: Deferred, data: Data)
    requires Inv(d) && !OwnRunning(d)
    ensures Inv(Next(d, FireList(Progress, data)))
    ensures d.first.Some? ==> Next(d, FireList(Progress, data)) == d
  {
    ProgressFire(d.progress, data);
    ProgressMove(d, d, FireWith(d.progress, data));
    ProgressAside(d, Next(d, FireList(Progress, data)));
  }

  lemma RegisterUnsettled(d: Deferred, which: Which, n: nat)
    requires Inv(d) && IsUnsettled(d) && d.first.None? && !which.Progress?
    ensures Inv(Next(d, Register(which, n)))
  {
    FreshAdd(List(d, which), which, Count(d, which), Log(d, which), n);
  }

  lemma SettleFirst(d: Deferred, which: Which, data: Data)
    requires Inv(d) && IsUnsettled(d) && d.first.None? && !which.Progress?
    ensures var d' := Next(d, FireList(which, data));
      Inv(d') && IsSettling(d', which, data, 0) && d'.first == Some((which, data))
  {
    var s := List(d, which);
    FreshFire(s, which, Count(d, which), Log(d, which), data);
    var d1 := d.(first := Some((which, data)));
    FramesBefore(d, d1, which);
    EnteredFrames(d1, which, FireWith(s, data));
    assert IsSettling(Next(d, FireList(which, data)), which, data, 0);
  }

  lemma SettleAgain(d: Deferred, which: Which, data: Data)
    requires Inv(d) && !OwnRunning(d) && d.first.Some? && !which.Progress?
    ensures Next(d, FireList(which, data)) == d
  {
  }

  lemma RestEntered(d: Deferred, w: Which, data: Data, n: nat, r: (State<Fn>, seq<Event<Fn>>), d': Deferred)
    requires FramesFit(d) && d.first == Some((w, data)) && IsSettled(d, w, data)
             && Rest(List(d, w), Count(d, w), Log(d, w), data)
    requires RestAdded(r, w, Count(d, w), Log(d, w), data, n) && d' == Entered(WithCount(d, w, Count(d, w) + n), w, r)
    ensures Inv(d')
  {
    var d1 := WithCount(d, w, Count(d, w) + n);
    FramesBefore(d, d1, w);
    EnteredFrames(d1, w, r);
    EnteredParts(d1, w, r);
    UserEntered(d, d', w, data, false, Count(d, w));
  }

  // Registering with a settled deferred: on the list that was fired, at rest or firing, or on the other one.
  lemma RegisterAtRest(d: Deferred, w: Which, data: Data, n: nat, d': Deferred)
    requires FramesFit(d) && d.first == Some((w, data)) && IsSettled(d, w, data)
             && Rest(List(d, w), Count(d, w), Log(d, w), data)
    requires d' == Next(d, Register(w, n))
    ensures Inv(d')
  {
    var r := Add(List(d, w), Users(w, Count(d, w), n));
    RestAdd(List(d, w), w, Count(d, w), Log(d, w), data, n);
    RegisterEntered(d, w, n);
    RestEntered(d, w, data, n, r, d');
  }

  // The list that was fired has come to a user callback, or to rest; nothing else has changed.
  lemma UserEntered(d: Deferred, d': Deferred, w: Which, data: Data, own: bool, base: nat)
    requires IsSettled(d, w, data) && FramesFit(d') && d'.first == Some((w, data)) && d'.status == d.status
    requires !OwnRunning(d') && List(d', Other(w)) == List(d, Other(w)) && Log(d', Other(w)) == Log(d, Other(w))
             && d'.progress == d.progress
    requires Rest(List(d', w), Count(d', w), Log(d', w), data)
             || (Active(List(d', w), w, Count(d', w), Log(d', w), data, own, base) &&
                 (own ==> List(d', w).firingIndex >= 3))
    ensures IsSettled(d', w, data) && Inv(d')
  {
  }

  lemma RegisterFiring(d: Deferred, w: Which, data: Data, own: bool, base: nat, n: nat)
    requires FramesFit(d) && d.first == Some((w, data)) && IsSettled(d, w, data)
    requires Active(List(d, w), w, Count(d, w), Log(d, w), data, own, base) && (own ==> List(d, w).firingIndex >= 3)
    ensures Inv(Next(d, Register(w, n)))
  {
    var d' := Next(d, Register(w, n));
    ActiveAdd(List(d, w), w, Count(d, w), Log(d, w), data, own, base, n);
    assert Active(List(d', w), w, Count(d', w), Log(d', w), data, own, base);
    assert IsSettled(d', w, data);
  }

  lemma RegisterOff(d: Deferred, w: Which, data: Data, n: nat)
    requires FramesFit(d) && d.first == Some((w, data)) && IsSettled(d, w, data)
    ensures Inv(Next(d, Register(Other(w), n)))
  {
    var o, d' := Other(w), Next(d, Register(Other(w), n));
    assert Add(List(d, o), Users(o, Count(d, o), n)) == (List(d, o), []);
    assert List(d', w) == List(d, w) && Log(d', w) == Log(d, w) && Count(d', w) == Count(d, w);
    assert IsSettled(d', w, data);
  }

  lemma RegisterInv(d: Deferred, which: Which, n: nat)
    requires Inv(d)
    ensures Inv(Next(d, Register(which, n)))
  {
    if OwnRunning(d) {
    } else if which.Progress? {
      RegisterProgress(d, n, Next(d, Register(Progress, n)));
    } else {
      match d.first
      case None => RegisterUnsettled(d, which, n);
      case Some((w, data)) =>
        assert IsSettled(d, w, data);
        if which != w {
          RegisterOff(d, w, data, n);
        } else if Rest(List(d, w), Count(d, w), Log(d, w), data) {
          RegisterAtRest(d, w, data, n, Next(d, Register(w, n)));
        } else {
          var own, base :| Active(List(d, w), w, Count(d, w), Log(d, w), data, own, base) &&
            (own ==> List(d, w).firingIndex >= 3);
          RegisterFiring(d, w, data, own, base, n);
        }
    }
  }

  lemma FireInv(d: Deferred, which: Which, data: Data)
    requires Inv(d)
    ensures Inv(Next(d, FireList(which, data)))
  {
    if OwnRunning(d) {
    } else if which.Progress? {
      Notify(d, data);
    } else if d.first.None? {
      SettleFirst(d, which, data);
    } else {
      SettleAgain(d, which, data);
    }
  }

  // What entering the next callback of a list makes of a deferred.
  lemma EnteredParts(d: Deferred, w: Which, r: (State<Fn>, seq<Event<Fn>>))
    requires !w.Progress?
    ensures var d', o := Entered(d, w, r), Other(w);
      && List(d', w) == r.0 && List(d', o) == List(d, o) && d'.progress == d.progress
      && Count(d', w) == Count(d, w) && Count(d', o) == Count(d, o) && Log(d', o) == Log(d, o)
      && d'.first == d.first && d'.status == d.status
      && Log(d', w) == (if EndsInCall(r.1) && r.1[|r.1| - 1].entry.fn.User?
                        then Log(d, w) + [Call(r.1[|r.1| - 1].entry.fn.id, r.1[|r.1| - 1].data)] else Log(d, w))
  {
  }

  // The deferred in which an own callback has just done its work.
  ghost function Worked(d: Deferred): Deferred
    requires d.frames != []
  {
    Effect(d.(frames := d.frames[..|d.frames| - 1]), d.frames[|d.frames| - 1].fn)
  }

  lemma OwnFrames(d: Deferred, w: Which, data: Data, i: nat)
    requires FramesFit(d) && IsSettling(d, w, data, i)
    ensures var d1 := Worked(d);
      && d1.frames == d.frames[..|d.frames| - 1] && List(d1, w) == List(d, w) && Count(d1, w) == Count(d, w)
      && Log(d1, w) == Log(d, w)
      && Count(d1, Other(w)) == Count(d, Other(w)) && Log(d1, Other(w)) == Log(d, Other(w)) && d1.first == d.first
      && d1.status == StatusOf(w)
      && (if i == 0 then Fresh(List(d1, Other(w)), Other(w), Count(d, Other(w)), Log(d, Other(w)))
             else Off(List(d1, Other(w)), Log(d, Other(w))))
      && (if i < 2 then IsOpen(d1.progress) else IsLocked(d1.progress))
      && FramesFitBut(d1, w)
  {
    FramesPopped(d);
    EffectFrames(d, Worked(d), w);
  }

  // One of the deferred's own callbacks does its work.
  lemma OwnReturns(d: Deferred, w: Which, data: Data, i: nat, d': Deferred)
    requires FramesFit(d) && d.first == Some((w, data)) && IsSettling(d, w, data, i) && d' == Next(d, Return(false))
    ensures Inv(d')
  {
    var s, count, d1 := List(d, w), Count(d, w), Worked(d);
    OwnFrames(d, w, data, i);
    ActiveResume(s, w, count, Log(d, w), data, true, 0);
    OwnStep(d1, w, data, i, s, count, Resume(s, false), d');
  }

  lemma OwnStep(d1: Deferred, w: Which, data: Data, i: nat, s: State<Fn>, count: nat, r: (State<Fn>, seq<Event<Fn>>),
                d': Deferred)
    requires !w.Progress? && i < 3 && FramesFitBut(d1, w) && d1.first == Some((w, data)) && d1.status == StatusOf(w)
    requires Count(d1, w) == count && Log(d1, w) == []
    requires var o := Other(w);
      && (if i == 0 then Fresh(List(d1, o), o, Count(d1, o), Log(d1, o)) else Off(List(d1, o), Log(d1, o)))
      && (if i < 2 then IsOpen(d1.progress) else IsLocked(d1.progress))
    requires Active(s, w, count, [], data, true, 0) && s.firingIndex == i
    requires Resumed(s, r, w, count, [], data, true, 0) && d' == Entered(d1, w, r)
    ensures Inv(d')
  {
    UsersAt(w, 0, count);
    EnteredFrames(d1, w, r);
    EnteredParts(d1, w, r);
    OwnEntered(d1, d', w, data, i, s, count);
  }

  // The next of the batch is running, or the batch is at its end.
  lemma OwnEntered(d1: Deferred, d': Deferred, w: Which, data: Data, i: nat, s: State<Fn>, count: nat)
    requires !w.Progress? && i < 3 && FramesFit(d') && FramesFitBut(d1, w)
    requires d'.first == Some((w, data)) && d'.status == StatusOf(w) && Count(d', w) == count
    requires Active(s, w, count, [], data, true, 0) && s.firingIndex == i
    requires var o := Other(w);
      && (if i == 0 then Fresh(List(d', o), o, Count(d', o), Log(d', o)) else Off(List(d', o), Log(d', o)))
      && (if i < 2 then IsOpen(d'.progress) else IsLocked(d'.progress))
    requires if i + 1 < |s.list.value| then
               && var fn := Batch(w, true, 0, count)[i + 1];
               && d'.frames == d1.frames + [Frame(w, fn)]
               && List(d', w) == s.(firingIndex := i + 1)
               && Active(List(d', w), w, count, Log(d', w), data, true, 0)
             else d'.frames == d1.frames && Rest(List(d', w), count, Log(d', w), data)
    ensures Inv(d') && if i < 2 then IsSettling(d', w, data, i + 1) else IsSettled(d', w, data)
  {
    UsersAt(w, 0, count);
    if i < 2 {
      assert IsSettling(d', w, data, i + 1);
    } else {
      assert IsSettled(d', w, data);
    }
  }

  // The effects of the own callbacks start and stop no firing.
  lemma EffectFrames(d: Deferred, d1: Deferred, w: Which)
    requires FramesFitBut(d.(frames := d1.frames), w)
    requires forall o: Which :: List(d1, o).firing == List(d, o).firing
    ensures FramesFitBut(d1, w)
  {
    forall o: Which | o != w
      ensures Has(d1.frames, o) <==> Firing(d1, o)
    {
      assert Has(d1.frames, o) <==> Firing(d.(frames := d1.frames), o);
    }
  }

  // A user callback returns to the progress list.
  lemma ProgressReturns(d: Deferred)
    requires Inv(d) && !OwnRunning(d) && d.frames != [] && d.frames[|d.frames| - 1].which == Progress
    ensures Inv(Next(d, Return(false)))
  {
    var d1 := d.(frames := d.frames[..|d.frames| - 1]);
    var r := Resume(d.progress, false);
    FramesPopped(d);
    ProgressResume(d.progress);
    EnteredFrames(d1, Progress, r);
    ProgressAside(d, Entered(d1, Progress, r));
  }

  // A user callback returns to the list that was fired.
  lemma SettledReturns(d: Deferred, w: Which, data: Data, own: bool, base: nat)
    requires FramesFit(d) && d.first == Some((w, data)) && IsSettled(d, w, data)
    requires d.frames != [] && d.frames[|d.frames| - 1].which == w
    requires Active(List(d, w), w, Count(d, w), Log(d, w), data, own, base) && (own ==> List(d, w).firingIndex >= 3)
    ensures Inv(Next(d, Return(false)))
  {
    var d1 := d.(frames := d.frames[..|d.frames| - 1]);
    var s, count, log := List(d, w), Count(d, w), Log(d, w);
    var r := Resume(s, false);
    FramesPopped(d);
    ActiveResume(s, w, count, log, data, own, base);
    UsersAt(w, base, count - base);
    EnteredFrames(d1, w, r);
    EnteredParts(d1, w, r);
    UserEntered(d, Entered(d1, w, r), w, data, own, base);
  }

  // None of the three lists minds what a callback returns.
  lemma ReturnsAlike(d: Deferred, returnedFalse: bool)
    requires Inv(d)
    ensures Next(d, Return(returnedFalse)) == Next(d, Return(false))
  {
    if d.frames != [] {
      WorkedLeft(d);
      assert List(d, d.frames[|d.frames| - 1].which).firing;
    }
  }

  lemma ReturnInv(d: Deferred)
    requires Inv(d)
    ensures Inv(Next(d, Return(false)))
  {
    if d.frames == [] {
    } else if OwnRunning(d) {
      var (w, data) := d.first.value;
      var i :| IsSettling(d, w, data, i);
      OwnReturns(d, w, data, i, Next(d, Return(false)));
    } else if d.frames[|d.frames| - 1].which == Progress {
      ProgressReturns(d);
    } else {
      FramesPopped(d);
      assert d.first.Some?;
      var (w, data) := d.first.value;
      assert IsSettled(d, w, data);
      var own, base :| Active(List(d, w), w, Count(d, w), Log(d, w), data, own, base) &&
        (own ==> List(d, w).firingIndex >= 3);
      SettledReturns(d, w, data, own, base);
    }
  }

  lemma NextInv(d: Deferred, m: Move)
    requires Inv(d)
    ensures Inv(Next(d, m))
  {
    match m
    case Register(which, n) => RegisterInv(d, which, n);
    case FireList(which, data) => FireInv(d, which, data);
    case Return(returnedFalse) =>
      ReturnsAlike(d, returnedFalse);
      ReturnInv(d);
  }

  // ---------------------------------------------------------------- runs

  lemma {:induction false} EveryRunInv(moves: seq<Move>)
    ensures Inv(After(moves))
  {
    if moves == [] {
      NewInv();
    } else {
      EveryRunInv(moves[..|moves| - 1]);
      NextInv(After(moves[..|moves| - 1]), moves[|moves| - 1]);
    }
  }

  lemma EnteredKeeps(d: Deferred, which: Which, r: (State<Fn>, seq<Event<Fn>>))
    ensures Entered(d, which, r).first == d.first && Entered(d, which, r).status == d.status
  {
  }

  // What a move makes of the status and of the first firing.
  lemma MoveKeeps(d: Deferred, m: Move)
    ensures Next(d, m).first ==
            (if m.FireList? && !m.which.Progress? && d.first.None? && !OwnRunning(d) then Some((m.which, m.data))
                else d.first)
    ensures Next(d, m).status ==
            (if m.Return? && OwnRunning(d) && d.frames[|d.frames| - 1].fn.SetState?
             then d.frames[|d.frames| - 1].fn.to else d.status)
  {
    match m
    case Return(returnedFalse) =>
      if d.frames != [] {
        var top := d.frames[|d.frames| - 1];
        var d1 := Effect(d.(frames := d.frames[..|d.frames| - 1]), top.fn);
        EnteredKeeps(d1, top.which, Resume(List(d1, top.which), returnedFalse && top.fn.User?));
      }
    case Register(which, n) =>
      EnteredKeeps(WithCount(d, which, Count(d, which) + n), which,
          Add(List(d, which), Users(which, Count(d, which), n)));
    case FireList(which, data) =>
      EnteredKeeps(if d.first.None? && !which.Progress? then d.(first := Some((which, data))) else d,
                   which, FireWith(List(d, which), data));
  }

  // The list, done or fail, that a run fires first, and the arguments it is fired with.
  ghost function FirstSettle(moves: seq<Move>): Option<(Which, Data)> {
    if moves == [] then None
    else
      var l := |moves| - 1;
      var before := FirstSettle(moves[..l]);
      if before.None? && moves[l].FireList? && !moves[l].which.Progress? then Some((moves[l].which, moves[l].data))
        else before
  }

  lemma {:induction false} FirstIsFirst(moves: seq<Move>)
    ensures After(moves).first == FirstSettle(moves)
  {
    if moves != [] {
      var l := |moves| - 1;
      FirstIsFirst(moves[..l]);
      EveryRunInv(moves[..l]);
      MoveKeeps(After(moves[..l]), moves[l]);
    }
  }

  // How many callbacks a run registers, the deferred's own callbacks aside, while which no other code runs.
  ghost function Registrations(moves: seq<Move>, which: Which): nat {
    if moves == [] then 0
    else
      var l := |moves| - 1;
      Registrations(moves[..l], which) +
      if moves[l].Register? && moves[l].which == which && !OwnRunning(After(moves[..l])) then moves[l].n else 0
  }

  lemma {:induction false} AllAreCounted(moves: seq<Move>, which: Which)
    ensures Count(After(moves), which) == Registrations(moves, which)
  {
    if moves != [] {
      AllAreCounted(moves[..|moves| - 1], which);
      MoveCounts(After(moves[..|moves| - 1]), moves[|moves| - 1], which);
    }
  }

  lemma EnteredCounts(d: Deferred, which: Which, r: (State<Fn>, seq<Event<Fn>>), o: Which)
    ensures Count(Entered(d, which, r), o) == Count(d, o)
  {
  }

  lemma MoveCounts(d: Deferred, m: Move, which: Which)
    ensures Count(Next(d, m), which) ==
            Count(d, which) + if m.Register? && m.which == which && !OwnRunning(d) then m.n else 0
  {
    match m
    case Return(returnedFalse) =>
      if d.frames != [] {
        var top := d.frames[|d.frames| - 1];
        var d1 := Worked(d);
        EnteredCounts(d1, top.which, Resume(List(d1, top.which), returnedFalse && top.fn.User?), which);
      }
    case Register(w, n) =>
      EnteredCounts(WithCount(d, w, Count(d, w) + n), w, Add(List(d, w), Users(w, Count(d, w), n)), which);
    case FireList(w, data) =>
      EnteredCounts(if d.first.None? && !w.Progress? then d.(first := Some((w, data))) else d,
                    w, FireWith(List(d, w), data), which);
  }

  // Over every run, however the calls are nested: before done or fail is fired, nothing of them happens; then
  // the callbacks of the one fired first are called in the order of their registration, each once and with
  // the arguments of that firing, those of the other one never; and when nothing runs any more, all that were
  // registered at any time have been called.
  lemma SettledForGood(moves: seq<Move>)
    ensures FirstSettle(moves).None? ==>
              var d := After(moves); d.status == Unsettled && d.doneLog == [] && d.failLog == []
    ensures FirstSettle(moves).Some? ==>
              var d, w, data := After(moves), FirstSettle(moves).value.0, FirstSettle(moves).value.1;
              && !w.Progress? && (!OwnRunning(d) ==> d.status == StatusOf(w))
              && Log(d, Other(w)) == []
              && |Log(d, w)| <= Registrations(moves, w) && Log(d, w) == Calls(data, |Log(d, w)|)
              && (d.frames == [] ==> |Log(d, w)| == Registrations(moves, w))
  {
    AllAreCounted(moves, Done);
    AllAreCounted(moves, Fail);
    FirstIsFirst(moves);
    EveryRunInv(moves);
    var d := After(moves);
    if d.first.Some? {
      var (w, data) := d.first.value;
      if IsSettled(d, w, data) {
        LogWhenSettled(d, w, data);
      } else {
        var i :| IsSettling(d, w, data, i);
        ActiveLog(List(d, w), w, Count(d, w), Log(d, w), data, true, 0);
      }
    }
  }

  // While the batch is running, a part of the callbacks have been called.
  lemma ActiveLog(s: State<Fn>, which: Which, count: nat, log: seq<Call>, data: Data, own: bool, base: nat)
    requires Active(s, which, count, log, data, own, base)
    ensures |log| <= count && log == Calls(data, |log|) && s.firing
  {
    UsersAt(which, base, count - base);
    assert |FnsOf(s.list.value)| == (if own then 3 else 0) + count - base;
  }

  lemma LogWhenSettled(d: Deferred, w: Which, data: Data)
    requires FramesFit(d) && IsSettled(d, w, data)
    ensures |Log(d, w)| <= Count(d, w) && Log(d, w) == Calls(data, |Log(d, w)|)
    ensures d.frames == [] ==> |Log(d, w)| == Count(d, w)
  {
    if !Rest(List(d, w), Count(d, w), Log(d, w), data) {
      var own, base :| Active(List(d, w), w, Count(d, w), Log(d, w), data, own, base) &&
        (own ==> List(d, w).firingIndex >= 3);
      ActiveLog(List(d, w), w, Count(d, w), Log(d, w), data, own, base);
    }
  }

  // The status changes once at most.
  lemma NextStatus(d: Deferred, m: Move)
    requires Inv(d)
    ensures d.status != Unsettled ==> Next(d, m).status == d.status
  {
    MoveKeeps(d, m);
    if m.Return? && OwnRunning(d) {
      var (w, data) := d.first.value;
      var i :| IsSettling(d, w, data, i);
    }
  }

  lemma {:induction false} StatusIsFinal(moves: seq<Move>, n: nat)
    requires n <= |moves|
    ensures After(moves[..n]).status != Unsettled ==> After(moves).status == After(moves[..n]).status
  {
    var l := |moves| - 1;
    if n == |moves| {
      assert moves[..n] == moves;
    } else {
      assert moves[..l][..n] == moves[..n];
      StatusIsFinal(moves[..l], n);
      EveryRunInv(moves[..l]);
      NextStatus(After(moves[..l]), moves[l]);
    }
  }

  // After the first resolve or reject, no resolve, reject or notify has any effect.
  lemma LaterFiringsDoNothing(moves: seq<Move>, which: Which, data: Data)
    requires FirstSettle(moves).Some?
    ensures After(moves + [FireList(which, data)]) == After(moves)
  {
    var m := FireList(which, data);
    assert (moves + [m])[..|moves|] == moves;
    FirstIsFirst(moves);
    EveryRunInv(moves);
    var d := After(moves);
    if OwnRunning(d) {
    } else if which.Progress? {
      Notify(d, data);
    } else {
      SettleAgain(d, which, data);
    }
  }

  // ---------------------------------------------------------------- every run can end

  // How many callbacks a list may still call if nothing else is registered or fired.
  ghost function Left(s: State<Fn>): int {
    if s.list.None? then 0
    else Pending(s) * (|s.list.value| + 1) + if s.firing then |s.list.value| - s.firingIndex else 0
  }

  ghost predicate Steady(s: State<Fn>) {
    s.firing ==>
      && s.firingStart == 0 && s.list.Some? && s.firingLength == |s.list.value|
      && 0 <= s.firingIndex <= |s.list.value|
  }

  lemma LoopLeft(s: State<Fn>)
    requires Steady(s) && s.firing
    ensures Left(Loop(s).0) <= Left(s)
    decreases Pending(s), 1
  {
    if s.firingIndex >= s.firingLength && s.stack.Some? && s.stack.value != [] {
      var s1 := s.(firing := false, stack := Some(s.stack.value[1..]));
      BeginLoops(s1, s.stack.value[0]);
      LoopLeft(Started(s1, s.stack.value[0]));
      MultipliedLess(Pending(s), |s.list.value| + 1);
    }
  }

  lemma MultipliedLess(p: nat, n: nat)
    requires p > 0
    ensures p * n == (p - 1) * n + n
  {
  }

  lemma ResumeLeft(s: State<Fn>)
    requires Steady(s) && s.firing && s.firingIndex < |s.list.value|
    ensures Left(Resume(s, false).0) < Left(s)
  {
    LoopLeft(s.(firingIndex := s.firingIndex + 1));
  }

  ghost function AllLeft(d: Deferred): int {
    Left(d.done) + Left(d.fail) + Left(d.progress)
  }

  lemma IsSteady(d: Deferred, which: Which)
    requires Inv(d)
    ensures var s := List(d, which); Steady(s) && (s.firing ==> s.firingIndex < |s.list.value|)
  {
  }

  lemma LeftIsNat(s: State<Fn>)
    requires Steady(s)
    ensures Left(s) >= 0 && Left(Lock(s)) <= Left(s)
  {
    if s.list.Some? && Pending(s) > 0 {
      MultipliedNat(Pending(s), |s.list.value| + 1);
    }
  }

  lemma MultipliedNat(p: nat, n: nat)
    ensures p * n >= 0
  {
  }

  lemma EnteredLists(d: Deferred, which: Which, r: (State<Fn>, seq<Event<Fn>>), d': Deferred)
    requires d' == Entered(d, which, r)
    ensures List(d', which) == r.0 && forall o: Which :: o != which ==> List(d', o) == List(d, o)
    ensures d'.doneCount == d.doneCount && d'.failCount == d.failCount
  {
  }

  lemma AllLeftIsNat(d: Deferred)
    requires Inv(d)
    ensures AllLeft(d) >= 0
  {
    IsSteady(d, Done);
    IsSteady(d, Fail);
    IsSteady(d, Progress);
    LeftIsNat(d.done);
    LeftIsNat(d.fail);
    LeftIsNat(d.progress);
  }

  // What the work of a callback does to the list it belongs to, and to what is left of all.
  lemma WorkedLeft(d: Deferred)
    requires Inv(d) && d.frames != []
    ensures var which := d.frames[|d.frames| - 1].which;
      && List(Worked(d), which) == List(d, which) && List(d, which).firing
      && AllLeft(Worked(d)) <= AllLeft(d) && Worked(d).doneCount == d.doneCount && Worked(d).failCount == d.failCount
  {
    FramesPopped(d);
    if OwnRunning(d) {
      var (w, data) := d.first.value;
      var i :| IsSettling(d, w, data, i);
      IsSteady(d, Progress);
      LeftIsNat(d.progress);
    }
  }

  // A callback that returns is one less to come.
  lemma ReturnLeft(d: Deferred, d': Deferred)
    requires Inv(d) && d.frames != [] && d' == Next(d, Return(false))
    ensures AllLeft(d') < AllLeft(d)
    ensures d'.doneCount == d.doneCount && d'.failCount == d.failCount
  {
    var which, d1 := d.frames[|d.frames| - 1].which, Worked(d);
    WorkedLeft(d);
    IsSteady(d, which);
    var r := Resume(List(d, which), false);
    ResumeLeft(List(d, which));
    EnteredLists(d1, which, r, d');
    OneLess(d1, d', which);
  }

  lemma OneLess(d: Deferred, d': Deferred, which: Which)
    requires Left(List(d', which)) < Left(List(d, which)) && forall o: Which :: o != which ==> List(d', o) == List(d, o)
    ensures AllLeft(d') < AllLeft(d)
  {
    assert List(d', Done) == d'.done && List(d', Fail) == d'.fail && List(d', Progress) == d'.progress;
    assert List(d, Done) == d.done && List(d, Fail) == d.fail && List(d, Progress) == d.progress;
  }

  ghost function Returns(k: nat): (moves: seq<Move>)
    ensures |moves| == k && forall i :: 0 <= i < k ==> moves[i] == Return(false)
  {
    seq(k, i requires 0 <= i < k => Return(false))
  }

  lemma OneReturn(moves: seq<Move>)
    requires After(moves).frames != []
    ensures var d, d' := After(moves), After(moves + [Return(false)]);
      0 <= AllLeft(d') < AllLeft(d) && d'.doneCount == d.doneCount && d'.failCount == d.failCount
  {
    var next := moves + [Return(false)];
    assert next[..|next| - 1] == moves;
    EveryRunInv(moves);
    EveryRunInv(next);
    AllLeftIsNat(After(next));
    ReturnLeft(After(moves), After(next));
  }

  lemma {:induction false} EveryRunCanEnd(moves: seq<Move>) returns (k: nat)
    ensures var d := After(moves + Returns(k));
      && d.frames == [] && d.doneCount == After(moves).doneCount && d.failCount == After(moves).failCount
    decreases AllLeft(After(moves))
  {
    if After(moves).frames == [] {
      k := 0;
      assert moves + Returns(0) == moves;
    } else {
      OneReturn(moves);
      var l := EveryRunCanEnd(moves + [Return(false)]);
      k := l + 1;
      assert moves + [Return(false)] + Returns(l) == moves + Returns(k);
    }
  }

  lemma {:induction false} ReturnsSettleNothing(moves: seq<Move>, k: nat)
    ensures FirstSettle(moves + Returns(k)) == FirstSettle(moves)
  {
    if k == 0 {
      assert moves + Returns(0) == moves;
    } else {
      ReturnsSettleNothing(moves, k - 1);
      assert (moves + Returns(k))[..|moves| + k - 1] == moves + Returns(k - 1);
    }
  }

  // If no more is registered or fired, every run comes to its end, and then all callbacks registered with
  // what was fired have been called, in order, each once.
  lemma AllAreCalled(moves: seq<Move>, w: Which, data: Data) returns (k: nat)
    requires FirstSettle(moves) == Some((w, data))
    ensures var d := After(moves + Returns(k));
      && d.frames == [] && d.status == StatusOf(w)
      && Log(d, w) == Calls(data, Registrations(moves, w)) && Log(d, Other(w)) == []
  {
    AllAreCounted(moves, w);
    k := EveryRunCanEnd(moves);
    AllAreCounted(moves + Returns(k), w);
    ReturnsSettleNothing(moves, k);
    SettledForGood(moves);
    SettledForGood(moves + Returns(k));
  }
}
