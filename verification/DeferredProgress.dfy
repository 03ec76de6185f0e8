// What `notify` does: the rounds of progress callbacks that a deferred makes.
module DeferredProgress {
  import opened Prelude
  import opened Callbacks
  import opened Deferreds

  // ---------------------------------------------------------------- what a run asks for

  // The last move of a run is a notify that comes before done or fail is fired.
  ghost predicate EndsInNotify(moves: seq<Move>)
    requires moves != []
  {
    var l := |moves| - 1;
    moves[l].FireList? && moves[l].which.Progress? && FirstSettle(moves[..l]).None?
  }

  // The data of all notifies up to the first settling, and how many progress callbacks were registered at each.
  ghost function Notified(moves: seq<Move>): seq<Data> {
    if moves == [] then []
    else Notified(moves[..|moves| - 1]) + if EndsInNotify(moves) then [moves[|moves| - 1].data] else []
  }

  ghost function Issued(moves: seq<Move>): seq<nat> {
    if moves == [] then []
    else
      var before := moves[..|moves| - 1];
      Issued(before) + if EndsInNotify(moves) then [Registrations(before, Progress)] else []
  }

  // All but the last few.
  ghost function Before(all: seq<Data>, waiting: nat): seq<Data> {
    if waiting <= |all| then all[..|all| - waiting] else []
  }

  // The notifies that have begun their round.  When the deferred is settled, those that still wait are given up.
  ghost function Carried(moves: seq<Move>): seq<Data> {
    if FirstSettle(moves).Some? then Carried(moves[..|moves| - 1])
    else Before(Notified(moves), Pending(After(moves).progress))
  }

  // One round for each data, of as many callbacks as its size says, from the first one on.
  ghost function Rounds(begun: seq<Data>, sizes: seq<nat>): seq<Call>
    requires |sizes| == |begun|
  {
    if begun == [] then []
    else
      var l := |begun| - 1;
      Rounds(begun[..l], sizes[..l]) + Calls(begun[l], sizes[l])
  }

  lemma OneMoreCall(begun: seq<Data>, sizes: seq<nat>, k: nat)
    requires |sizes| == |begun| > 0 && sizes[|sizes| - 1] == k
    ensures Rounds(begun, sizes[|sizes| - 1 := k + 1]) == Rounds(begun, sizes) + [Call(k, begun[|begun| - 1])]
  {
    var l := |begun| - 1;
    assert sizes[l := k + 1][..l] == sizes[..l];
    assert Calls(begun[l], k + 1) == Calls(begun[l], k) + [Call(k, begun[l])];
  }

  lemma OneMoreRound(begun: seq<Data>, sizes: seq<nat>, data: Data)
    requires |sizes| == |begun|
    ensures Rounds(begun + [data], sizes + [0]) == Rounds(begun, sizes)
  {
    assert (begun + [data])[..|begun|] == begun && (sizes + [0])[..|sizes|] == sizes;
  }

  // ---------------------------------------------------------------- the list and its log

  // The callbacks on the list are the last ones of the n that were registered, and all of them while notifies may
  // be stacked.
  ghost predicate ListsLast(s: State<Fn>, n: nat) {
    && s.options == MEMORY
    && (s.list.Some? ==>
          && |s.list.value| <= n && FnsOf(s.list.value) == Users(Progress, n - |s.list.value|, |s.list.value|)
          && (s.stack.Some? ==> |s.list.value| == n))
    && (s.stack.Some? ==> s.list.Some?)
  }

  // The rounds that have begun are in the log.  The last one is the remembered one; `called` of its callbacks have
  // been called.
  ghost predicate InLog(s: State<Fn>, log: seq<Call>, begun: seq<Data>, sizes: seq<nat>, called: int) {
    && |sizes| == |begun| > 0 && sizes[|sizes| - 1] == called
    && s.fired && s.list.Some? && s.memory == Some(begun[|begun| - 1])
    && log == Rounds(begun, sizes)
  }

  ghost predicate InRound(s: State<Fn>, begun: seq<Data>) {
    s.firing && s.list.Some? && s.firingLength == |s.list.value| && begun != [] && s.data == begun[|begun| - 1]
  }

  ghost predicate Book(s: State<Fn>, n: nat, log: seq<Call>, begun: seq<Data>, sizes: seq<nat>) {
    && ListsLast(s, n) && s.firingStart == 0
    && (!s.fired ==> !s.firing && s.memory.None? && log == [] && begun == [] && sizes == [])
    && (s.fired && !s.firing ==> InLog(s, log, begun, sizes, n))
    && (!s.firing && s.stack.Some? ==> s.stack.value == [])
    && (s.firing ==>
          && InRound(s, begun) && 0 <= s.firingIndex < |s.list.value|
          && InLog(s, log, begun, sizes, n - |s.list.value| + s.firingIndex + 1))
  }

  // The firing loop has come to a callback that has not been called yet, or to the end.
  ghost predicate AtLoop(s: State<Fn>, n: nat, log: seq<Call>, begun: seq<Data>, sizes: seq<nat>) {
    && ListsLast(s, n) && s.firingStart == 0
    && InRound(s, begun) && 0 <= s.firingIndex <= |s.list.value|
    && InLog(s, log, begun, sizes, n - |s.list.value| + s.firingIndex)
  }

  // The log of the progress list after an operation on it.
  ghost function Logged(log: seq<Call>, r: (State<Fn>, seq<Event<Fn>>)): seq<Call> {
    if !EndsInCall(r.1) then log
    else
      var e := r.1[|r.1| - 1];
      if e.entry.fn.User? then log + [Call(e.entry.fn.id, e.data)] else log
  }

  // Rounds have been finished with n callbacks, and stacked ones begun.
  ghost predicate Onward(begun: seq<Data>, sizes: seq<nat>, begun': seq<Data>, sizes': seq<nat>, n: nat) {
    && |sizes| == |begun| <= |begun'| == |sizes'| && begun <= begun'
    && (forall r :: 0 <= r < |begun| - 1 ==> sizes'[r] == sizes[r])
    && (forall r :: 0 <= r && |begun| - 1 <= r < |begun'| - 1 ==> sizes'[r] == n)
  }

  ghost predicate SameOrder(begun: seq<Data>, s: State<Fn>, begun': seq<Data>, s': State<Fn>) {
    if s.stack.None? then s'.stack.None? && begun' == begun
    else s'.stack.Some? && begun' + s'.stack.value == begun + s.stack.value
  }

  // From the loop on, the list calls its next callback, or begins what is stacked, or comes to rest.
  lemma LoopRounds(s: State<Fn>, n: nat, log: seq<Call>, begun: seq<Data>, sizes: seq<nat>)
    returns (begun': seq<Data>, sizes': seq<nat>)
    requires AtLoop(s, n, log, begun, sizes)
    ensures Book(Loop(s).0, n, Logged(log, Loop(s)), begun', sizes')
    ensures Onward(begun, sizes, begun', sizes', n) && SameOrder(begun, s, begun', Loop(s).0)
    decreases Pending(s)
  {
    var l := |begun| - 1;
    if s.firingIndex < s.firingLength {
      LoopCalls(s);
      var k := n - |s.list.value| + s.firingIndex;
      UsersAt(Progress, n - |s.list.value|, |s.list.value|);
      assert FnsOf(s.list.value)[s.firingIndex] == User(Progress, k);
      OneMoreCall(begun, sizes, k);
      begun', sizes' := begun, sizes[l := k + 1];
    } else if s.stack.Some? && s.stack.value != [] {
      var data, rest := s.stack.value[0], s.stack.value[1..];
      var s1 := s.(firing := false, stack := Some(rest));
      BeginLoops(s1, data);
      OneMoreRound(begun, sizes, data);
      begun', sizes' := LoopRounds(Started(s1, data), n, log, begun + [data], sizes + [0]);
      LoopStacked(s, log);
      assert s.stack.value == [data] + rest;
      assert begun + [data] + rest == begun + s.stack.value;
    } else {
      var e: Event<Fn> := Ended(s.list.value);
      assert [e] + [] == [e];
      assert Finish(s).1 == [];
      begun', sizes' := begun, sizes;
    }
  }

  // The next stacked firing begins where one ends.
  lemma LoopStacked(s: State<Fn>, log: seq<Call>)
    requires s.list.Some? && s.firingIndex >= s.firingLength && s.stack.Some? && s.stack.value != []
    ensures var r := Loop(Started(s.(firing := false, stack := Some(s.stack.value[1..])), s.stack.value[0]));
      Loop(s).0 == r.0 && Logged(log, Loop(s)) == Logged(log, r)
  {
    var s1 := s.(firing := false, stack := Some(s.stack.value[1..]));
    BeginLoops(s1, s.stack.value[0]);
    BeginLogged(s1, s.stack.value[0], log);
    assert Loop(s).1 == [Ended(s.list.value)] + Begin(s1, s.stack.value[0]).1;
  }

  lemma BeginLogged(s: State<Fn>, data: Data, log: seq<Call>)
    requires s.list.Some?
    ensures Logged(log, Begin(s, data)) == Logged(log, Loop(Started(s, data)))
  {
    BeginLoops(s, data);
    var es := Begin(s, data).1;
    assert es == [es[0]] + es[1..];
  }

  // ---------------------------------------------------------------- the operations

  lemma NotifyRounds(s: State<Fn>, n: nat, log: seq<Call>, begun: seq<Data>, sizes: seq<nat>, data: Data)
    returns (begun': seq<Data>, sizes': seq<nat>)
    requires Book(s, n, log, begun, sizes) && s.stack.Some?
    ensures var r := FireWith(s, data);
      && Book(r.0, n, Logged(log, r), begun', sizes') && Onward(begun, sizes, begun', sizes', n)
      && r.0.stack.Some? && begun' + r.0.stack.value == begun + s.stack.value + [data]
  {
    if s.firing {
      begun', sizes' := begun, sizes;
    } else {
      OneMoreRound(begun, sizes, data);
      BeginLoops(s, data);
      BeginLogged(s, data, log);
      begun', sizes' := LoopRounds(Started(s, data), n, log, begun + [data], sizes + [0]);
      assert begun + [data] + [] == begun + [data];
    }
  }

  lemma ReturnRounds(s: State<Fn>, n: nat, log: seq<Call>, begun: seq<Data>, sizes: seq<nat>, returnedFalse: bool)
    returns (begun': seq<Data>, sizes': seq<nat>)
    requires Book(s, n, log, begun, sizes) && s.firing
    ensures var r := Resume(s, returnedFalse);
      && Book(r.0, n, Logged(log, r), begun', sizes')
      && Onward(begun, sizes, begun', sizes', n) && SameOrder(begun, s, begun', r.0)
  {
    begun', sizes' := LoopRounds(s.(firingIndex := s.firingIndex + 1), n, log, begun, sizes);
  }

  lemma ListedAfter(s: State<Fn>, n: nat, more: nat)
    requires ListsLast(s, n) && s.list.Some?
    ensures var list := Appended(false, s.list.value, Users(Progress, n, more), s.nextReg);
      && |list| == |s.list.value| + more
      && FnsOf(list) == Users(Progress, n - |s.list.value|, |list|)
      && forall i :: 0 <= i < |s.list.value| ==> list[i].fn == s.list.value[i].fn
  {
    var fns := Users(Progress, n, more);
    AppendedFns(s.list.value, fns, s.nextReg);
    UsersAt(Progress, n, more);
    UsersAppend(Progress, n - |s.list.value|, |s.list.value|, more);
    var list := Appended(false, s.list.value, fns, s.nextReg);
    assert |FnsOf(list)| == |list|;
    assert forall i :: 0 <= i < |s.list.value| ==> FnsOf(list)[i] == FnsOf(s.list.value)[i];
  }

  // New callbacks at rest: the last round goes on with them.
  lemma RestRounds(s: State<Fn>, n: nat, log: seq<Call>, begun: seq<Data>, sizes: seq<nat>, more: nat)
    returns (begun': seq<Data>, sizes': seq<nat>)
    requires Book(s, n, log, begun, sizes) && s.list.Some? && !s.firing && s.memory.Some?
    ensures var r := Add(s, Users(Progress, n, more));
      && Book(r.0, n + more, Logged(log, r), begun', sizes')
      && Onward(begun, sizes, begun', sizes', n + more) && SameOrder(begun, s, begun', r.0)
  {
    var fns := Users(Progress, n, more);
    ListedAfter(s, n, more);
    UsersAt(Progress, n, more);
    var list := Appended(false, s.list.value, fns, s.nextReg);
    var s1 := s.(list := Some(list), nextReg := s.nextReg + |fns|, firingStart := |s.list.value|);
    assert Add(s, fns) == Begin(s1, s.memory.value);
    BeginLoops(s1, s.memory.value);
    BeginLogged(s1, s.memory.value, log);
    begun', sizes' := LoopRounds(Started(s1, s.memory.value), n + more, log, begun, sizes);
  }

  lemma RegisterRounds(s: State<Fn>, n: nat, log: seq<Call>, begun: seq<Data>, sizes: seq<nat>, more: nat)
    returns (begun': seq<Data>, sizes': seq<nat>)
    requires Book(s, n, log, begun, sizes)
    ensures var r := Add(s, Users(Progress, n, more));
      && Book(r.0, n + more, Logged(log, r), begun', sizes')
      && Onward(begun, sizes, begun', sizes', n + more) && SameOrder(begun, s, begun', r.0)
  {
    if s.list.Some? && !s.firing && s.memory.Some? {
      begun', sizes' := RestRounds(s, n, log, begun, sizes, more);
    } else {
      begun', sizes' := begun, sizes;
      if s.list.Some? {
        ListedAfter(s, n, more);
      }
    }
  }

  lemma LockRounds(s: State<Fn>, n: nat, log: seq<Call>, begun: seq<Data>, sizes: seq<nat>)
    requires Book(s, n, log, begun, sizes)
    ensures Book(Lock(s), n, log, begun, sizes)
  {
  }

  // ---------------------------------------------------------------- the deferred

  ghost predicate Booked(d: Deferred, begun: seq<Data>, sizes: seq<nat>) {
    Book(d.progress, d.progressCount, d.progressLog, begun, sizes)
  }

  ghost predicate ProgressSame(d: Deferred, d': Deferred) {
    d'.progress == d.progress && d'.progressCount == d.progressCount && d'.progressLog == d.progressLog
  }

  lemma OtherEntered(d: Deferred, which: Which, r: (State<Fn>, seq<Event<Fn>>))
    ensures !which.Progress? ==> ProgressSame(d, Entered(d, which, r))
    ensures which.Progress? ==>
              var d' := Entered(d, which, r);
              d'.progress == r.0 && d'.progressCount == d.progressCount && d'.progressLog == Logged(d.progressLog, r)
  {
  }

  // What a move does to the rounds; `more` is what it asks for.
  ghost predicate Moved(d: Deferred, m: Move, begun: seq<Data>, sizes: seq<nat>, begun': seq<Data>, sizes': seq<nat>) {
    var d', more := Next(d, m), if m.FireList? && m.which.Progress? then [m.data] else [];
    && Booked(d', begun', sizes') && Onward(begun, sizes, begun', sizes', d'.progressCount)
    && (d.first.Some? || (m.FireList? && !m.which.Progress?) ==> begun' == begun)
    && (d.first.None? ==>
          && d.progress.stack.Some? && d'.progress.stack.Some?
          && begun' + d'.progress.stack.value == begun + d.progress.stack.value + more)
  }

  // While user code runs in a settled deferred, nothing is stacked.
  lemma SettledHasNoStack(d: Deferred)
    requires Inv(d) && d.first.Some?
    ensures !OwnRunning(d) ==> d.progress.stack.None?
    ensures OwnRunning(d) ==> !d.frames[|d.frames| - 1].which.Progress?
  {
  }

  lemma SameMoved(d: Deferred, m: Move, begun: seq<Data>, sizes: seq<nat>)
    requires Inv(d) && Booked(d, begun, sizes) && ProgressSame(d, Next(d, m))
    requires d.first.None? ==> !(m.FireList? && m.which.Progress?)
    ensures Moved(d, m, begun, sizes, begun, sizes)
  {
  }

  lemma NotifyMoved(d: Deferred, data: Data, begun: seq<Data>, sizes: seq<nat>)
    returns (begun': seq<Data>, sizes': seq<nat>)
    requires Inv(d) && Booked(d, begun, sizes)
    ensures Moved(d, FireList(Progress, data), begun, sizes, begun', sizes')
  {
    begun', sizes' := begun, sizes;
    if d.first.Some? {
      if !OwnRunning(d) {
        Notify(d, data);
      }
      SameMoved(d, FireList(Progress, data), begun, sizes);
    } else {
      begun', sizes' := NotifyRounds(d.progress, d.progressCount, d.progressLog, begun, sizes, data);
      OtherEntered(d, Progress, FireWith(d.progress, data));
    }
  }

  // The progress list has done an operation that asks for no further round.
  lemma ListMoved(d: Deferred, m: Move, r: (State<Fn>, seq<Event<Fn>>), d': Deferred, begun: seq<Data>,
                  sizes: seq<nat>, begun': seq<Data>, sizes': seq<nat>)
    requires Inv(d) && !OwnRunning(d) && d' == Next(d, m) && !m.FireList?
    requires d'.progress == r.0 && d'.progressLog == Logged(d.progressLog, r)
    requires Book(r.0, d'.progressCount, Logged(d.progressLog, r), begun', sizes')
    requires Onward(begun, sizes, begun', sizes', d'.progressCount) && SameOrder(begun, d.progress, begun', r.0)
    ensures Moved(d, m, begun, sizes, begun', sizes')
  {
    if d.first.Some? {
      SettledHasNoStack(d);
    } else {
      assert begun + d.progress.stack.value + [] == begun + d.progress.stack.value;
    }
  }

  lemma RegisterLogged(d: Deferred, n: nat)
    requires !OwnRunning(d)
    ensures var r, d' := Add(d.progress, Users(Progress, d.progressCount, n)), Next(d, Register(Progress, n));
      d'.progress == r.0 && d'.progressCount == d.progressCount + n && d'.progressLog == Logged(d.progressLog, r)
  {
    RegisterEntered(d, Progress, n);
    OtherEntered(WithCount(d, Progress, d.progressCount + n), Progress,
                 Add(d.progress, Users(Progress, d.progressCount, n)));
  }

  lemma RegisterMoved(d: Deferred, m: Move, begun: seq<Data>, sizes: seq<nat>)
    returns (begun': seq<Data>, sizes': seq<nat>)
    requires Inv(d) && Booked(d, begun, sizes) && m.Register? && m.which.Progress?
    ensures Moved(d, m, begun, sizes, begun', sizes')
  {
    if OwnRunning(d) {
      begun', sizes' := begun, sizes;
      SameMoved(d, m, begun, sizes);
    } else {
      var r := Add(d.progress, Users(Progress, d.progressCount, m.n));
      begun', sizes' := RegisterRounds(d.progress, d.progressCount, d.progressLog, begun, sizes, m.n);
      RegisterLogged(d, m.n);
      ListMoved(d, m, r, Next(d, m), begun, sizes, begun', sizes');
    }
  }

  // The deferred's own callbacks leave the rounds alone; the last one locks the list.
  lemma OwnWork(d: Deferred)
    requires Inv(d) && OwnRunning(d)
    ensures !d.frames[|d.frames| - 1].which.Progress? && d.first.Some?
    ensures ProgressSame(d, Worked(d)) || ProgressSame(d.(progress := Lock(d.progress)), Worked(d))
  {
    var (w, data) := d.first.value;
    var i: nat :| IsSettling(d, w, data, i);
  }

  lemma OwnMoved(d: Deferred, m: Move, begun: seq<Data>, sizes: seq<nat>)
    requires Inv(d) && Booked(d, begun, sizes) && OwnRunning(d) && m.Return?
    ensures Moved(d, m, begun, sizes, begun, sizes)
  {
    var which, d1 := d.frames[|d.frames| - 1].which, Worked(d);
    OwnWork(d);
    OtherEntered(d1, which, Resume(List(d1, which), false));
    LockRounds(d.progress, d.progressCount, d.progressLog, begun, sizes);
  }

  lemma ReturnMoved(d: Deferred, m: Move, begun: seq<Data>, sizes: seq<nat>)
    returns (begun': seq<Data>, sizes': seq<nat>)
    requires Inv(d) && Booked(d, begun, sizes) && m.Return?
    ensures Moved(d, m, begun, sizes, begun', sizes')
  {
    begun', sizes' := begun, sizes;
    if d.frames == [] {
      SameMoved(d, m, begun, sizes);
    } else if OwnRunning(d) {
      OwnMoved(d, m, begun, sizes);
    } else {
      var top, d1 := d.frames[|d.frames| - 1], Worked(d);
      var r := Resume(List(d1, top.which), m.returnedFalse);
      OtherEntered(d1, top.which, r);
      if top.which.Progress? {
        FramesPopped(d);
        begun', sizes' := ReturnRounds(d.progress, d.progressCount, d.progressLog, begun, sizes, m.returnedFalse);
        ListMoved(d, m, r, Next(d, m), begun, sizes, begun', sizes');
      } else {
        SameMoved(d, m, begun, sizes);
      }
    }
  }

  lemma MoveRounds(d: Deferred, m: Move, begun: seq<Data>, sizes: seq<nat>)
    returns (begun': seq<Data>, sizes': seq<nat>)
    requires Inv(d) && Booked(d, begun, sizes)
    ensures Moved(d, m, begun, sizes, begun', sizes')
  {
    match m
    case Return(_) => begun', sizes' := ReturnMoved(d, m, begun, sizes);
    case Register(which, _) =>
      if which.Progress? {
        begun', sizes' := RegisterMoved(d, m, begun, sizes);
      } else {
        begun', sizes' := begun, sizes;
        OtherSame(d, m);
        SameMoved(d, m, begun, sizes);
      }
    case FireList(which, data) =>
      if which.Progress? {
        begun', sizes' := NotifyMoved(d, data, begun, sizes);
      } else {
        begun', sizes' := begun, sizes;
        OtherSame(d, m);
        SameMoved(d, m, begun, sizes);
      }
  }

  // Registering with done or fail, and firing them.
  lemma OtherSame(d: Deferred, m: Move)
    requires !m.Return? && !m.which.Progress?
    ensures ProgressSame(d, Next(d, m))
  {
    if !OwnRunning(d) {
      match m
      case Register(which, n) =>
        OtherEntered(WithCount(d, which, Count(d, which) + n), which,
                     Add(List(d, which), Users(which, Count(d, which), n)));
      case FireList(which, data) =>
        OtherEntered(if d.first.None? then d.(first := Some((which, data))) else d, which,
                     FireWith(List(d, which), data));
    }
  }

  // ---------------------------------------------------------------- runs

  lemma {:induction false} IssuedFacts(moves: seq<Move>)
    ensures |Issued(moves)| == |Notified(moves)|
    ensures forall r :: 0 <= r < |Issued(moves)| ==> Issued(moves)[r] <= Registrations(moves, Progress)
  {
    if moves != [] {
      IssuedFacts(moves[..|moves| - 1]);
    }
  }

  // The rounds of a run: all that have ended called the callbacks registered at their notify, at least.
  ghost predicate RunBooked(moves: seq<Move>, sizes: seq<nat>) {
    var d, begun, all := After(moves), Carried(moves), Notified(moves);
    && Booked(d, begun, sizes) && begun <= all && |all| == |Issued(moves)|
    && (FirstSettle(moves).None? ==> d.progress.stack.Some? && begun + d.progress.stack.value == all)
    && (forall r :: 0 <= r < |sizes| ==> sizes[r] <= d.progressCount)
    && (forall r :: 0 <= r < |sizes| - 1 ==> Issued(moves)[r] <= sizes[r])
  }

  lemma NewRounds()
    ensures RunBooked([], [])
  {
    NewBook();
    assert After([]) == NewDeferred() && NewDeferred().progress == New<Fn>(MEMORY);
    assert Notified([]) == [] && Issued([]) == [] && Carried([]) == [];
  }

  lemma NewBook()
    ensures Book(New<Fn>(MEMORY), 0, [], [], [])
  {
    assert FnsOf(New<Fn>(MEMORY).list.value) == Users(Progress, 0, 0);
  }

  // The order of the rounds after a move.
  lemma CarriedNext(moves: seq<Move>, begun: seq<Data>, sizes: seq<nat>, begun': seq<Data>, sizes': seq<nat>)
    requires moves != []
    requires var before := moves[..|moves| - 1];
      && RunBooked(before, sizes) && begun == Carried(before)
      && Moved(After(before), moves[|moves| - 1], begun, sizes, begun', sizes')
    ensures begun' == Carried(moves) && begun' <= Notified(moves)
    ensures FirstSettle(moves).None? ==>
              var s := After(moves).progress; s.stack.Some? && begun' + s.stack.value == Notified(moves)
  {
    var before := moves[..|moves| - 1];
    FirstIsFirst(before);
    FirstIsFirst(moves);
    EveryRunInv(moves);
    if FirstSettle(moves).None? {
      var stack := After(moves).progress.stack.value;
      assert begun' + stack == Notified(moves);
      assert Before(begun' + stack, |stack|) == begun';
    }
  }

  lemma {:induction false} RunRounds(moves: seq<Move>) returns (sizes: seq<nat>)
    ensures RunBooked(moves, sizes)
  {
    if moves == [] {
      NewRounds();
      sizes := [];
    } else {
      var before, m := moves[..|moves| - 1], moves[|moves| - 1];
      var sizes0 := RunRounds(before);
      EveryRunInv(before);
      var d := After(before);
      var begun;
      begun, sizes := MoveRounds(d, m, Carried(before), sizes0);
      CarriedNext(moves, Carried(before), sizes0, begun, sizes);
      IssuedFacts(moves);
      AllAreCounted(moves, Progress);
      MoveCounts(d, m, Progress);
      var d' := After(moves);
      LastSize(d'.progress, d'.progressCount, d'.progressLog, begun, sizes);
      SizesNext(Carried(before), sizes0, begun, sizes, d.progressCount, d'.progressCount);
    }
  }

  lemma LastSize(s: State<Fn>, n: nat, log: seq<Call>, begun: seq<Data>, sizes: seq<nat>)
    requires Book(s, n, log, begun, sizes)
    ensures sizes != [] ==> sizes[|sizes| - 1] <= n
  {
  }

  lemma SizesNext(begun: seq<Data>, sizes: seq<nat>, begun': seq<Data>, sizes': seq<nat>, n: nat, n': nat)
    requires Onward(begun, sizes, begun', sizes', n') && (sizes' != [] ==> sizes'[|sizes'| - 1] <= n') && n <= n'
    requires forall r :: 0 <= r < |sizes| ==> sizes[r] <= n
    ensures forall r :: 0 <= r < |sizes'| ==> sizes'[r] <= n'
  {
    forall r | 0 <= r < |sizes'|
      ensures sizes'[r] <= n'
    {
      if r < |sizes| - 1 {
        assert sizes'[r] == sizes[r];
      } else if r < |sizes'| - 1 {
        assert sizes'[r] == n';
      }
    }
  }

  // A progress callback is running.
  ghost predicate InProgress(d: Deferred) {
    Deferreds.Has(d.frames, Progress)
  }

  // Over every run, however the calls are nested: what the progress callbacks received is one round after another, a
  // round for each notify in the order they were issued, with its data; a round calls the callbacks in the order of
  // their registration, each once; when it is over, it has called all that were registered at its notify; and unless
  // a progress callback is running, the last round has called all that were registered up to now, and no notify
  // before the settling waits for its round.
  lemma ProgressRounds(moves: seq<Move>) returns (sizes: seq<nat>)
    ensures var d, begun, n := After(moves), Carried(moves), Registrations(moves, Progress);
      && |sizes| == |begun| <= |Issued(moves)| && d.progressLog == Rounds(begun, sizes)
      && begun <= Notified(moves)
      && (forall r :: 0 <= r < |sizes| ==> sizes[r] <= n)
      && (forall r :: 0 <= r < |sizes| - 1 ==> Issued(moves)[r] <= sizes[r])
      && (InProgress(d) ==> sizes != [] && sizes[|sizes| - 1] > 0)
      && (!InProgress(d) && sizes != [] ==> sizes[|sizes| - 1] == n)
      && (!InProgress(d) && FirstSettle(moves).None? ==> begun == Notified(moves))
  {
    sizes := RunRounds(moves);
    EveryRunInv(moves);
    AllAreCounted(moves, Progress);
    if FirstSettle(moves).None? && !InProgress(After(moves)) {
      assert Carried(moves) + [] == Carried(moves);
    }
  }

  // Settling gives up the notifies that wait, and ends with the rounds that have begun before it.
  lemma {:induction false} CarriedForGood(moves: seq<Move>, n: nat)
    requires n < |moves| && FirstSettle(moves[..n]).None? && FirstSettle(moves[..n + 1]).Some?
    ensures Carried(moves) == Carried(moves[..n])
  {
    var before := moves[..|moves| - 1];
    SettledStays(moves, n + 1);
    if n < |before| {
      assert before[..n] == moves[..n] && before[..n + 1] == moves[..n + 1];
      CarriedForGood(before, n);
    }
  }

  lemma {:induction false} SettledStays(moves: seq<Move>, n: nat)
    requires n <= |moves| && FirstSettle(moves[..n]).Some?
    ensures FirstSettle(moves) == FirstSettle(moves[..n])
  {
    if n == |moves| {
      assert moves[..n] == moves;
    } else {
      assert moves[..|moves| - 1][..n] == moves[..n];
      SettledStays(moves[..|moves| - 1], n);
    }
  }

  // A notify made while no progress callback is running calls the first one at once.
  lemma NotifyCallsAtOnce(moves: seq<Move>, data: Data)
    requires FirstSettle(moves).None? && !InProgress(After(moves))
    ensures After(moves + [FireList(Progress, data)]).progressLog ==
            After(moves).progressLog + if Registrations(moves, Progress) == 0 then [] else [Call(0, data)]
  {
    var d, next := After(moves), moves + [FireList(Progress, data)];
    assert next[..|moves|] == moves;
    var sizes := RunRounds(moves);
    FirstIsFirst(moves);
    EveryRunInv(moves);
    AllAreCounted(moves, Progress);
    var s := d.progress;
    UsersAt(Progress, 0, d.progressCount);
    BeginLogged(s, data, d.progressLog);
    OtherEntered(d, Progress, FireWith(s, data));
    if d.progressCount > 0 {
      LoopCalls(Started(s, data));
      assert FnsOf(s.list.value)[0] == User(Progress, 0);
    } else {
      LoopRests(Started(s, data));
    }
  }

  lemma LoopRests(s: State<Fn>)
    requires s.list.Some? && s.stack == Some([]) && s.firingIndex >= s.firingLength
    ensures !EndsInCall(Loop(s).1)
  {
    var e: Event<Fn> := Ended(s.list.value);
    assert [e] + [] == [e];
    assert Finish(s).1 == [];
  }

  // Returning asks for nothing.
  ghost predicate AsksTheSame(moves: seq<Move>, all: seq<Move>) {
    && Notified(all) == Notified(moves) && Issued(all) == Issued(moves)
    && Registrations(all, Progress) == Registrations(moves, Progress)
    && FirstSettle(all) == FirstSettle(moves) && (FirstSettle(moves).Some? ==> Carried(all) == Carried(moves))
  }

  lemma ReturnAsksNothing(moves: seq<Move>, all: seq<Move>)
    requires all != [] && all[..|all| - 1] == moves && all[|all| - 1] == Return(false)
    ensures AsksTheSame(moves, all)
  {
    assert Notified(all) == Notified(moves) + [];
    assert Issued(all) == Issued(moves) + [];
  }

  lemma {:induction false} ReturnsAskNothing(moves: seq<Move>, k: nat)
    ensures AsksTheSame(moves, moves + Returns(k))
  {
    var all := moves + Returns(k);
    if k == 0 {
      assert all == moves;
    } else {
      ReturnsAskNothing(moves, k - 1);
      assert all[..|all| - 1] == moves + Returns(k - 1);
      ReturnAsksNothing(moves + Returns(k - 1), all);
    }
  }

  // Each notify has had its round, unless the settling gave it up, with its own data and in its turn, of all callbacks
  // that were registered when it was issued or more; and whoever is registered has received the last data.
  ghost predicate AllCarriedOut(moves: seq<Move>, log: seq<Call>, sizes: seq<nat>) {
    var begun := if FirstSettle(moves).None? then Notified(moves) else Carried(moves);
    && |sizes| == |begun| <= |Issued(moves)| && log == Rounds(begun, sizes)
    && (forall r :: 0 <= r < |begun| ==> Issued(moves)[r] <= sizes[r] <= Registrations(moves, Progress))
    && (begun != [] ==> sizes[|sizes| - 1] == Registrations(moves, Progress))
  }

  lemma QuietRounds(moves: seq<Move>) returns (sizes: seq<nat>)
    requires After(moves).frames == []
    ensures AllCarriedOut(moves, After(moves).progressLog, sizes)
  {
    IssuedFacts(moves);
    sizes := ProgressRounds(moves);
  }

  // If no more is registered or fired, every run comes to its end, and then all notifies have been carried out.
  lemma AllProgressIsCalled(moves: seq<Move>) returns (k: nat, sizes: seq<nat>)
    ensures After(moves + Returns(k)).frames == []
    ensures AllCarriedOut(moves, After(moves + Returns(k)).progressLog, sizes)
  {
    k := EveryRunCanEnd(moves);
    ReturnsAskNothing(moves, k);
    sizes := QuietRounds(moves + Returns(k));
  }

  // What has been called stays called.
  lemma {:induction false} LogGrows(moves: seq<Move>, n: nat, which: Which)
    requires n <= |moves|
    ensures Log(After(moves[..n]), which) <= Log(After(moves), which)
  {
    var l := |moves| - 1;
    if n == |moves| {
      assert moves[..n] == moves;
    } else {
      assert moves[..l][..n] == moves[..n];
      LogGrows(moves[..l], n, which);
      MoveLogs(After(moves[..l]), moves[l], which);
    }
  }

  lemma EnteredLogs(d: Deferred, which: Which, r: (State<Fn>, seq<Event<Fn>>), o: Which)
    ensures Log(d, o) <= Log(Entered(d, which, r), o)
  {
  }

  lemma MoveLogs(d: Deferred, m: Move, which: Which)
    ensures Log(d, which) <= Log(Next(d, m), which)
  {
    match m
    case Return(_) => ReturnLogs(d, m, which);
    case Register(on, n) =>
      EnteredLogs(WithCount(d, on, Count(d, on) + n), on, Add(List(d, on), Users(on, Count(d, on), n)), which);
    case FireList(on, data) =>
      EnteredLogs(if d.first.None? && !on.Progress? then d.(first := Some((on, data))) else d, on,
                  FireWith(List(d, on), data), which);
  }

  lemma ReturnLogs(d: Deferred, m: Move, which: Which)
    requires m.Return?
    ensures Log(d, which) <= Log(Next(d, m), which)
  {
    if d.frames != [] {
      var top, d1 := d.frames[|d.frames| - 1], Worked(d);
      EnteredLogs(d1, top.which, Resume(List(d1, top.which), m.returnedFalse && top.fn.User?), which);
    }
  }
}
