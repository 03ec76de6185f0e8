// Callback lists: functions that are added, removed and fired, also while a firing goes on.
module Callbacks {
  import opened Prelude

  // ---------------------------------------------------------------- values

  datatype Options = Options(once: bool, memory: bool, unique: bool, stopOnFalse: bool)

  // The values that are passed about; nothing looks into them but `when`, which makes arrays of them.
  datatype Value = Undefined | Plain(n: int) | Items(items: seq<Value>)

  // What a list is fired with.
  datatype Data = Data(context: Value, args: seq<Value>)

  // A callback in the list.  Its registration number only tells entries of one function apart: no decision
  // looks at it.
  datatype Entry<F> = Entry(fn: F, reg: nat)

  // What happens: a firing begins, with the entries from a registration number on; a callback is called;
  // a firing comes to the end of the list; it is cut short by a callback that returned false; the list has
  // been disabled meanwhile; or the list has been emptied meanwhile and an entry is missing.
  datatype Event<F> =
    | Began(from: nat, data: Data)
    | Called(entry: Entry<F>, data: Data)
    | Ended(listed: seq<Entry<F>>)
    | Stopped
    | Vanished
    | Missing

  // The variables of a list.  A falsy list, stack or memory is None.
  datatype State<F> = State(
    options: Options,
    memory: Option<Data>,
    fired: bool,
    firing: bool,
    firingStart: nat,
    firingLength: nat,
    firingIndex: int,
    list: Option<seq<Entry<F>>>,
    stack: Option<seq<Data>>,
    data: Data,
    nextReg: nat)

  function New<F>(options: Options): State<F> {
    var stack := if options.once then None else Some([]);
    State(options, None, false, false, 0, 0, 0, Some([]), stack, Data(Undefined, []), 0)
  }

  function Pending<F>(s: State<F>): nat {
    if s.stack.Some? then |s.stack.value| else 0
  }

  // ---------------------------------------------------------------- firing

  function Begin<F>(s: State<F>, data: Data): (State<F>, seq<Event<F>>)
    requires s.list.Some?
    decreases Pending(s), 2
  {
    var s1 := s.(memory := if s.options.memory then Some(data) else None, fired := true,
                 firingIndex := s.firingStart, firingStart := 0, firingLength := |s.list.value|,
                 firing := true, data := data);
    var from := if s.firingStart < |s.list.value| then s.list.value[s.firingStart].reg else s.nextReg;
    var (s2, es) := Loop(s1);
    (s2, [Began(from, data)] + es)
  }

  // The head of the firing loop: the next callback, or the end.
  function Loop<F>(s: State<F>): (State<F>, seq<Event<F>>)
    decreases Pending(s), 1
  {
    if s.list.Some? && s.firingIndex < s.firingLength then
      if 0 <= s.firingIndex < |s.list.value| then (s, [Called(s.list.value[s.firingIndex], s.data)])
      else (s, [Missing])
    else
      var (s2, es) := Finish(s);
      (s2, [if s.list.Some? then Ended(s.list.value) else Vanished] + es)
  }

  function Finish<F>(s: State<F>): (State<F>, seq<Event<F>>)
    decreases Pending(s), 0
  {
    var s1 := s.(firing := false);
    if s.list.None? then (s1, [])
    else if s.stack.Some? then
      if s.stack.value != [] then Begin(s1.(stack := Some(s.stack.value[1..])), s.stack.value[0]) else (s1, [])
    else if s.memory.Some? then (s1.(list := Some([])), [])
    else (Disable(s1), [])
  }

  // The callback that was called last returns.
  function Resume<F>(s: State<F>, returnedFalse: bool): (State<F>, seq<Event<F>>) {
    if returnedFalse && s.options.stopOnFalse then
      var (s2, es) := Finish(s.(memory := None));
      (s2, [Stopped] + es)
    else Loop(s.(firingIndex := s.firingIndex + 1))
  }

  // ---------------------------------------------------------------- operations

  function Has<F(==)>(list: seq<Entry<F>>, fn: F): bool {
    exists i :: 0 <= i < |list| && list[i].fn == fn
  }

  function Appended<F(==)>(unique: bool, list: seq<Entry<F>>, fns: seq<F>, reg: nat): seq<Entry<F>> {
    if fns == [] then list
    else
      var before := Appended(unique, list, fns[..|fns| - 1], reg);
      var fn := fns[|fns| - 1];
      if unique && Has(before, fn) then before else before + [Entry(fn, reg + |fns| - 1)]
  }

  function Add<F(==)>(s: State<F>, fns: seq<F>): (State<F>, seq<Event<F>>) {
    if s.list.None? then (s, [])
    else
      var start := |s.list.value|;
      var list := Appended(s.options.unique, s.list.value, fns, s.nextReg);
      var s1 := s.(list := Some(list), nextReg := s.nextReg + |fns|);
      if s.firing then (s1.(firingLength := |list|), [])
      else if s.memory.Some? then Begin(s1.(firingStart := start), s.memory.value)
      else (s1, [])
  }

  // The entries without those of a function; how many of these are at or before an index.
  function Without<F(==)>(list: seq<Entry<F>>, fn: F): seq<Entry<F>> {
    if list == [] then []
    else
      var l := |list| - 1;
      if list[l].fn == fn then Without(list[..l], fn) else Without(list[..l], fn) + [list[l]]
  }

  function CountUpTo<F(==)>(list: seq<Entry<F>>, fn: F, index: int): nat {
    if list == [] then 0
    else
      var l := |list| - 1;
      CountUpTo(list[..l], fn, index) + if list[l].fn == fn && l <= index then 1 else 0
  }

  function RemoveOne<F(==)>(s: State<F>, fn: F): State<F>
    requires s.list.Some?
  {
    var s1 := s.(list := Some(Without(s.list.value, fn)));
    if s.firing then
      s1.(firingLength := |Without(s.list.value, fn)|,
          firingIndex := s.firingIndex - CountUpTo(s.list.value, fn, s.firingIndex))
    else s1
  }

  function Remove<F(==)>(s: State<F>, fns: seq<F>): State<F> {
    if s.list.None? || fns == [] then s
    else RemoveOne(Remove(s, fns[..|fns| - 1]), fns[|fns| - 1])
  }

  function Disable<F>(s: State<F>): State<F> {
    s.(list := None, stack := None, memory := None)
  }

  function Lock<F>(s: State<F>): State<F> {
    var s1 := s.(stack := None);
    if s.memory.None? then Disable(s1) else s1
  }

  function Emptied<F>(s: State<F>): State<F> {
    s.(list := Some([]))
  }

  function FireWith<F>(s: State<F>, data: Data): (State<F>, seq<Event<F>>) {
    if s.list.Some? && (!s.fired || s.stack.Some?) then
      if s.firing then (if s.stack.Some? then s.(stack := Some(s.stack.value + [data])) else s, [])
      else Begin(s, data)
    else (s, [])
  }

  // ---------------------------------------------------------------- what a firing owes its callbacks

  // What has been seen of the last firing: the registration number it takes callbacks from, what it was begun with,
  // the callbacks called so far, and whether it is over.
  datatype Watch = Watch(from: nat, data: Data, ran: seq<nat>, over: bool)

  // Nothing has been fired yet.
  const UNSEEN := Watch(0, Data(Undefined, []), [], true)

  ghost function Watched<F>(w: Watch, e: Event<F>): Watch {
    match e
    case Began(from, data) => Watch(from, data, [], false)
    case Called(entry, _) => w.(ran := w.ran + [entry.reg])
    case Missing => w
    case _ => w.(over := true)
  }

  // A firing begins when none goes on.  While it goes on a callback is called with what it was begun with, after those
  // registered before it, and not twice; at the end of the list every callback that is still listed and takes part has
  // been called; and no entry is ever missing.
  ghost predicate Proper<F>(w: Watch, e: Event<F>) {
    match e
    case Began(_, _) => w.over
    case Called(entry, data) =>
      !w.over && data == w.data && entry.reg >= w.from && forall r :: r in w.ran ==> r < entry.reg
    case Ended(listed) => !w.over && forall i :: 0 <= i < |listed| && listed[i].reg >= w.from ==> listed[i].reg in w.ran
    case Missing => false
    case _ => !w.over
  }

  ghost function WatchedAll<F>(w: Watch, es: seq<Event<F>>): Watch {
    if es == [] then w else Watched(WatchedAll(w, es[..|es| - 1]), es[|es| - 1])
  }

  ghost predicate AllProper<F>(w: Watch, es: seq<Event<F>>) {
    es == [] || (AllProper(w, es[..|es| - 1]) && Proper(WatchedAll(w, es[..|es| - 1]), es[|es| - 1]))
  }

  lemma {:induction false} WatchedCons<F>(w: Watch, e: Event<F>, es: seq<Event<F>>)
    ensures WatchedAll(w, [e] + es) == WatchedAll(Watched(w, e), es)
    ensures AllProper(w, [e] + es) <==> Proper(w, e) && AllProper(Watched(w, e), es)
  {
    var all := [e] + es;
    if es == [] {
      assert all[..0] == [];
    } else {
      WatchedCons(w, e, es[..|es| - 1]);
      assert all[..|all| - 1] == [e] + es[..|es| - 1];
    }
  }

  ghost predicate Ordered<F>(list: seq<Entry<F>>, limit: nat) {
    && (forall i, j :: 0 <= i < j < |list| ==> list[i].reg < list[j].reg)
    && forall i :: 0 <= i < |list| ==> list[i].reg < limit
  }

  // How the firing index stands to the list while the callbacks up to it have been called.
  ghost predicate UpTo<F>(list: seq<Entry<F>>, index: int, w: Watch) {
    && (forall i :: 0 <= i < |list| && i <= index ==> list[i].reg in w.ran || list[i].reg < w.from)
    && (forall i, r :: 0 <= i < |list| && i > index && r in w.ran ==> r < list[i].reg)
    && (forall i :: 0 <= i < |list| && i > index ==> list[i].reg >= w.from)
  }

  // Holds between any two steps of a run in which the list is only emptied when it can be.
  ghost predicate Good<F>(s: State<F>, w: Watch) {
    && s.firingStart == 0 && (s.firing ==> s.fired) && (s.firing <==> !w.over)
    && (s.firing ==> s.data == w.data) && (s.memory.Some? ==> s.fired && s.memory.value == w.data)
    && (s.list.Some? ==> Ordered(s.list.value, s.nextReg))
    && (s.firing ==> w.from <= s.nextReg && forall r :: r in w.ran ==> r < s.nextReg)
    && (s.firing ==> -1 <= s.firingIndex < s.firingLength)
    && (s.firing && s.list.Some? ==>
          s.firingLength == |s.list.value| && UpTo(s.list.value, s.firingIndex, w))
  }

  // The loop, with all up to the index called.
  lemma LoopGood<F>(s: State<F>, w: Watch)
    requires s.firing && s.fired && s.firingStart == 0 && w.from <= s.nextReg
    requires !w.over && s.data == w.data && (s.memory.Some? ==> s.memory.value == w.data)
    requires forall r :: r in w.ran ==> r < s.nextReg
    requires s.list.Some? ==> Ordered(s.list.value, s.nextReg) && s.firingLength == |s.list.value| &&
                              0 <= s.firingIndex <= |s.list.value| && UpTo(s.list.value, s.firingIndex - 1, w)
    ensures var (s', es) := Loop(s); AllProper(w, es) && Good(s', WatchedAll(w, es))
    decreases Pending(s), 1
  {
    if s.list.Some? && s.firingIndex < s.firingLength {
      var e: Event<F> := Called(s.list.value[s.firingIndex], s.data);
      WatchedCons(w, e, []);
      assert [e] + [] == [e];
    } else {
      var e: Event<F> := if s.list.Some? then Ended(s.list.value) else Vanished;
      FinishGood(s, Watched(w, e));
      WatchedCons(w, e, Finish(s).1);
    }
  }

  lemma FinishGood<F>(s: State<F>, w: Watch)
    requires s.firingStart == 0 && (s.list.Some? ==> Ordered(s.list.value, s.nextReg))
    requires w.over && (s.memory.Some? ==> s.fired && s.memory.value == w.data)
    ensures var (s', es) := Finish(s); AllProper(w, es) && Good(s', WatchedAll(w, es))
    decreases Pending(s), 0
  {
    if s.list.Some? && s.stack.Some? && s.stack.value != [] {
      BeginGood(s.(firing := false, stack := Some(s.stack.value[1..])), s.stack.value[0], w);
    }
  }

  lemma BeginGood<F>(s: State<F>, data: Data, w: Watch)
    requires s.list.Some? && Ordered(s.list.value, s.nextReg) && s.firingStart <= |s.list.value| && w.over
    ensures var (s', es) := Begin(s, data); AllProper(w, es) && Good(s', WatchedAll(w, es))
    decreases Pending(s), 2
  {
    var s1 := s.(memory := if s.options.memory then Some(data) else None, fired := true,
                 firingIndex := s.firingStart, firingStart := 0, firingLength := |s.list.value|,
                 firing := true, data := data);
    var from := if s.firingStart < |s.list.value| then s.list.value[s.firingStart].reg else s.nextReg;
    LoopGood(s1, Watch(from, data, [], false));
    WatchedCons(w, Began(from, data), Loop(s1).1);
  }

  lemma ResumeGood<F>(s: State<F>, returnedFalse: bool, w: Watch)
    requires Good(s, w) && s.firing
    ensures var (s', es) := Resume(s, returnedFalse); AllProper(w, es) && Good(s', WatchedAll(w, es))
  {
    if returnedFalse && s.options.stopOnFalse {
      FinishGood(s.(memory := None), w.(over := true));
      WatchedCons(w, Stopped, Finish(s.(memory := None)).1);
    } else {
      LoopGood(s.(firingIndex := s.firingIndex + 1), w);
    }
  }

  lemma FireWithGood<F>(s: State<F>, data: Data, w: Watch)
    requires Good(s, w)
    ensures var (s', es) := FireWith(s, data); AllProper(w, es) && Good(s', WatchedAll(w, es))
  {
    if s.list.Some? && (!s.fired || s.stack.Some?) && !s.firing {
      BeginGood(s, data, w);
    }
  }

  // The entries that are appended come after those there, under new numbers.
  lemma {:induction false} AppendedFacts<F>(unique: bool, list: seq<Entry<F>>, fns: seq<F>, reg: nat)
    requires Ordered(list, reg)
    ensures var list' := Appended(unique, list, fns, reg);
      && list <= list' && Ordered(list', reg + |fns|)
      && forall i :: |list| <= i < |list'| ==> list'[i].reg >= reg
  {
    if fns != [] {
      AppendedFacts(unique, list, fns[..|fns| - 1], reg);
    }
  }

  lemma AddGood<F>(s: State<F>, fns: seq<F>, w: Watch)
    requires Good(s, w)
    ensures var (s', es) := Add(s, fns); AllProper(w, es) && Good(s', WatchedAll(w, es))
  {
    if s.list.Some? {
      AppendedFacts(s.options.unique, s.list.value, fns, s.nextReg);
      var list := Appended(s.options.unique, s.list.value, fns, s.nextReg);
      if !s.firing && s.memory.Some? {
        BeginGood(s.(list := Some(list), nextReg := s.nextReg + |fns|, firingStart := |s.list.value|),
                  s.memory.value, w);
      }
    }
  }

  lemma {:induction false} WithoutFacts<F>(list: seq<Entry<F>>, fn: F, index: int)
    ensures forall e :: e in Without(list, fn) <==> e in list && e.fn != fn
    ensures |Without(list, fn)| == |list| - CountUpTo(list, fn, |list|)
    ensures index >= |list| ==> CountUpTo(list, fn, index) == CountUpTo(list, fn, |list|)
  {
    if list != [] {
      var l := |list| - 1;
      WithoutFacts(list[..l], fn, index);
      WithoutFacts(list[..l], fn, |list|);
      assert list == list[..l] + [list[l]];
    }
  }

  lemma WithoutFrom<F>(list: seq<Entry<F>>, fn: F, out: seq<Entry<F>>, i: nat)
    requires out == Without(list, fn) && i < |out|
    ensures out[i] in list && out[i].fn != fn
  {
    WithoutFacts(list, fn, 0);
    assert out[i] in Without(list, fn);
  }

  lemma {:induction false} WithoutOrdered<F>(list: seq<Entry<F>>, fn: F, limit: nat)
    requires Ordered(list, limit)
    ensures Ordered(Without(list, fn), limit)
  {
    if list != [] {
      var l := |list| - 1;
      WithoutOrdered(list[..l], fn, limit);
      var before := Without(list[..l], fn);
      forall i | 0 <= i < |before|
        ensures before[i].reg < list[l].reg
      {
        WithoutFrom(list[..l], fn, before, i);
      }
    }
  }

  // What is at or before an index stays at or before it, counted without the removed entries.
  lemma {:induction false} WithoutSplits<F>(list: seq<Entry<F>>, fn: F, index: int)
    requires -1 <= index < |list|
    ensures var k := index + 1 - CountUpTo(list, fn, index);
      && 0 <= k <= |Without(list, fn)|
      && Without(list, fn)[..k] == Without(list[..index + 1], fn)
      && forall e :: e in Without(list, fn)[k..] ==> e in list[index + 1..]
  {
    var l := |list| - 1;
    if index == l {
      WithoutFacts(list, fn, index);
      WithoutFacts(list, fn, |list|);
      assert list[..index + 1] == list;
      CountAll(list, fn);
      assert Without(list, fn)[..|Without(list, fn)|] == Without(list, fn);
    } else {
      WithoutSplits(list[..l], fn, index);
      assert list[..l][..index + 1] == list[..index + 1];
      assert list[index + 1..] == list[..l][index + 1..] + [list[l]];
      var k := index + 1 - CountUpTo(list, fn, index);
      var before, last := Without(list[..l], fn), if list[l].fn == fn then [] else [list[l]];
      assert Without(list, fn) == before + last;
      SliceMore(before, last, k);
    }
  }

  lemma SliceMore<T>(s: seq<T>, t: seq<T>, k: nat)
    requires k <= |s|
    ensures (s + t)[..k] == s[..k] && (s + t)[k..] == s[k..] + t
  {
  }

  lemma {:induction false} CountAll<F>(list: seq<Entry<F>>, fn: F)
    ensures CountUpTo(list, fn, |list| - 1) == CountUpTo(list, fn, |list|)
  {
    if list != [] {
      var l := |list| - 1;
      WithoutFacts(list[..l], fn, l);
      WithoutFacts(list[..l], fn, |list|);
    }
  }

  lemma RemoveOneGood<F>(s: State<F>, fn: F, w: Watch)
    requires Good(s, w) && s.list.Some?
    ensures Good(RemoveOne(s, fn), w)
  {
    var list, list' := s.list.value, Without(s.list.value, fn);
    WithoutOrdered(list, fn, s.nextReg);
    if s.firing {
      var k := s.firingIndex + 1 - CountUpTo(list, fn, s.firingIndex);
      WithoutSplits(list, fn, s.firingIndex);
      forall i | 0 <= i < |list'|
        ensures i < k ==> list'[i].reg in w.ran || list'[i].reg < w.from
        ensures i >= k ==> list'[i].reg >= w.from && forall r :: r in w.ran ==> r < list'[i].reg
      {
        if i < k {
          WithoutFrom(list[..s.firingIndex + 1], fn, list'[..k], i);
        } else {
          assert list'[k..][i - k] in list'[k..] && list'[i] in list[s.firingIndex + 1..];
        }
      }
    }
  }

  lemma {:induction false} RemoveGood<F>(s: State<F>, fns: seq<F>, w: Watch)
    requires Good(s, w)
    ensures Good(Remove(s, fns), w) && (s.list.Some? ==> Remove(s, fns).list.Some?)
  {
    if s.list.Some? && fns != [] {
      RemoveGood(s, fns[..|fns| - 1], w);
      RemoveOneGood(Remove(s, fns[..|fns| - 1]), fns[|fns| - 1], w);
    }
  }

  // ---------------------------------------------------------------- runs

  datatype Op<F> =
    | DoAdd(fns: seq<F>)
    | DoRemove(fns: seq<F>)
    | DoFire(data: Data)
    | DoReturn(returnedFalse: bool)
    | DoLock
    | DoDisable
    | DoEmpty

  function Step<F(==)>(s: State<F>, op: Op<F>): (State<F>, seq<Event<F>>) {
    match op
    case DoAdd(fns) => Add(s, fns)
    case DoRemove(fns) => (Remove(s, fns), [])
    case DoFire(data) => FireWith(s, data)
    case DoReturn(returnedFalse) => if s.firing then Resume(s, returnedFalse) else (s, [])
    case DoLock => (Lock(s), [])
    case DoDisable => (Disable(s), [])
    case DoEmpty => (Emptied(s), [])
  }

  // The state after a run of operations, in whatever way they are nested in the callbacks, and all that
  // happened in it.
  function Run<F(==)>(s: State<F>, ops: seq<Op<F>>): (State<F>, seq<Event<F>>) {
    if ops == [] then (s, [])
    else
      var (s1, es1) := Run(s, ops[..|ops| - 1]);
      var (s2, es2) := Step(s1, ops[|ops| - 1]);
      (s2, es1 + es2)
  }

  // The list can be emptied while it does not fire, or fires with nothing in the batch.
  predicate CanEmpty<F>(s: State<F>) {
    !s.firing || s.firingLength == 0
  }

  // In the run the list is only emptied when it can be.
  ghost predicate Timely<F>(s: State<F>, ops: seq<Op<F>>) {
    ops == [] ||
    (Timely(s, ops[..|ops| - 1]) && (ops[|ops| - 1].DoEmpty? ==> CanEmpty(Run(s, ops[..|ops| - 1]).0)))
  }

  lemma StepGood<F>(s: State<F>, op: Op<F>, w: Watch)
    requires Good(s, w) && (op.DoEmpty? ==> CanEmpty(s))
    ensures var (s', es) := Step(s, op); AllProper(w, es) && Good(s', WatchedAll(w, es))
  {
    match op
    case DoAdd(fns) => AddGood(s, fns, w);
    case DoRemove(fns) => RemoveGood(s, fns, w);
    case DoFire(data) => FireWithGood(s, data, w);
    case DoReturn(returnedFalse) =>
      if s.firing {
        ResumeGood(s, returnedFalse, w);
      }
    case DoLock =>
    case DoDisable =>
    case DoEmpty =>
  }

  lemma {:induction false} WatchedAppend<F>(w: Watch, es: seq<Event<F>>, fs: seq<Event<F>>)
    ensures WatchedAll(w, es + fs) == WatchedAll(WatchedAll(w, es), fs)
    ensures AllProper(w, es + fs) <==> AllProper(w, es) && AllProper(WatchedAll(w, es), fs)
  {
    if fs == [] {
      assert es + fs == es;
    } else {
      WatchedAppend(w, es, fs[..|fs| - 1]);
      assert (es + fs)[..|es + fs| - 1] == es + fs[..|fs| - 1];
    }
  }

  lemma {:induction false} RunGood<F>(s: State<F>, ops: seq<Op<F>>, w: Watch)
    requires Good(s, w) && Timely(s, ops)
    ensures AllProper(w, Run(s, ops).1) && Good(Run(s, ops).0, WatchedAll(w, Run(s, ops).1))
  {
    if ops != [] {
      var l := |ops| - 1;
      RunGood(s, ops[..l], w);
      var (s1, es1) := Run(s, ops[..l]);
      StepGood(s1, ops[l], WatchedAll(w, es1));
      WatchedAppend(w, es1, Step(s1, ops[l]).1);
    }
  }

  // In every run of a list, every firing calls the callbacks in the order of their registration, none twice,
  // and leaves none out that is still listed when its turn comes.
  lemma EveryRunIsProper<F>(options: Options, ops: seq<Op<F>>)
    requires Timely(New<F>(options), ops)
    ensures var (s, es) := Run(New<F>(options), ops);
      AllProper(UNSEEN, es) && Good(s, WatchedAll(UNSEEN, es))
  {
    RunGood(New<F>(options), ops, UNSEEN);
  }

  // ---------------------------------------------------------------- removed callbacks

  // The numbers of the entries listed.
  ghost function Regs<F>(s: State<F>): set<nat> {
    if s.list.Some? then set i | 0 <= i < |s.list.value| :: s.list.value[i].reg else {}
  }

  // Only entries that are listed are called, and an entry that is not listed does not come back.
  ghost predicate Forgets<F>(r: nat, s: State<F>, es: seq<Event<F>>) {
    && r !in Regs(s) && r < s.nextReg
    && forall i :: 0 <= i < |es| && es[i].Called? ==> es[i].entry.reg != r
  }

  lemma LoopForgets<F>(s: State<F>, r: nat)
    requires r !in Regs(s) && r < s.nextReg
    ensures Forgets(r, Loop(s).0, Loop(s).1)
    decreases Pending(s), 1
  {
    if s.list.Some? && s.firingIndex < s.firingLength {
      if 0 <= s.firingIndex < |s.list.value| {
        assert s.list.value[s.firingIndex].reg in Regs(s);
      }
    } else {
      FinishForgets(s, r);
    }
  }

  lemma FinishForgets<F>(s: State<F>, r: nat)
    requires r !in Regs(s) && r < s.nextReg
    ensures Forgets(r, Finish(s).0, Finish(s).1)
    decreases Pending(s), 0
  {
    if s.list.Some? && s.stack.Some? && s.stack.value != [] {
      BeginForgets(s.(firing := false, stack := Some(s.stack.value[1..])), s.stack.value[0], r);
    }
  }

  lemma BeginForgets<F>(s: State<F>, data: Data, r: nat)
    requires s.list.Some? && r !in Regs(s) && r < s.nextReg
    ensures Forgets(r, Begin(s, data).0, Begin(s, data).1)
    decreases Pending(s), 2
  {
    var s1 := s.(memory := if s.options.memory then Some(data) else None, fired := true,
                 firingIndex := s.firingStart, firingStart := 0, firingLength := |s.list.value|,
                 firing := true, data := data);
    LoopForgets(s1, r);
  }

  lemma {:induction false} RemoveKeeps<F>(s: State<F>, fns: seq<F>)
    ensures Regs(Remove(s, fns)) <= Regs(s) && Remove(s, fns).nextReg == s.nextReg
    ensures Remove(s, fns).list.Some? <==> s.list.Some?
  {
    if s.list.Some? && fns != [] {
      var s1, fn := Remove(s, fns[..|fns| - 1]), fns[|fns| - 1];
      RemoveKeeps(s, fns[..|fns| - 1]);
      var list' := Without(s1.list.value, fn);
      forall i | 0 <= i < |list'|
        ensures list'[i].reg in Regs(s1)
      {
        WithoutFrom(s1.list.value, fn, list', i);
      }
    }
  }

  lemma StepForgets<F>(s: State<F>, op: Op<F>, r: nat, w: Watch)
    requires Good(s, w) && r !in Regs(s) && r < s.nextReg
    ensures Forgets(r, Step(s, op).0, Step(s, op).1)
  {
    match op
    case DoAdd(fns) =>
      if s.list.Some? {
        AppendedFacts(s.options.unique, s.list.value, fns, s.nextReg);
        var list := Appended(s.options.unique, s.list.value, fns, s.nextReg);
        var s1 := s.(list := Some(list), nextReg := s.nextReg + |fns|);
        forall i | 0 <= i < |list|
          ensures list[i].reg != r
        {
          if i < |s.list.value| {
            assert s.list.value[i].reg in Regs(s);
          }
        }
        if !s.firing && s.memory.Some? {
          BeginForgets(s1.(firingStart := |s.list.value|), s.memory.value, r);
        }
      }
    case DoRemove(fns) => RemoveKeeps(s, fns);
    case DoFire(data) =>
      if s.list.Some? && (!s.fired || s.stack.Some?) && !s.firing {
        BeginForgets(s, data, r);
      }
    case DoReturn(returnedFalse) =>
      if s.firing {
        if returnedFalse && s.options.stopOnFalse {
          FinishForgets(s.(memory := None), r);
        } else {
          LoopForgets(s.(firingIndex := s.firingIndex + 1), r);
        }
      }
    case DoLock =>
    case DoDisable =>
    case DoEmpty =>
  }

  // What is not listed is not called, however the run goes on.
  lemma {:induction false} UnlistedNeverRuns<F>(s: State<F>, ops: seq<Op<F>>, r: nat, w: Watch)
    requires Good(s, w) && Timely(s, ops) && r !in Regs(s) && r < s.nextReg
    ensures Forgets(r, Run(s, ops).0, Run(s, ops).1)
  {
    if ops != [] {
      var l := |ops| - 1;
      UnlistedNeverRuns(s, ops[..l], r, w);
      var (s1, es1) := Run(s, ops[..l]);
      RunGood(s, ops[..l], w);
      StepForgets(s1, ops[l], r, WatchedAll(w, es1));
    }
  }

  // After a removal none of the functions removed is listed.
  lemma {:induction false} RemoveDrops<F>(s: State<F>, fns: seq<F>)
    requires s.list.Some?
    ensures var s' := Remove(s, fns);
      s'.list.Some? && forall i :: 0 <= i < |s'.list.value| ==> s'.list.value[i].fn !in fns
  {
    if fns != [] {
      var l := |fns| - 1;
      RemoveDrops(s, fns[..l]);
      var list := Remove(s, fns[..l]).list.value;
      var list' := Without(list, fns[l]);
      assert fns == fns[..l] + [fns[l]];
      forall i | 0 <= i < |list'|
        ensures list'[i].fn !in fns
      {
        WithoutFrom(list, fns[l], list', i);
      }
    }
  }

  lemma {:induction false} RemovedFrom<F>(s: State<F>, fns: seq<F>, i: nat)
    requires s.list.Some? && Remove(s, fns).list.Some? && i < |Remove(s, fns).list.value|
    ensures Remove(s, fns).list.value[i] in s.list.value
  {
    if fns != [] {
      var s1, fn := Remove(s, fns[..|fns| - 1]), fns[|fns| - 1];
      RemoveDrops(s, fns[..|fns| - 1]);
      WithoutFrom(s1.list.value, fn, Without(s1.list.value, fn), i);
      var k :| 0 <= k < |s1.list.value| && s1.list.value[k] == Remove(s, fns).list.value[i];
      RemovedFrom(s, fns[..|fns| - 1], k);
    }
  }

  // An entry that is listed at any time of a run and then removed is never called afterwards, however the run
  // goes on.
  lemma RemovedNeverRuns<F>(options: Options, ops: seq<Op<F>>, fns: seq<F>, e: Entry<F>, later: seq<Op<F>>)
    requires var s := Run(New<F>(options), ops).0; s.list.Some? && e in s.list.value && e.fn in fns
    requires Timely(New<F>(options), ops) && Timely(Run(New<F>(options), ops + [DoRemove(fns)]).0, later)
    ensures var s := Run(New<F>(options), ops + [DoRemove(fns)]).0;
      forall i :: 0 <= i < |Run(s, later).1| && Run(s, later).1[i].Called? ==> Run(s, later).1[i].entry.reg != e.reg
  {
    var (s, es) := Run(New<F>(options), ops);
    var w := WatchedAll(UNSEEN, es);
    EveryRunIsProper(options, ops);
    assert (ops + [DoRemove(fns)])[..|ops|] == ops;
    var s1 := Remove(s, fns);
    assert Run(New<F>(options), ops + [DoRemove(fns)]).0 == s1;
    RemoveDrops(s, fns);
    RemoveKeeps(s, fns);
    RemoveGood(s, fns, w);
    forall i | 0 <= i < |s1.list.value|
      ensures s1.list.value[i].reg != e.reg
    {
      RemovedFrom(s, fns, i);
    }
    UnlistedNeverRuns(s1, later, e.reg, w);
  }

  lemma {:induction false} NothingMissing<F>(w: Watch, es: seq<Event<F>>)
    requires AllProper(w, es)
    ensures Missing !in es
  {
    if es != [] {
      NothingMissing(w, es[..|es| - 1]);
      assert es == es[..|es| - 1] + [es[|es| - 1]];
    }
  }

  // ---------------------------------------------------------------- emptying a list that fires

  // If the callback that empties the list returns at once, the loop looks for a callback that is not there
  // exactly when callbacks were still to come; also if the list had been disabled, for it is one again.
  lemma EmptyDuringFiring<F>(s: State<F>, w: Watch)
    requires Good(s, w) && s.firing
    ensures Missing in Resume(Emptied(s), false).1 <==> s.firingIndex + 1 < s.firingLength
  {
    var s1 := Emptied(s).(firingIndex := s.firingIndex + 1);
    if s.firingIndex + 1 >= s.firingLength {
      FinishGood(s1, w.(over := true));
      NothingMissing(w.(over := true), Finish(s1).1);
    }
  }

  lemma AddedThenReturned<F>(s: State<F>, g: F) returns (rest: seq<Event<F>>)
    requires s.firing && 0 <= s.firingIndex
    ensures Run(Emptied(s), [DoAdd([g]), DoReturn(false)]).1 == [Ended([Entry(g, s.nextReg)])] + rest
  {
    var none: seq<Entry<F>> := [];
    var e := Entry(g, s.nextReg);
    var s1 := Emptied(s).(list := Some([e]), nextReg := s.nextReg + 1, firingLength := 1);
    assert Add(Emptied(s), [g]) == (s1, []) by {
      assert [g][..0] == [] && !Has(none, g);
      assert Appended(s.options.unique, none, [g][..0], s.nextReg) == none;
      assert Appended(s.options.unique, none, [g], s.nextReg) == none + [e] == [e];
    }
    rest := Finish(s1.(firingIndex := s.firingIndex + 1)).1;
    assert Resume(s1, false).1 == Loop(s1.(firingIndex := s.firingIndex + 1)).1 == [Ended([e])] + rest;
    RunTwo(Emptied(s), DoAdd([g]), DoReturn(false));
    assert [] + Resume(s1, false).1 == Resume(s1, false).1;
  }

  // If none was to come, but one had been called, a callback that is added then is left out though it takes
  // part: the index has gone past it.
  lemma AddedIsLeftOut<F>(s: State<F>, w: Watch, g: F)
    requires Good(s, w) && s.firing && 0 <= s.firingIndex && s.firingIndex + 1 == s.firingLength
    ensures !AllProper(w, Run(Emptied(s), [DoAdd([g]), DoReturn(false)]).1)
  {
    var rest := AddedThenReturned(s, g);
    var listed := [Entry(g, s.nextReg)];
    WatchedCons(w, Ended(listed), rest);
    assert listed[0].reg == s.nextReg;
    assert !Proper(w, Ended(listed));
  }

  lemma RunTwo<F>(s: State<F>, op: Op<F>, op': Op<F>)
    ensures Run(s, [op, op']) ==
            (var (s1, es1) := Step(s, op); var (s2, es2) := Step(s1, op'); (s2, es1 + es2))
  {
    RunOne(s, [], op);
    RunOne(s, [op], op');
    assert [] + [op] == [op] && [op] + [op'] == [op, op'];
    assert Run(s, []) == (s, []) && Run(s, [op]).1 == [] + Step(s, op).1 == Step(s, op).1;
  }

  lemma RunOne<F>(s: State<F>, ops: seq<Op<F>>, op: Op<F>)
    ensures Run(s, ops + [op]).0 == Step(Run(s, ops).0, op).0
    ensures Run(s, ops + [op]).1 == Run(s, ops).1 + Step(Run(s, ops).0, op).1
  {
    assert (ops + [op])[..|ops|] == ops;
  }

  lemma NotTimelyBreaks<F>(s: State<F>, w: Watch, g: F) returns (later: seq<Op<F>>)
    requires Good(s, w) && !CanEmpty(s)
    ensures Timely(Emptied(s), later) && !AllProper(w, Run(Emptied(s), later).1)
  {
    if s.firingIndex + 1 < s.firingLength {
      later := [DoReturn(false)];
      EmptyDuringFiring(s, w);
      RunOne(Emptied(s), [], DoReturn(false));
      assert [] + later == later && Run(Emptied(s), []) == (Emptied(s), []);
      assert [] + Resume(Emptied(s), false).1 == Resume(Emptied(s), false).1;
      if AllProper(w, Run(Emptied(s), later).1) {
        NothingMissing(w, Run(Emptied(s), later).1);
      }
    } else {
      later := [DoAdd([g]), DoReturn(false)];
      AddedIsLeftOut(s, w, g);
    }
  }

  // At any time of a run, emptying the list leaves every continuation proper if and only if the list can be
  // emptied at that time.  (`g` is any function: there has to be one that could be added.)
  lemma EmptyExactly<F>(options: Options, ops: seq<Op<F>>, g: F)
    requires Timely(New<F>(options), ops)
    ensures var (s, es) := Run(New<F>(options), ops);
      (forall later :: Timely(Emptied(s), later) ==>
         AllProper(UNSEEN, es + Run(Emptied(s), later).1)) <==> CanEmpty(s)
  {
    var w0 := UNSEEN;
    var (s, es) := Run(New<F>(options), ops);
    var w := WatchedAll(w0, es);
    EveryRunIsProper(options, ops);
    if CanEmpty(s) {
      forall later | Timely(Emptied(s), later)
        ensures AllProper(w0, es + Run(Emptied(s), later).1)
      {
        RunGood(Emptied(s), later, w);
        WatchedAppend(w0, es, Run(Emptied(s), later).1);
      }
    } else {
      var later := NotTimelyBreaks(s, w, g);
      WatchedAppend(w0, es, Run(Emptied(s), later).1);
    }
  }

  // A run that comes to such a state: two callbacks, the first of which empties the list.
  lemma EmptyBreaksARun<F>(f: F, g: F, data: Data)
    ensures var s := Run(New(Options(false, false, false, false)), [DoAdd([f, g]), DoFire(data)]).0;
      s.firing && Missing in Resume(Emptied(s), false).1
  {
    var s0 := New<F>(Options(false, false, false, false));
    var s1 := s0.(list := Some([Entry(f, 0), Entry(g, 1)]), nextReg := 2);
    assert Add(s0, [f, g]) == (s1, []) by {
      assert [f, g][..1] == [f] && [f][..0] == [];
      var none: seq<Entry<F>> := [];
      assert Appended(false, none, [f], 0) == [Entry(f, 0)];
      assert Appended(false, none, [f, g], 0) == [Entry(f, 0), Entry(g, 1)];
    }
    var none: seq<Op<F>> := [];
    RunOne(s0, none, DoAdd([f, g]));
    RunOne(s0, [DoAdd([f, g])], DoFire(data));
    assert none + [DoAdd([f, g])] == [DoAdd([f, g])];
    assert [DoAdd([f, g])] + [DoFire(data)] == [DoAdd([f, g]), DoFire(data)];
    var s2 := s1.(fired := true, firing := true, firingLength := 2, data := data);
    assert Loop(s2) == (s2, [Called(Entry(f, 0), data)]);
    assert FireWith(s1, data) == Begin(s1, data) == (s2, [Began(0, data)] + Loop(s2).1);
    assert Run(s0, [DoAdd([f, g]), DoFire(data)]).0 == s2;
    var s3 := Emptied(s2).(firingIndex := 1);
    assert Resume(Emptied(s2), false) == Loop(s3) == (s3, [Missing]);
  }
}
