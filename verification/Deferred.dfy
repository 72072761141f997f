/** JavaScript values, as far as callbacks see them: opaque references, undefined, and arrays. */
module JsValues {
  datatype Value = Ref(id: nat) | Undefined | Array(elems: seq<Value>)
}

/**
 * jQuery.Deferred of files-IoT/www/lib/jquery-latest.js (lines 946-1095): two callback
 * lists that cancel each other.  User callbacks may call back into the deferred, so one
 * call can be in progress inside another; the machine below therefore hands control to
 * user code at every callback and takes it back with a Return event.
 */
module DeferredSpec {
  import opened Wrappers
  import opened JsValues

  datatype Side = DoneSide | FailSide

  function Other(side: Side): Side
  {
    if side == DoneSide then FailSide else DoneSide
  }

  /** What a list was settled with. */
  datatype Settlement = Settlement(context: Value, args: seq<Value>)

  /** An argument of done or fail: a function, a (nested) array of arguments, or something ignored. */
  datatype Arg = Fn(id: nat) | Arr(elems: seq<Arg>) | Ignored

  function Flatten(args: seq<Arg>): seq<nat>
  {
    if args == [] then []
    else Functions(args[0]) + Flatten(args[1..])
  }

  function Functions(arg: Arg): seq<nat>
  {
    match arg
    case Fn(id) => [id]
    case Arr(elems) => Flatten(elems)
    case Ignored => []
  }

  /** An entry of a callback list: a user function, or the cancel function of the other list. */
  datatype Callback = CancelOther | User(id: nat)

  function AsCallbacks(ids: seq<nat>): (cs: seq<Callback>)
    ensures |cs| == |ids|
  {
    seq(|ids|, i requires 0 <= i < |ids| => User(ids[i]))
  }

  /** The private variables of one callback list. */
  datatype List = List(callbacks: seq<Callback>, fired: Option<Settlement>, firing: bool, cancelled: bool)

  /** A firing loop in progress, and the call of a user function it makes. */
  datatype Frame = Frame(side: Side, with: Settlement)
  datatype Invocation = Invocation(side: Side, id: nat, with: Settlement)

  /** Both lists, the firing loops in progress (innermost last), and every user call so far. */
  datatype World = World(done: List, fail: List, stack: seq<Frame>, log: seq<Invocation>)
  {
    function On(side: Side): List
    {
      if side == DoneSide then done else fail
    }

    function With(side: Side, list: List): World
    {
      if side == DoneSide then this.(done := list) else this.(fail := list)
    }

    predicate IsSettled(side: Side)
    {
      On(side).firing || On(side).fired.Some?
    }
  }

  /** Construction: each list's first callback cancels the other list. */
  const START: World := World(List([CancelOther], None, false, false), List([CancelOther], None, false, false), [], [])

  /** The list that the innermost firing loop works on. */
  function Firing(w: World): List
    requires w.stack != []
  {
    w.On(w.stack[|w.stack| - 1].side)
  }

  /** The loop has run out of callbacks: its finally part. */
  function Finished(w: World): World
    requires w.stack != []
  {
    var frame := w.stack[|w.stack| - 1];
    w.With(frame.side, Firing(w).(fired := Some(frame.with), firing := false)).(stack := w.stack[..|w.stack| - 1])
  }

  /** The first callback is taken off and called: it cancels the other side, or is a user function. */
  function Shift(w: World): World
    requires w.stack != [] && Firing(w).callbacks != []
  {
    var frame := w.stack[|w.stack| - 1];
    var w1 := w.With(frame.side, Firing(w).(callbacks := Firing(w).callbacks[1..]));
    match Firing(w).callbacks[0]
    case CancelOther => w1.With(Other(frame.side), w1.On(Other(frame.side)).(cancelled := true, callbacks := []))
    case User(id) => w1.(log := w1.log + [Invocation(frame.side, id, frame.with)])
  }

  lemma ShiftShortens(w: World)
    requires w.stack != [] && Firing(w).callbacks != []
    ensures Shift(w).stack == w.stack && Firing(Shift(w)).callbacks == Firing(w).callbacks[1..]
  {
  }

  /** The firing loop from its test to the next user call or, if none is left, through its finally part. */
  function Advance(w: World): World
    requires w.stack != []
    decreases |Firing(w).callbacks|
  {
    if Firing(w).callbacks == [] then Finished(w)
    else if Firing(w).callbacks[0] == CancelOther then Advance(Shift(w))
    else Shift(w)
  }

  function ResolveWith(w: World, side: Side, s: Settlement): World
  {
    var list := w.On(side);
    if !list.cancelled && list.fired.None? && !list.firing then
      Advance(w.With(side, list.(firing := true)).(stack := w.stack + [Frame(side, s)]))
    else
      w
  }

  function Register(w: World, side: Side, ids: seq<nat>): World
  {
    var list := w.On(side);
    if list.cancelled then w
    else
      var w1 := w.With(side, list.(fired := None, callbacks := list.callbacks + AsCallbacks(ids)));
      if list.fired.Some? then ResolveWith(w1, side, list.fired.value) else w1
  }

  /**
   * What running code can do: register callbacks, settle a side, or return from the callback it
   * is in.  With no callback in progress there is nothing to return from.
   */
  datatype Event =
    | Add(side: Side, args: seq<Arg>)
    | Settle(side: Side, with: Settlement)
    | Return

  function Step(w: World, e: Event): World
  {
    match e
    case Add(side, args) => Register(w, side, Flatten(args))
    case Settle(side, s) => ResolveWith(w, side, s)
    case Return => if w.stack == [] then w else Advance(w)
  }

  function Run(events: seq<Event>): World
  {
    if events == [] then START else Step(Run(events[..|events| - 1]), events[|events| - 1])
  }

  // ------------------------------------------------------------------
  // The reference: read everything off the list of events
  // ------------------------------------------------------------------

  /** The first settling call, whichever side it is on and wherever it is made from. */
  function Winner(events: seq<Event>): Option<Frame>
  {
    if events == [] then None
    else FirstOf(Winner(events[..|events| - 1]), events[|events| - 1])
  }

  function FirstOf(winner: Option<Frame>, e: Event): Option<Frame>
  {
    if winner.None? && e.Settle? then Some(Frame(e.side, e.with)) else winner
  }

  /** All functions registered on one side, in order, however deeply nested in arrays. */
  function Registered(events: seq<Event>, side: Side): seq<nat>
  {
    if events == [] then []
    else Registered(events[..|events| - 1], side) + AddedBy(events[|events| - 1], side)
  }

  function AddedBy(e: Event, side: Side): seq<nat>
  {
    if e.Add? && e.side == side then Flatten(e.args) else []
  }

  /** The call of each function of ids, in order, all with the winning settlement. */
  function Calls(frame: Frame, ids: seq<nat>): (log: seq<Invocation>)
    ensures |log| == |ids|
  {
    seq(|ids|, i requires 0 <= i < |ids| => Invocation(frame.side, ids[i], frame.with))
  }

  // ------------------------------------------------------------------
  // The machine agrees with the reference
  // ------------------------------------------------------------------

  /** Before the first settling call. */
  ghost predicate Pending(w: World, doneIds: seq<nat>, failIds: seq<nat>)
  {
    w == World(List([CancelOther] + AsCallbacks(doneIds), None, false, false),
               List([CancelOther] + AsCallbacks(failIds), None, false, false), [], [])
  }

  /** After it: k functions have been called; the rest wait for the call in progress to return. */
  ghost predicate Settled(w: World, frame: Frame, ids: seq<nat>, k: nat)
  {
    && k <= |ids|
    && w.log == Calls(frame, ids[..k])
    && w.On(Other(frame.side)) == List([], None, false, true)
    && (|| (w.On(frame.side) == List(AsCallbacks(ids[k..]), None, true, false) && w.stack == [frame])
        || (w.On(frame.side) == List([], Some(frame.with), false, false) && w.stack == [] && k == |ids|))
  }

  lemma AdvanceSettled(w: World, frame: Frame, ids: seq<nat>, k: nat)
    requires Settled(w, frame, ids, k) && w.stack == [frame]
    ensures SettledSomewhere(Advance(w), frame, ids)
  {
    if k == |ids| {
      assert AsCallbacks(ids[k..]) == [];
      assert Settled(Advance(w), frame, ids, k);
    } else {
      assert AsCallbacks(ids[k..])[1..] == AsCallbacks(ids[k + 1..]);
      assert Calls(frame, ids[..k]) + [Invocation(frame.side, ids[k], frame.with)] == Calls(frame, ids[..k + 1]);
      assert Settled(Advance(w), frame, ids, k + 1);
    }
  }

  /** The first settling call cancels the other side before any user function runs. */
  lemma FirstSettle(w: World, doneIds: seq<nat>, failIds: seq<nat>, frame: Frame)
    requires Pending(w, doneIds, failIds)
    ensures
      var ids := if frame.side == DoneSide then doneIds else failIds;
      SettledSomewhere(ResolveWith(w, frame.side, frame.with), frame, ids)
  {
    var ids := if frame.side == DoneSide then doneIds else failIds;
    var list := w.On(frame.side);
    var w1 := w.With(frame.side, list.(firing := true)).(stack := [frame]);
    assert w.stack + [frame] == [frame];
    assert ResolveWith(w, frame.side, frame.with) == Advance(w1);
    var w2 := w.With(frame.side, List(AsCallbacks(ids), None, true, false)).(stack := [frame])
               .With(Other(frame.side), List([], None, false, true));
    assert ([CancelOther] + AsCallbacks(ids))[1..] == AsCallbacks(ids);
    assert Advance(w1) == Advance(w2);
    assert ids[0..] == ids;
    assert Settled(w2, frame, ids, 0);
    AdvanceSettled(w2, frame, ids, 0);
  }

  lemma RegisterPending(w: World, doneIds: seq<nat>, failIds: seq<nat>, side: Side, more: seq<nat>)
    requires Pending(w, doneIds, failIds)
    ensures
      Pending(Register(w, side, more),
              if side == DoneSide then doneIds + more else doneIds,
              if side == FailSide then failIds + more else failIds)
  {
    var ids := if side == DoneSide then doneIds else failIds;
    assert [CancelOther] + AsCallbacks(ids) + AsCallbacks(more) == [CancelOther] + AsCallbacks(ids + more);
  }

  lemma RegisterSettled(w: World, frame: Frame, ids: seq<nat>, k: nat, more: seq<nat>)
    requires Settled(w, frame, ids, k)
    ensures SettledSomewhere(Register(w, frame.side, more), frame, ids + more)
  {
    assert (ids + more)[..k] == ids[..k];
    assert AsCallbacks(ids[k..]) + AsCallbacks(more) == AsCallbacks((ids + more)[k..]);
    if w.stack == [frame] {
      assert Settled(Register(w, frame.side, more), frame, ids + more, k);
    } else {
      assert w.stack + [frame] == [frame];
      assert [] + AsCallbacks(more) == AsCallbacks((ids + more)[k..]);
      var w1 := w.With(frame.side, List(AsCallbacks((ids + more)[k..]), None, true, false)).(stack := [frame]);
      assert Settled(w1, frame, ids + more, k);
      assert Register(w, frame.side, more) == Advance(w1);
      AdvanceSettled(w1, frame, ids + more, k);
    }
  }

  /** The state that the reference describes, given the winner and what was registered. */
  ghost predicate Agrees(w: World, winner: Option<Frame>, doneIds: seq<nat>, failIds: seq<nat>)
  {
    match winner
    case None => Pending(w, doneIds, failIds)
    case Some(frame) => SettledSomewhere(w, frame, if frame.side == DoneSide then doneIds else failIds)
  }

  ghost predicate SettledSomewhere(w: World, frame: Frame, ids: seq<nat>)
  {
    exists k: nat :: Settled(w, frame, ids, k)
  }

  lemma StepAgrees(w: World, winner: Option<Frame>, doneIds: seq<nat>, failIds: seq<nat>, e: Event)
    requires Agrees(w, winner, doneIds, failIds)
    ensures Agrees(Step(w, e), FirstOf(winner, e), doneIds + AddedBy(e, DoneSide), failIds + AddedBy(e, FailSide))
  {
    assert doneIds + [] == doneIds && failIds + [] == failIds;
    match winner
    case None =>
      match e {
        case Settle(side, s) => FirstSettle(w, doneIds, failIds, Frame(side, s));
        case Add(side, args) => RegisterPending(w, doneIds, failIds, side, Flatten(args));
        case Return =>
      }
    case Some(frame) =>
      var ids := if frame.side == DoneSide then doneIds else failIds;
      var k: nat :| Settled(w, frame, ids, k);
      if e.Add? && e.side == frame.side {
        RegisterSettled(w, frame, ids, k, Flatten(e.args));
      } else if e.Return? && w.stack != [] {
        AdvanceSettled(w, frame, ids, k);
      } else {
        assert Step(w, e) == w;
      }
  }

  /**
   * Every run, re-entrant or not: nothing is called and neither side is settled before the first
   * settling call; from then on the state is that of the winning side alone.
   */
  lemma {:induction false} RunIsReference(events: seq<Event>)
    ensures Agrees(Run(events), Winner(events), Registered(events, DoneSide), Registered(events, FailSide))
  {
    if events == [] {
    } else {
      var prefix, e := events[..|events| - 1], events[|events| - 1];
      RunIsReference(prefix);
      StepAgrees(Run(prefix), Winner(prefix), Registered(prefix, DoneSide), Registered(prefix, FailSide), e);
    }
  }

  /**
   * The promises of the library over every interleaving: never both resolved and rejected; the
   * first settling call decides the side and what every callback receives; the n-th function called
   * is the n-th one registered on that side; and once no callback is running, all of them were.
   */
  lemma DeferredIsSafe(events: seq<Event>)
    ensures
      var w := Run(events);
      && !(w.IsSettled(DoneSide) && w.IsSettled(FailSide))
      && (Winner(events).None? ==> w.log == [] && !w.IsSettled(DoneSide) && !w.IsSettled(FailSide))
      && (Winner(events).Some? ==>
            var frame := Winner(events).value;
            && w.IsSettled(frame.side)
            && w.log <= Calls(frame, Registered(events, frame.side))
            && (w.stack == [] ==> w.log == Calls(frame, Registered(events, frame.side))))
  {
    RunIsReference(events);
    if Winner(events).Some? {
      var frame := Winner(events).value;
      var ids := Registered(events, frame.side);
      var k: nat :| Settled(Run(events), frame, ids, k);
      assert Calls(frame, ids[..k]) == Calls(frame, ids)[..k];
    }
  }

  // ------------------------------------------------------------------
  // Functions in nested arrays
  // ------------------------------------------------------------------

  lemma {:induction false} FlattenAppend(a: seq<Arg>, b: seq<Arg>)
    ensures Flatten(a + b) == Flatten(a) + Flatten(b)
  {
    if a == [] {
      assert a + b == b;
    } else {
      assert (a + b)[1..] == a[1..] + b;
      FlattenAppend(a[1..], b);
    }
  }

  /** An array stands for what it holds, in place; a function for itself; anything else for nothing. */
  lemma FlattenInPlace(a: seq<Arg>, id: nat, rest: seq<Arg>)
    ensures Flatten([Arr(a)] + rest) == Flatten(a + rest)
    ensures Flatten([Fn(id)] + rest) == [id] + Flatten(rest)
    ensures Flatten([Ignored] + rest) == Flatten(rest)
  {
    FlattenAppend(a, rest);
    assert ([Arr(a)] + rest)[1..] == rest && ([Fn(id)] + rest)[1..] == rest && ([Ignored] + rest)[1..] == rest;
  }

  /** How often a function occurs in arguments, at any depth. */
  function OccursIn(arg: Arg, id: nat): nat
  {
    match arg
    case Fn(f) => if f == id then 1 else 0
    case Arr(elems) => OccursAmong(elems, id)
    case Ignored => 0
  }

  function OccursAmong(args: seq<Arg>, id: nat): nat
  {
    if args == [] then 0 else OccursIn(args[0], id) + OccursAmong(args[1..], id)
  }

  lemma {:induction false} FlattenCounts(args: seq<Arg>, id: nat)
    ensures multiset(Flatten(args))[id] == OccursAmong(args, id)
  {
    if args == [] {
    } else {
      FunctionsCounts(args[0], id);
      FlattenCounts(args[1..], id);
    }
  }

  lemma {:induction false} FunctionsCounts(arg: Arg, id: nat)
    ensures multiset(Functions(arg))[id] == OccursIn(arg, id)
  {
    match arg
    case Fn(_) =>
    case Arr(elems) => FlattenCounts(elems, id);
    case Ignored =>
  }

  /** How often a function occurs in all arguments of registrations on one side. */
  function TimesRegistered(events: seq<Event>, side: Side, id: nat): nat
  {
    if events == [] then 0
    else
      var e := events[|events| - 1];
      TimesRegistered(events[..|events| - 1], side, id) +
      if e.Add? && e.side == side then OccursAmong(e.args, id) else 0
  }

  lemma {:induction false} RegisteredCounts(events: seq<Event>, side: Side, id: nat)
    ensures multiset(Registered(events, side))[id] == TimesRegistered(events, side, id)
  {
    if events == [] {
    } else {
      var e := events[|events| - 1];
      RegisteredCounts(events[..|events| - 1], side, id);
      if e.Add? && e.side == side {
        FlattenCounts(e.args, id);
      }
    }
  }

  lemma {:induction false} CallsCount(frame: Frame, ids: seq<nat>, id: nat)
    ensures multiset(Calls(frame, ids))[Invocation(frame.side, id, frame.with)] == multiset(ids)[id]
  {
    if ids == [] {
      assert Calls(frame, ids) == [];
    } else {
      CallsCount(frame, ids[1..], id);
      assert ids == [ids[0]] + ids[1..];
      assert Calls(frame, ids) == [Invocation(frame.side, ids[0], frame.with)] + Calls(frame, ids[1..]);
    }
  }

  /**
   * Once a deferred is settled and nothing runs, every function anywhere in the arguments of the registrations on
   * the winning side has been called with the first settlement, as often as it was given.
   */
  lemma EveryFunctionCalled(events: seq<Event>, id: nat)
    ensures
      var w := Run(events);
      Winner(events).Some? && w.stack == [] ==>
        var frame := Winner(events).value;
        multiset(w.log)[Invocation(frame.side, id, frame.with)] == TimesRegistered(events, frame.side, id)
  {
    hide Run, Registered, Winner, Calls;
    DeferredIsSafe(events);
    if Winner(events).Some? {
      var frame := Winner(events).value;
      RegisteredCounts(events, frame.side, id);
      CallsCount(frame, Registered(events, frame.side), id);
    }
  }

  /** At most one firing loop is ever in progress, so callbacks of one deferred never nest. */
  lemma NeverNested(events: seq<Event>)
    ensures |Run(events).stack| <= 1
  {
    RunIsReference(events);
  }

  /** The winner never changes. */
  lemma {:induction false} WinnerIsFinal(events: seq<Event>, more: seq<Event>)
    ensures Winner(events).Some? ==> Winner(events + more) == Winner(events)
  {
    if more == [] {
      assert events + more == events;
    } else {
      WinnerIsFinal(events, more[..|more| - 1]);
      assert (events + more)[..|events + more| - 1] == events + more[..|more| - 1];
    }
  }
}

/** The objects themselves, each method proved to be one step of the machine above. */
module Deferred {
  import opened Wrappers
  import opened JsValues
  import opened DeferredSpec

  /** jQuery._Deferred: one callback list and its private variables. */
  class CallbackList {
    var callbacks: seq<Callback>
    var fired: Option<Settlement>
    var firing: bool
    var cancelled: bool

    constructor ()
      ensures Contents() == List([], None, false, false)
    {
      callbacks, fired, firing, cancelled := [], None, false, false;
    }

    function Contents(): List
      reads this
    {
      List(callbacks, fired, firing, cancelled)
    }

    method Cancel()
      modifies this
      ensures Contents() == old(Contents()).(cancelled := true, callbacks := [])
    {
      cancelled := true;
      callbacks := [];
    }
  }

  /** jQuery.Deferred: the two lists, with the firing loops in progress made explicit. */
  class Deferred {
    const done: CallbackList
    const fail: CallbackList
    var stack: seq<Frame>
    var log: seq<Invocation>

    ghost predicate Valid()
    {
      done != fail
    }

    function Snapshot(): World
      reads this, done, fail
    {
      World(done.Contents(), fail.Contents(), stack, log)
    }

    function ListOf(side: Side): CallbackList
    {
      if side == DoneSide then done else fail
    }

    constructor ()
      ensures Valid() && fresh(done) && fresh(fail)
      ensures Snapshot() == START
    {
      done := new CallbackList();
      fail := new CallbackList();
      stack, log := [], [];
      new;
      // Whichever list fires first begins by emptying the other.
      done.callbacks := [CancelOther];
      fail.callbacks := [CancelOther];
    }

    /** One turn of the while loop of resolveWith: true after a cancel, false at a user function. */
    method CallFirst() returns (internal: bool)
      requires Valid() && stack != [] && Firing(Snapshot()).callbacks != []
      modifies this, done, fail
      ensures stack == old(stack) && Snapshot() == Shift(old(Snapshot()))
      ensures internal <==> old(Firing(Snapshot()).callbacks[0]) == CancelOther
    {
      var frame := stack[|stack| - 1];
      var list, other := ListOf(frame.side), ListOf(Other(frame.side));
      var callback := list.callbacks[0];
      list.callbacks := list.callbacks[1..];
      internal := callback == CancelOther;
      if internal {
        other.Cancel();
      } else {
        log := log + [Invocation(frame.side, callback.id, frame.with)];
      }
    }

    /** The finally part. */
    method Finish()
      requires Valid() && stack != []
      modifies this, done, fail
      ensures Snapshot() == Finished(old(Snapshot()))
    {
      var frame := stack[|stack| - 1];
      var list := ListOf(frame.side);
      list.fired := Some(frame.with);
      list.firing := false;
      stack := stack[..|stack| - 1];
    }

    /** The while loop of resolveWith, up to the next call of a user function. */
    method Fire()
      requires Valid() && stack != []
      modifies this, done, fail
      ensures Snapshot() == Advance(old(Snapshot()))
    {
      hide Finished, Shift;
      while Firing(Snapshot()).callbacks != []
        invariant stack == old(stack)
        invariant Advance(Snapshot()) == Advance(old(Snapshot()))
        decreases |Firing(Snapshot()).callbacks|
      {
        ShiftShortens(Snapshot());
        var internal := CallFirst();
        if !internal {
          return;
        }
      }
      Finish();
    }

    /** resolveWith on the one list, rejectWith on the other. */
    method ResolveWith(side: Side, context: Value, args: seq<Value>)
      requires Valid()
      modifies this, done, fail
      ensures Snapshot() == Step(old(Snapshot()), Settle(side, Settlement(context, args)))
    {
      var list := ListOf(side);
      if !list.cancelled && list.fired.None? && !list.firing {
        list.firing := true;
        stack := stack + [Frame(side, Settlement(context, args))];
        Fire();
      }
    }

    /** done on the one list, fail on the other: arrays are flattened by a call to itself. */
    method Add(side: Side, args: seq<Arg>)
      requires Valid()
      modifies this, done, fail
      ensures Snapshot() == Step(old(Snapshot()), Event.Add(side, args))
      decreases args
    {
      hide Advance, Flatten, AsCallbacks;
      var list := ListOf(side);
      if !list.cancelled {
        var fired := list.fired;
        if fired.Some? {
          list.fired := None;
        }
        ghost var w := Snapshot();
        ghost var before := list.callbacks;
        AsCallbacksOf(0);
        assert before + [] == before;
        for i := 0 to |args|
          invariant Snapshot() == w.With(side, w.On(side).(callbacks := before + AsCallbacks(Flatten(args[..i]))))
        {
          match args[i] {
            case Arr(elems) => Add(side, elems);
            case Fn(id) =>
              AsCallbacksOf(id);
              list.callbacks := list.callbacks + [User(id)];
            case Ignored =>
          }
          FlattenOneMore(args, i);
          AppendCallbacks(before, Flatten(args[..i]), Functions(args[i]));
        }
        assert args[..|args|] == args;
        if fired.Some? {
          ResolveWith(side, fired.value.context, fired.value.args);
        }
      }
    }

    /** The user function called last returns to the loop that called it. */
    method CallbackReturns()
      requires Valid() && stack != []
      modifies this, done, fail
      ensures Snapshot() == Step(old(Snapshot()), Return)
    {
      Fire();
    }

    method IsSettled(side: Side) returns (settled: bool)
      ensures settled == Snapshot().IsSettled(side)
    {
      var list := ListOf(side);
      settled := list.firing || list.fired.Some?;
    }
  }

  lemma AsCallbacksOf(id: nat)
    ensures Flatten([]) == [] && AsCallbacks([]) == [] && AsCallbacks([id]) == [User(id)]
  {
  }

  lemma AppendCallbacks(before: seq<Callback>, ids: seq<nat>, more: seq<nat>)
    ensures before + AsCallbacks(ids) + AsCallbacks(more) == before + AsCallbacks(ids + more)
  {
  }

  lemma FlattenOneMore(args: seq<Arg>, i: nat)
    requires i < |args|
    ensures Flatten(args[..i + 1]) == Flatten(args[..i]) + Functions(args[i])
  {
    assert args[..i + 1] == args[..i] + [args[i]];
    FlattenAppend(args[..i], [args[i]]);
    assert Flatten([args[i]]) == Functions(args[i]) + Flatten([]);
  }
}
