/**
 * jQuery.when over two or more arguments (files-IoT/www/lib/jquery-latest.js, lines 1098-1132):
 * a countdown over the arguments, each a plain value or a promise, that settles one deferred.
 * What happens to that deferred is read off its settling calls as module DeferredSpec proves.
 */
module WhenSpec {
  import opened Wrappers
  import opened JsValues
  import opened DeferredSpec

  /** How a promise ends, if it ever does; a promise calls each of its callbacks at most once. */
  datatype Outcome = Resolves(values: seq<Value>) | Rejects(context: Value, reasons: seq<Value>)

  datatype Argument = Plain(value: Value) | Promise(promise: Value, outcome: Outcome)

  /** What resolveFunc stores: the value, or all of them as an array when there are several. */
  function Received(values: seq<Value>): Value
  {
    if |values| > 1 then Array(values) else if |values| == 1 then values[0] else Undefined
  }

  /** The local variables of one call of when, its settling calls, and which handlers have run. */
  datatype State = State(slots: seq<Value>, next: nat, count: int, calls: seq<Event>, delivered: seq<nat>, ended: bool)

  function Start(args: seq<Argument>): State
  {
    State(seq(|args|, i requires 0 <= i < |args| => if args[i].Plain? then args[i].value else args[i].promise),
          0, |args|, [], [], false)
  }

  /**
   * One turn of the for loop; a promise calling the handlers that when gave it; the test after the
   * loop.  A promise that is already settled calls its handler during its own turn, others at any time.
   */
  datatype Move = Turn | Deliver(i: nat) | AfterLoop

  function ResolveCall(slots: seq<Value>, self: Value): Event
  {
    Settle(DoneSide, Settlement(self, slots))
  }

  function RejectCall(context: Value, reasons: seq<Value>): Event
  {
    Settle(FailSide, Settlement(context, reasons))
  }

  function Step(args: seq<Argument>, self: Value, s: State, m: Move): State
    requires |s.slots| == |args|
  {
    match m
    case Turn =>
      if s.next >= |args| then s
      else if args[s.next].Promise? then s.(next := s.next + 1)
      else s.(next := s.next + 1, count := s.count - 1)
    case Deliver(i) =>
      if i >= s.next || i >= |args| || args[i].Plain? || i in s.delivered then s
      else Handle(self, s.(delivered := s.delivered + [i]), i, args[i].outcome)
    case AfterLoop =>
      if s.next != |args| || s.ended then s
      else if s.count == 0 then s.(ended := true, calls := s.calls + [ResolveCall(s.slots, self)])
      else s.(ended := true)
  }

  /** The handler that the promise's outcome selects. */
  function Handle(self: Value, s: State, i: nat, outcome: Outcome): (t: State)
    requires i < |s.slots|
    ensures |t.slots| == |s.slots|
  {
    match outcome
    case Resolves(values) => ResolveFunc(self, s, i, values)
    case Rejects(context, reasons) => s.(calls := s.calls + [RejectCall(context, reasons)])
  }

  /** The function that resolveFunc(i) returns. */
  function ResolveFunc(self: Value, s: State, i: nat, values: seq<Value>): (t: State)
    requires i < |s.slots|
    ensures |t.slots| == |s.slots|
  {
    var t := s.(slots := s.slots[i := Received(values)], count := s.count - 1);
    if t.count == 0 then t.(calls := t.calls + [ResolveCall(t.slots, self)]) else t
  }

  function Run(args: seq<Argument>, self: Value, moves: seq<Move>): (s: State)
    ensures |s.slots| == |args|
  {
    if moves == [] then Start(args)
    else Step(args, self, Run(args, self, moves[..|moves| - 1]), moves[|moves| - 1])
  }

  /** What becomes of the deferred that when returns. */
  function Result(s: State): Option<Frame>
  {
    Winner(s.calls)
  }

  // ------------------------------------------------------------------
  // The reference
  // ------------------------------------------------------------------

  /** Each argument's value in its own place. */
  function Final(args: seq<Argument>): (values: seq<Value>)
    requires forall i :: 0 <= i < |args| && args[i].Promise? ==> args[i].outcome.Resolves?
  {
    seq(|args|, i requires 0 <= i < |args| =>
      if args[i].Plain? then args[i].value else Received(args[i].outcome.values))
  }

  /** The first promise to deliver a rejection. */
  function FirstRejection(args: seq<Argument>, delivered: seq<nat>): (r: Option<nat>)
    requires forall k :: 0 <= k < |delivered| ==> delivered[k] < |args| && args[delivered[k]].Promise?
    ensures r.Some? ==> r.value in delivered && args[r.value].outcome.Rejects?
  {
    if delivered == [] then None
    else
      var before := FirstRejection(args, delivered[..|delivered| - 1]);
      var i := delivered[|delivered| - 1];
      if before.None? && args[i].outcome.Rejects? then Some(i) else before
  }

  // ------------------------------------------------------------------
  // The countdown
  // ------------------------------------------------------------------

  /** Whether argument i still holds the countdown up. */
  predicate Open(args: seq<Argument>, s: State, i: nat)
    requires i < |args|
  {
    i >= s.next || (args[i].Promise? && !(i in s.delivered && args[i].outcome.Resolves?))
  }

  function OpenCount(args: seq<Argument>, s: State, k: nat): (n: nat)
    requires k <= |args|
  {
    if k == 0 then 0 else OpenCount(args, s, k - 1) + (if Open(args, s, k - 1) then 1 else 0)
  }

  /** The count is the number of open arguments, and closed arguments hold their values. */
  ghost predicate Counting(args: seq<Argument>, s: State)
  {
    && |s.slots| == |args| && s.next <= |args|
    && (forall k :: 0 <= k < |s.delivered| ==> s.delivered[k] < s.next && args[s.delivered[k]].Promise?)
    && s.count == OpenCount(args, s, |args|)
    && (forall i :: 0 <= i < |args| && args[i].Plain? ==> s.slots[i] == args[i].value)
    && (forall i :: 0 <= i < |args| && args[i].Promise? && !Open(args, s, i) ==>
          s.slots[i] == Received(args[i].outcome.values))
    && (s.ended ==> s.next == |args|)
  }

  /** What has become of the deferred. */
  ghost predicate Verdict(args: seq<Argument>, self: Value, s: State)
    requires Counting(args, s)
  {
    match FirstRejection(args, s.delivered)
    case Some(r) =>
      && s.count > 0
      && Result(s) == Some(Frame(FailSide, Settlement(args[r].outcome.context, args[r].outcome.reasons)))
    case None =>
      if s.count > 0 then s.calls == []
      else
        && (Result(s).Some? ==> Result(s) == Some(Frame(DoneSide, Settlement(self, s.slots))))
        && (s.ended ==> Result(s).Some?)
  }

  ghost predicate Inv(args: seq<Argument>, self: Value, s: State)
  {
    Counting(args, s) && Verdict(args, self, s)
  }

  predicate AllResolve(args: seq<Argument>)
  {
    forall i :: 0 <= i < |args| && args[i].Promise? ==> args[i].outcome.Resolves?
  }

  /** Two states that differ in one argument only, or in none, differ by that much in the count. */
  lemma {:induction false} OpenCountChanges(args: seq<Argument>, s: State, t: State, j: nat, k: nat)
    requires k <= |args| && j < |args|
    requires forall i :: 0 <= i < |args| && i != j ==> Open(args, s, i) == Open(args, t, i)
    requires Open(args, s, j) && !Open(args, t, j)
    ensures OpenCount(args, t, k) == OpenCount(args, s, k) - (if j < k then 1 else 0)
  {
    if k == 0 {
    } else {
      OpenCountChanges(args, s, t, j, k - 1);
    }
  }

  lemma {:induction false} OpenCountSame(args: seq<Argument>, s: State, t: State, k: nat)
    requires k <= |args|
    requires forall i :: 0 <= i < |args| ==> Open(args, s, i) == Open(args, t, i)
    ensures OpenCount(args, t, k) == OpenCount(args, s, k)
  {
    if k == 0 {
    } else {
      OpenCountSame(args, s, t, k - 1);
    }
  }

  lemma {:induction false} OpenCountZero(args: seq<Argument>, s: State, k: nat)
    requires k <= |args|
    ensures OpenCount(args, s, k) == 0 <==> forall i :: 0 <= i < k ==> !Open(args, s, i)
  {
    if k == 0 {
    } else {
      OpenCountZero(args, s, k - 1);
    }
  }

  lemma {:induction false} NothingDone(args: seq<Argument>, k: nat)
    requires k <= |args|
    ensures OpenCount(args, Start(args), k) == k
  {
    if k == 0 {
    } else {
      NothingDone(args, k - 1);
    }
  }

  lemma OneMoreCall(calls: seq<Event>, e: Event)
    ensures Winner(calls + [e]) == FirstOf(Winner(calls), e)
    ensures calls == [] ==> Winner(calls).None?
  {
    assert (calls + [e])[..|calls + [e]| - 1] == calls;
  }

  lemma OneMoreDelivery(args: seq<Argument>, delivered: seq<nat>, i: nat)
    requires forall k :: 0 <= k < |delivered| ==> delivered[k] < |args| && args[delivered[k]].Promise?
    requires i < |args| && args[i].Promise?
    ensures
      var before := FirstRejection(args, delivered);
      FirstRejection(args, delivered + [i]) == if before.None? && args[i].outcome.Rejects? then Some(i) else before
  {
    assert (delivered + [i])[..|delivered + [i]| - 1] == delivered;
  }

  lemma CountingZero(args: seq<Argument>, s: State)
    requires Counting(args, s)
    ensures s.count >= 0
    ensures s.count == 0 <==> forall i :: 0 <= i < |args| ==> !Open(args, s, i)
  {
    OpenCountZero(args, s, |args|);
  }

  /** When nothing is open the loop is over, every promise has resolved, and the slots are final. */
  lemma ZeroIsFinal(args: seq<Argument>, s: State)
    requires Counting(args, s) && s.count == 0
    ensures s.next == |args| && AllResolve(args) && s.slots == Final(args)
    ensures forall i :: 0 <= i < |args| && args[i].Promise? ==> i in s.delivered
  {
    CountingZero(args, s);
    if s.next < |args| {
      assert Open(args, s, s.next);
    }
    forall i | 0 <= i < |args| && args[i].Promise?
      ensures i in s.delivered && args[i].outcome.Resolves?
    {
      assert !Open(args, s, i);
    }
  }

  lemma TurnKeepsInv(args: seq<Argument>, self: Value, s: State)
    requires Inv(args, self, s)
    ensures Inv(args, self, Step(args, self, s, Turn))
  {
    var t := Step(args, self, s, Turn);
    if s.next < |args| {
      assert Open(args, s, s.next);
      if args[s.next].Plain? {
        OpenCountChanges(args, s, t, s.next, |args|);
      } else {
        assert s.next !in s.delivered;
        OpenCountSame(args, s, t, |args|);
      }
      assert Counting(args, t);
      RejectionKeepsOpen(args, t);
      CountingZero(args, s);
      CountingZero(args, t);
    }
  }

  lemma {:induction false} NoRejection(args: seq<Argument>, delivered: seq<nat>)
    requires forall k :: 0 <= k < |delivered| ==> delivered[k] < |args| && args[delivered[k]].Promise?
    requires FirstRejection(args, delivered).None?
    ensures forall i :: i in delivered ==> args[i].outcome.Resolves?
  {
    if delivered == [] {
    } else {
      var prefix, last := delivered[..|delivered| - 1], delivered[|delivered| - 1];
      NoRejection(args, prefix);
      assert forall i :: i in delivered ==> i in prefix || i == last;
    }
  }

  /** A rejected promise stays open for good, so the count cannot reach zero. */
  lemma RejectionKeepsOpen(args: seq<Argument>, s: State)
    requires Counting(args, s)
    ensures FirstRejection(args, s.delivered).Some? ==> s.count > 0
  {
    CountingZero(args, s);
    var r := FirstRejection(args, s.delivered);
    if r.Some? {
      assert Open(args, s, r.value);
    }
  }

  lemma DeliverCounts(args: seq<Argument>, self: Value, s: State, i: nat)
    requires Counting(args, s) && i < s.next && args[i].Promise? && i !in s.delivered
    ensures Counting(args, Step(args, self, s, Deliver(i)))
  {
    var t := Step(args, self, s, Deliver(i));
    if args[i].outcome.Resolves? {
      assert t.delivered == s.delivered + [i];
      OpenCountChanges(args, s, t, i, |args|);
    } else {
      OpenCountSame(args, s, t, |args|);
    }
  }

  lemma DeliverKeepsInv(args: seq<Argument>, self: Value, s: State, i: nat)
    requires Inv(args, self, s)
    ensures Inv(args, self, Step(args, self, s, Deliver(i)))
  {
    var t := Step(args, self, s, Deliver(i));
    if i < s.next && args[i].Promise? && i !in s.delivered {
      DeliverCounts(args, self, s, i);
      DeliverCountdown(args, self, s, i);
      OneMoreDelivery(args, s.delivered, i);
      hide Verdict, Counting, FirstRejection;
      match args[i].outcome
      case Resolves(values) => ResolvedVerdict(args, self, s, t);
      case Rejects(context, reasons) => RejectedVerdict(args, self, s, t, i);
    }
  }

  lemma ResolvedVerdict(args: seq<Argument>, self: Value, s: State, t: State)
    requires Inv(args, self, s) && Counting(args, t)
    requires s.count > 0 && t.count >= 0 && t.ended == s.ended
    requires FirstRejection(args, t.delivered) == FirstRejection(args, s.delivered)
    requires FirstRejection(args, t.delivered).Some? ==> t.count > 0
    requires t.calls == if t.count == 0 then s.calls + [ResolveCall(t.slots, self)] else s.calls
    ensures Verdict(args, self, t)
  {
    hide Counting, FirstRejection;
    OneMoreCall(s.calls, ResolveCall(t.slots, self));
  }

  lemma RejectedVerdict(args: seq<Argument>, self: Value, s: State, t: State, i: nat)
    requires Inv(args, self, s) && Counting(args, t)
    requires s.count > 0 && t.count > 0 && i < |args| && args[i].Promise? && args[i].outcome.Rejects?
    requires
      var before := FirstRejection(args, s.delivered);
      FirstRejection(args, t.delivered) == if before.None? then Some(i) else before
    requires t.calls == s.calls + [RejectCall(args[i].outcome.context, args[i].outcome.reasons)]
    ensures Verdict(args, self, t)
  {
    hide Counting, FirstRejection;
    OneMoreCall(s.calls, RejectCall(args[i].outcome.context, args[i].outcome.reasons));
  }

  lemma DeliverCountdown(args: seq<Argument>, self: Value, s: State, i: nat)
    requires Counting(args, s) && i < s.next && args[i].Promise? && i !in s.delivered
    requires Counting(args, Step(args, self, s, Deliver(i)))
    ensures
      var t := Step(args, self, s, Deliver(i));
      && s.count > 0 && t.count >= 0
      && (FirstRejection(args, t.delivered).Some? ==> t.count > 0)
  {
    var t := Step(args, self, s, Deliver(i));
    assert Open(args, s, i);
    CountingZero(args, s);
    CountingZero(args, t);
    RejectionKeepsOpen(args, t);
  }

  lemma AfterLoopKeepsInv(args: seq<Argument>, self: Value, s: State)
    requires Inv(args, self, s)
    ensures Inv(args, self, Step(args, self, s, AfterLoop))
  {
    var t := Step(args, self, s, AfterLoop);
    OpenCountSame(args, s, t, |args|);
    OneMoreCall(s.calls, ResolveCall(s.slots, self));
    CountingZero(args, s);
  }

  lemma {:induction false} RunKeepsInv(args: seq<Argument>, self: Value, moves: seq<Move>)
    requires args != []
    ensures Inv(args, self, Run(args, self, moves))
  {
    if moves == [] {
      NothingDone(args, |args|);
    } else {
      var prefix, m := moves[..|moves| - 1], moves[|moves| - 1];
      RunKeepsInv(args, self, prefix);
      var s := Run(args, self, prefix);
      match m
      case Turn => TurnKeepsInv(args, self, s);
      case Deliver(i) => DeliverKeepsInv(args, self, s, i);
      case AfterLoop => AfterLoopKeepsInv(args, self, s);
    }
  }

  /**
   * Over every interleaving of the loop with promises settling: the deferred resolves only after the
   * loop has seen every argument and every promise has resolved, and then with each value at its own
   * place; it rejects exactly when some promise has rejected, with the first rejection; and when
   * everything has happened it is settled.
   */
  lemma WhenIsSafe(args: seq<Argument>, self: Value, moves: seq<Move>)
    requires args != []
    ensures
      var s := Run(args, self, moves);
      && Inv(args, self, s)
      && (s.next < |args| ==> s.count > 0)
      && (Result(s).Some? && Result(s).value.side == DoneSide ==>
            && s.next == |args|
            && (forall i :: 0 <= i < |args| && args[i].Promise? ==> i in s.delivered)
            && AllResolve(args)
            && Result(s).value.with == Settlement(self, Final(args)))
      && (match FirstRejection(args, s.delivered)
          case Some(r) =>
            Result(s) == Some(Frame(FailSide, Settlement(args[r].outcome.context, args[r].outcome.reasons)))
          case None => !(Result(s).Some? && Result(s).value.side == FailSide))
      && (s.ended && (forall i :: 0 <= i < |args| && args[i].Promise? ==> i in s.delivered) ==> Result(s).Some?)
  {
    RunKeepsInv(args, self, moves);
    var s := Run(args, self, moves);
    CountingZero(args, s);
    if s.count == 0 {
      ZeroIsFinal(args, s);
    }
    if s.next == |args| && FirstRejection(args, s.delivered).None? {
      NoRejection(args, s.delivered);
    }
  }

  /**
   * What arrives when the deferred resolves: one value for each argument, in order, with the deferred itself
   * as context; a plain argument unchanged; of a promise its only value, or all of them when there are several.
   */
  lemma WhenDelivers(args: seq<Argument>, self: Value, moves: seq<Move>, i: nat)
    requires i < |args|
    ensures
      var s := Run(args, self, moves);
      Result(s).Some? && Result(s).value.side == DoneSide ==>
        var with := Result(s).value.with;
        && with.context == self && |with.args| == |args|
        && (args[i].Plain? ==> with.args[i] == args[i].value)
        && (args[i].Promise? ==> args[i].outcome.Resolves? && Arrives(args[i].outcome.values, with.args[i]))
  {
    hide Inv;
    WhenIsSafe(args, self, moves);
  }

  ghost predicate Arrives(values: seq<Value>, v: Value)
  {
    && (|values| == 0 ==> v == Undefined)
    && (|values| == 1 ==> [v] == values)
    && (|values| > 1 ==> v.Array? && v.elems == values)
  }
}

/** The call itself: its local variables are updated in place, its loop runs, its handlers are called. */
module When {
  import opened Wrappers
  import opened JsValues
  import opened DeferredSpec
  import opened WhenSpec

  class Countdown {
    const args: seq<Argument>
    const self: Value
    var slots: seq<Value>
    var next: nat
    var count: int
    var calls: seq<Event>
    var delivered: seq<nat>
    var ended: bool

    function Snapshot(): State
      reads this
    {
      State(slots, next, count, calls, delivered, ended)
    }

    constructor (args: seq<Argument>, self: Value)
      ensures this.args == args && this.self == self
      ensures Snapshot() == Start(args)
    {
      this.args, this.self := args, self;
      slots := seq(|args|, i requires 0 <= i < |args| => if args[i].Plain? then args[i].value else args[i].promise);
      next, count, calls, delivered, ended := 0, |args|, [], [], false;
    }

    /** The function that resolveFunc(i) returns, called with a promise's values. */
    method Resolved(i: nat, values: seq<Value>)
      requires i < |slots|
      modifies this
      ensures Snapshot() == ResolveFunc(self, old(Snapshot()), i, values)
    {
      slots := slots[i := if |values| > 1 then Array(values) else if |values| == 1 then values[0] else Undefined];
      count := count - 1;
      if count == 0 {
        calls := calls + [ResolveCall(slots, self)];
      }
    }

    /** A promise that when has seen and that has not called its handler yet calls it now. */
    method PromiseSettles(i: nat)
      requires |slots| == |args| && i < next <= |args| && args[i].Promise? && i !in delivered
      modifies this
      ensures Snapshot() == WhenSpec.Step(args, self, old(Snapshot()), Deliver(i))
      ensures next == old(next) && ended == old(ended) && delivered == old(delivered) + [i]
    {
      delivered := delivered + [i];
      match args[i].outcome
      case Resolves(values) => Resolved(i, values);
      case Rejects(context, reasons) => calls := calls + [RejectCall(context, reasons)];
    }

    /** One turn of the loop, as far as it concerns the argument itself. */
    method See() returns (i: nat)
      requires |slots| == |args| && next < |args| && !ended
      modifies this
      ensures i == old(next) && Snapshot() == WhenSpec.Step(args, self, old(Snapshot()), Turn)
      ensures next == i + 1 && !ended && delivered == old(delivered)
    {
      i := next;
      next := next + 1;
      if args[i].Plain? {
        count := count - 1;
      }
    }

    /** The test after the loop. */
    method Test()
      requires |slots| == |args| == next && !ended
      modifies this
      ensures Snapshot() == WhenSpec.Step(args, self, old(Snapshot()), AfterLoop)
      ensures ended && next == old(next) && delivered == old(delivered)
    {
      ended := true;
      if count == 0 {
        calls := calls + [ResolveCall(slots, self)];
      }
    }

    /**
     * The body of when: the loop, in which the promises marked as settled already call their handlers
     * on the spot, and the test after it.  What it does is a run of the machine above.
     */
    method Body(settled: seq<bool>) returns (ghost moves: seq<Move>)
      requires args != [] && |settled| == |args|
      requires Snapshot() == Start(args)
      modifies this
      ensures Snapshot() == WhenSpec.Run(args, self, moves)
      ensures ended && next == |args|
      ensures forall i :: 0 <= i < |args| && args[i].Promise? && settled[i] ==> i in delivered
    {
      moves := [];
      assert WhenSpec.Run(args, self, moves) == Start(args);
      hide WhenSpec.Run, WhenSpec.Step;
      while next < |args|
        invariant next <= |args| && !ended
        invariant Snapshot() == WhenSpec.Run(args, self, moves)
        invariant forall k :: 0 <= k < |delivered| ==> delivered[k] < next
        invariant forall i :: 0 <= i < next && args[i].Promise? && settled[i] ==> i in delivered
      {
        OneMoreMove(args, self, moves, Turn);
        moves := moves + [Turn];
        var i := See();
        if args[i].Promise? && settled[i] {
          OneMoreMove(args, self, moves, Deliver(i));
          moves := moves + [Deliver(i)];
          PromiseSettles(i);
        }
      }
      OneMoreMove(args, self, moves, AfterLoop);
      moves := moves + [AfterLoop];
      Test();
    }
  }

  lemma OneMoreMove(args: seq<Argument>, self: Value, moves: seq<Move>, m: Move)
    ensures WhenSpec.Run(args, self, moves + [m]) == WhenSpec.Step(args, self, WhenSpec.Run(args, self, moves), m)
  {
    assert (moves + [m])[..|moves + [m]| - 1] == moves;
  }
}
