/** The handshake by which a completion callback is unregistered while any number of advertising
    events may be running it, as interleaved atomic steps on the three shared variables. */
module CallbackHandshake {
  import opened Words

  /** Where one gap_event call stands: it counts itself in, loads the callback, and if there is one
      loads the context and runs the callback with it, then counts itself out. */
  datatype Call = Outside | CountedIn | LoadedCallback(present: bool) | Running(hasContext: bool) | Finished

  /** Where set_completion_callback stands, with or without a callback to set. */
  datatype Setter = Idle | Waiting | SawNone | StoredContext

  /** `callback` and `context` say whether the shared pointers are non-null; `unregistered` is a history
      variable: an unregistration has returned and no registration has begun since. */
  datatype State = State(callback: bool, context: bool, inFlight: Word32, calls: seq<Call>, setter: Setter,
      unregistered: bool)

  datatype Step =
    | CountIn(i: nat)
    | LoadCallback(i: nat)
    | LoadContext(i: nat)
    | Return(i: nat)
    | CountOut(i: nat)
    | ClearCallback
    | LoadInFlight
    | ClearContext
    | StoreContext
    | StoreCallback

  predicate Start(s: State) {
    && !s.callback && !s.context && s.inFlight == 0 && s.setter == Idle && !s.unregistered
    && forall i :: 0 <= i < |s.calls| ==> s.calls[i] == Outside
  }

  /** One atomic step; a step whose turn it is not does nothing. */
  function Next(s: State, step: Step): State {
    match step
    case CountIn(i) =>
      if i >= |s.calls| || !s.calls[i].Outside? then s
      else s.(inFlight := Unsigned32(s.inFlight + 1), calls := s.calls[i := CountedIn])
    case LoadCallback(i) =>
      if i >= |s.calls| || !s.calls[i].CountedIn? then s
      else s.(calls := s.calls[i := LoadedCallback(s.callback)])
    case LoadContext(i) =>
      if i >= |s.calls| || s.calls[i] != LoadedCallback(true) then s
      else s.(calls := s.calls[i := Running(s.context)])
    case Return(i) =>
      if i >= |s.calls| || !(s.calls[i].Running? || s.calls[i] == LoadedCallback(false)) then s
      else s.(calls := s.calls[i := Finished])
    case CountOut(i) =>
      if i >= |s.calls| || !s.calls[i].Finished? then s
      else s.(inFlight := Unsigned32(s.inFlight - 1), calls := s.calls[i := Outside])
    case ClearCallback => if s.setter.Idle? then s.(callback := false, setter := Waiting) else s
    case LoadInFlight => if s.setter.Waiting? && s.inFlight == 0 then s.(setter := SawNone) else s
    case ClearContext => if s.setter.SawNone? then s.(context := false, setter := Idle, unregistered := true) else s
    case StoreContext => if s.setter.Idle? then s.(context := true, setter := StoredContext, unregistered := false) else s
    case StoreCallback => if s.setter.StoredContext? then s.(callback := true, setter := Idle) else s
  }

  function Run(s: State, steps: seq<Step>): State {
    if steps == [] then s else Next(Run(s, steps[..|steps| - 1]), steps[|steps| - 1])
  }

  /** How many calls have counted themselves in and not out. */
  function Active(calls: seq<Call>): nat {
    if calls == [] then 0
    else Active(calls[..|calls| - 1]) + if calls[|calls| - 1].Outside? then 0 else 1
  }

  lemma {:induction false} ActiveUpdate(calls: seq<Call>, i: nat, c: Call)
    requires i < |calls|
    ensures Active(calls[i := c]) ==
      Active(calls) - (if calls[i].Outside? then 0 else 1) + (if c.Outside? then 0 else 1)
    decreases |calls|
  {
    var front := calls[..|calls| - 1];
    if i < |front| {
      ActiveUpdate(front, i, c);
      assert calls[i := c][..|calls| - 1] == front[i := c];
    } else {
      assert calls[i := c][..|calls| - 1] == front;
    }
  }

  lemma {:induction false} ActiveBounds(calls: seq<Call>)
    ensures Active(calls) <= |calls|
    ensures Active(calls) == 0 <==> forall i :: 0 <= i < |calls| ==> calls[i].Outside?
    decreases |calls|
  {
    if calls == [] {
    } else {
      ActiveBounds(calls[..|calls| - 1]);
      assert Active(calls) == 0 ==> forall i :: 0 <= i < |calls| ==>
        i == |calls| - 1 || calls[i] == calls[..|calls| - 1][i];
    }
  }

  /** About to run the callback, or running it. */
  predicate Engaged(c: Call) {
    c == LoadedCallback(true) || c.Running?
  }

  ghost predicate Invariant(s: State) {
    && s.inFlight == Unsigned32(Active(s.calls))
    && (s.callback ==> s.context)
    && (s.setter.StoredContext? ==> s.context)
    && (s.setter.Waiting? || s.setter.SawNone? || s.unregistered ==> !s.callback)
    && (s.unregistered ==> !s.setter.StoredContext?)
    && (forall i :: 0 <= i < |s.calls| && Engaged(s.calls[i]) ==>
          s.context && s.calls[i] != Running(false) && !s.setter.SawNone? && !s.unregistered)
  }

  lemma NextKeepsInvariant(s: State, step: Step)
    requires Invariant(s) && |s.calls| < TWO32
    ensures Invariant(Next(s, step))
  {
    hide Active, Unsigned32;
    match step
    case CountIn(i) =>
      if i < |s.calls| { ActiveUpdate(s.calls, i, CountedIn); OneMore(Active(s.calls)); }
    case LoadCallback(i) =>
      if i < |s.calls| { ActiveUpdate(s.calls, i, LoadedCallback(s.callback)); }
    case LoadContext(i) =>
      if i < |s.calls| { ActiveUpdate(s.calls, i, Running(s.context)); }
    case Return(i) =>
      if i < |s.calls| { ActiveUpdate(s.calls, i, Finished); }
    case CountOut(i) =>
      if i < |s.calls| { ActiveUpdate(s.calls, i, Outside); OneMore(Active(s.calls) - 1); }
    case LoadInFlight =>
      ActiveBounds(s.calls);
      SmallCount(Active(s.calls));
    case _ =>
  }

  lemma OneMore(n: int)
    ensures Unsigned32(Unsigned32(n) + 1) == Unsigned32(n + 1)
    ensures Unsigned32(Unsigned32(n + 1) - 1) == Unsigned32(n)
  {
  }

  lemma SmallCount(n: nat)
    requires n < TWO32
    ensures Unsigned32(n) == n
  {
  }

  lemma {:induction false} RunKeepsInvariant(s: State, steps: seq<Step>)
    requires Start(s) && |s.calls| < TWO32
    ensures Invariant(Run(s, steps)) && |Run(s, steps).calls| == |s.calls|
    decreases |steps|
  {
    if steps == [] {
      ActiveBounds(s.calls);
    } else {
      RunKeepsInvariant(s, steps[..|steps| - 1]);
      NextKeepsInvariant(Run(s, steps[..|steps| - 1]), steps[|steps| - 1]);
    }
  }

  /** Unregistering is quiescent for any interleaving of fewer than 2^32 calls: once it has returned, and
      until a registration begins, no callback runs and none is about to; and no callback that ever runs
      sees a cleared context. */
  lemma UnregisteringIsQuiescent(s: State, steps: seq<Step>)
    requires Start(s) && |s.calls| < TWO32
    ensures var r := Run(s, steps);
      && (forall i :: 0 <= i < |r.calls| ==> r.calls[i] != Running(false))
      && (r.unregistered ==> forall i :: 0 <= i < |r.calls| ==> !Engaged(r.calls[i]))
  {
    RunKeepsInvariant(s, steps);
    hide Run, Active, Unsigned32;
  }

  // ----- The bound is exact: 2^32 calls wrap the counter

  lemma RunOneMore(s: State, steps: seq<Step>, step: Step)
    ensures Run(s, steps + [step]) == Next(Run(s, steps), step)
  {
    assert (steps + [step])[..|steps|] == steps;
  }

  /** After a registration, `k` calls can all be running the callback at once. */
  lemma {:induction false} Crowd(s: State, k: nat) returns (steps: seq<Step>)
    requires Start(s) && k <= |s.calls|
    ensures var r := Run(s, steps);
      && r.callback && r.context && r.setter.Idle? && r.inFlight == Unsigned32(k) && |r.calls| == |s.calls|
      && forall i :: 0 <= i < |s.calls| ==> r.calls[i] == if i < k then Running(true) else Outside
  {
    hide Unsigned32, Run;
    if k == 0 {
      steps := [];
      assert Run(s, steps) == s by { RunNothing(s); }
      RunOneMore(s, steps, StoreContext);
      steps := steps + [StoreContext];
      RunOneMore(s, steps, StoreCallback);
      steps := steps + [StoreCallback];
      assert Unsigned32(0) == 0 by { SmallCount(0); }
    } else {
      steps := Crowd(s, k - 1);
      RunOneMore(s, steps, CountIn(k - 1));
      steps := steps + [CountIn(k - 1)];
      RunOneMore(s, steps, LoadCallback(k - 1));
      steps := steps + [LoadCallback(k - 1)];
      RunOneMore(s, steps, LoadContext(k - 1));
      steps := steps + [LoadContext(k - 1)];
      OneMore(k - 1);
    }
  }

  lemma RunNothing(s: State)
    ensures Run(s, []) == s
  {
  }

  /** With 2^32 or more concurrent calls there is an interleaving in which unregistering returns
      while a callback is running. */
  lemma TooManyCallsBreakQuiescence(s: State) returns (steps: seq<Step>)
    requires Start(s) && |s.calls| >= TWO32
    ensures var r := Run(s, steps); r.unregistered && |r.calls| > 0 && r.calls[0].Running?
  {
    hide Unsigned32, Run;
    steps := Crowd(s, TWO32);
    assert Unsigned32(TWO32) == 0 by { CounterWraps(); }
    RunOneMore(s, steps, ClearCallback);
    steps := steps + [ClearCallback];
    RunOneMore(s, steps, LoadInFlight);
    steps := steps + [LoadInFlight];
    RunOneMore(s, steps, ClearContext);
    steps := steps + [ClearContext];
  }

  lemma CounterWraps()
    ensures Unsigned32(TWO32) == 0
  {
  }
}
