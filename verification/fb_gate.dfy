/** The gate of a framebuffer device: calls that enter and leave, and the removal that waits for them. */
module FbGate {

  datatype Pc =
    | Out
    | Counted    // In the count, about to look whether the device is removed
    | Refused    // Saw it removed, still in the count
    | Waiting    // Past the look, about to take the lock
    | Inside
    | Released   // Gave the lock back, still in the count
    | Removing   // Has said so
    | Draining   // In the loop that waits for the count
    | Drained

  datatype State = State(
    pc: map<nat, Pc>,
    inFlight: nat,
    removed: bool,
    lock: set<nat>,     // Who has the lock
    drained: bool       // History: a removal has left its loop
  )

  /** remove says whether an idle thread calls or removes; fail that the removal from the registry fails. */
  datatype Event = Event(t: nat, remove: bool, fail: bool)

  function At(s: State, t: nat): Pc
  {
    if t in s.pc then s.pc[t] else Out
  }

  predicate Counts(p: Pc)
  {
    p.Counted? || p.Refused? || p.Waiting? || p.Inside? || p.Released?
  }

  predicate Enabled(s: State, e: Event)
  {
    match At(s, e.t)
    case Waiting => s.lock == {}
    case Drained => false
    case _ => true
  }

  function Next(s: State, e: Event): Pc
  {
    match At(s, e.t)
    case Out => if e.remove then Removing else Counted
    case Counted => if s.removed then Refused else Waiting
    case Refused => Out
    case Waiting => Inside
    case Inside => Released
    case Released => Out
    case Removing => if e.fail then Out else Draining
    case Draining => if s.inFlight == 0 then Drained else Draining
    case Drained => Drained
  }

  function Step(s: State, e: Event): State
  {
    var p, q := At(s, e.t), Next(s, e);
    State(s.pc[e.t := q],
          if p.Out? && q.Counted? then s.inFlight + 1
          else if (p.Refused? || p.Released?) && s.inFlight > 0 then s.inFlight - 1
          else s.inFlight,
          s.removed || q.Removing?,
          if p.Waiting? then {e.t} else if p.Inside? then {} else s.lock,
          s.drained || q.Drained?)
  }

  predicate Start(s: State)
  {
    s.pc == map[] && s.inFlight == 0 && !s.removed && s.lock == {} && !s.drained
  }

  predicate Legal(s: State, run: seq<Event>)
  {
    run == [] || (Legal(s, run[..|run| - 1]) && Enabled(After(s, run[..|run| - 1]), run[|run| - 1]))
  }

  function After(s: State, run: seq<Event>): State
  {
    if run == [] then s else Step(After(s, run[..|run| - 1]), run[|run| - 1])
  }

  /** Between a successful enter and the end of its leave. */
  predicate Through(p: Pc)
  {
    p.Waiting? || p.Inside? || p.Released?
  }

  // ---------------------------------------------------------------------------------------------

  ghost function Callers(pc: map<nat, Pc>): set<nat>
  {
    set t | t in pc && Counts(pc[t])
  }

  ghost predicate Inv(s: State)
  {
    && s.inFlight == |Callers(s.pc)|
    && (forall t | t in s.pc :: (s.pc[t].Inside? <==> t in s.lock))
    && (forall t | t in s.lock :: t in s.pc)
    && (forall t, u | t in s.lock && u in s.lock :: t == u)
    && (forall t | t in s.pc :: (s.pc[t].Draining? || s.pc[t].Drained? || s.pc[t].Removing?) ==> s.removed)
    && (forall t | t in s.pc :: s.pc[t].Drained? ==> s.drained)
    && (s.drained ==> s.removed && forall t | t in s.pc :: !Through(s.pc[t]))
  }

  lemma CallersMove(pc: map<nat, Pc>, t: nat, p: Pc)
    ensures Callers(pc[t := p]) == if Counts(p) then Callers(pc) + {t} else Callers(pc) - {t}
  {
  }

  /** The count is of the callers, one for each. */
  lemma CountKept(s: State, e: Event)
    requires s.inFlight == |Callers(s.pc)|
    ensures Step(s, e).inFlight == |Callers(Step(s, e).pc)|
  {
    var p, q := At(s, e.t), Next(s, e);
    CallersMove(s.pc, e.t, q);
    assert e.t in Callers(s.pc) <==> Counts(p);
    assert Counts(p) && !Counts(q) ==> p.Refused? || p.Released?;
    assert !Counts(p) && Counts(q) ==> p.Out? && q.Counted?;
    hide Counts, At, Next, Callers;
  }

  lemma StepKeeps(s: State, e: Event)
    requires Inv(s) && Enabled(s, e)
    ensures Inv(Step(s, e))
  {
    CountKept(s, e);
    if At(s, e.t).Draining? && s.inFlight == 0 {
      forall t | t in s.pc ensures !Through(s.pc[t]) {
        assert Counts(s.pc[t]) ==> t in Callers(s.pc);
      }
    }
  }

  lemma {:induction false} RunKeeps(s: State, run: seq<Event>)
    requires Start(s) && Legal(s, run)
    ensures Inv(After(s, run))
  {
    if run == [] {
      assert Callers(s.pc) == {};
    } else {
      RunKeeps(s, run[..|run| - 1]);
      StepKeeps(After(s, run[..|run| - 1]), run[|run| - 1]);
    }
  }

  /**
   * Once a removal has left its loop no call is between its enter and its leave, and whatever any number of threads
   * do after that, none ever is again.
   */
  lemma NoneThrough(s: State, run: seq<Event>, more: seq<Event>, r: nat, t: nat)
    requires Start(s) && Legal(s, run + more) && Legal(s, run) && At(After(s, run), r).Drained?
    ensures !Through(At(After(s, run + more), t))
    decreases |more|
  {
    RunKeeps(s, run + more);
    StillDrained(s, run, more, r);
  }

  lemma {:induction false} StillDrained(s: State, run: seq<Event>, more: seq<Event>, r: nat)
    requires Start(s) && Legal(s, run + more) && Legal(s, run) && At(After(s, run), r).Drained?
    ensures At(After(s, run + more), r).Drained?
    decreases |more|
  {
    if more == [] {
      assert run + more == run;
    } else {
      var init := more[..|more| - 1];
      assert (run + more)[..|run + more| - 1] == run + init;
      assert Legal(s, run + init);
      hide Legal;
      StillDrained(s, run, init, r);
    }
  }

  /** The lock keeps calls apart. */
  lemma OneInside(s: State, run: seq<Event>, t: nat, u: nat)
    requires Start(s) && Legal(s, run) && At(After(s, run), t).Inside? && At(After(s, run), u).Inside?
    ensures t == u
  {
    RunKeeps(s, run);
  }

  // ---------------------------------------------------------------------------------------------
  // And what it lets through

  /** So many steps of one thread. */
  function Alone(t: nat, remove: bool, n: nat): seq<Event>
  {
    if n == 0 then [] else Alone(t, remove, n - 1) + [Event(t, remove, false)]
  }

  lemma OneMore(s: State, t: nat, remove: bool, n: nat)
    requires Legal(s, Alone(t, remove, n)) && Enabled(After(s, Alone(t, remove, n)), Event(t, remove, false))
    ensures Legal(s, Alone(t, remove, n + 1))
    ensures After(s, Alone(t, remove, n + 1)) == Step(After(s, Alone(t, remove, n)), Event(t, remove, false))
  {
    var run := Alone(t, remove, n + 1);
    assert run[..|run| - 1] == Alone(t, remove, n);
  }

  lemma NoneYet(s: State, t: nat, remove: bool)
    ensures Legal(s, Alone(t, remove, 0)) && After(s, Alone(t, remove, 0)) == s
  {
  }

  lemma StepAt(s: State, e: Event)
    ensures At(Step(s, e), e.t) == Next(s, e)
  {
  }

  /** While the device is not removed and the lock is free, a call gets inside ... */
  lemma CallGetsInside(s: State, t: nat)
    requires At(s, t).Out? && !s.removed && s.lock == {}
    ensures Legal(s, Alone(t, false, 3))
    ensures var r := After(s, Alone(t, false, 3));
            At(r, t).Inside? && r.inFlight == s.inFlight + 1 && r.lock == {t} && !r.removed
  {
    hide Legal, After, Alone, At;
    var e := Event(t, false, false);
    NoneYet(s, t, false);
    StepAt(s, e);
    OneMore(s, t, false, 0);
    var s1 := Step(s, e);
    StepAt(s1, e);
    OneMore(s, t, false, 1);
    var s2 := Step(s1, e);
    StepAt(s2, e);
    OneMore(s, t, false, 2);
  }

  /** ... and out again, with the count and the lock as they were. */
  lemma CallGetsOut(s: State, t: nat)
    requires At(s, t).Out? && !s.removed && s.lock == {}
    ensures Legal(s, Alone(t, false, 5))
    ensures var r := After(s, Alone(t, false, 5)); At(r, t).Out? && r.inFlight == s.inFlight && r.lock == {} && !r.removed
  {
    hide Legal, After, Alone, At;
    var e := Event(t, false, false);
    CallGetsInside(s, t);
    var s3 := After(s, Alone(t, false, 3));
    StepAt(s3, e);
    OneMore(s, t, false, 3);
    var s4 := Step(s3, e);
    StepAt(s4, e);
    OneMore(s, t, false, 4);
  }

  /** With nobody in the count a removal gets past its loop. */
  lemma RemovalEnds(s: State, t: nat)
    requires At(s, t).Out? && s.inFlight == 0
    ensures Legal(s, Alone(t, true, 3)) && At(After(s, Alone(t, true, 3)), t).Drained?
  {
    assert Alone(t, true, 0) == [] && Legal(s, []) && After(s, []) == s;
    OneMore(s, t, true, 0);
    OneMore(s, t, true, 1);
    OneMore(s, t, true, 2);
  }

  lemma Longer(s: State, run: seq<Event>, e: Event)
    requires Legal(s, run)
    ensures Legal(s, run + [e]) <==> Enabled(After(s, run), e)
    ensures After(s, run + [e]) == Step(After(s, run), e)
  {
    assert (run + [e])[..|run + [e]| - 1] == run;
  }

  /** One whose device stays in the registry goes back, but keeps new calls out. */
  lemma FailedRemoval(s: State, t: nat, u: nat)
    requires At(s, t).Out? && At(s, u).Out? && t != u
    ensures var run := [Event(t, true, false), Event(t, true, true)]; Legal(s, run) && At(After(s, run), t).Out?
    ensures var run := [Event(t, true, false), Event(t, true, true), Event(u, false, false), Event(u, false, false)];
            Legal(s, run) && At(After(s, run), u).Refused?
  {
    hide Legal, After;
    var a, b, c := Event(t, true, false), Event(t, true, true), Event(u, false, false);
    NoneYet(s, t, true);
    assert [] + [a] == [a] && [a] + [b] == [a, b] && [a, b] + [c] == [a, b, c] && [a, b, c] + [c] == [a, b, c, c];
    Longer(s, [], a);
    Longer(s, [a], b);
    Longer(s, [a, b], c);
    Longer(s, [a, b, c], c);
  }
}
