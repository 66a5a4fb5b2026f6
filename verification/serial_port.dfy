/**
 * Serial ports: binding, unbinding, exchanges, removal and the interrupts that dispatch to the consumer, by any
 * number of threads in any order.
 */
module SerialPort {
  import opened Wrappers

  datatype Consumer = Nobody | Tty | Exchange

  /** What consumer_data points to: a terminal, or the frame of the thread whose exchange it is. */
  datatype Data = NoData | Terminal(id: nat) | Frame(thread: nat)

  datatype Op = Bind | Unbind | Swap | Remove | Receive | StartUp | ShutDown

  datatype Pc =
    | Idle
    | BindWait | BindCheck | BindMake | BindData(id: nat) | BindAdd(id: nat) | BindUndo(id: nat) | BindFree(id: nat)
    | BindDispatch(id: nat) | BindRecord(id: nat)
    | UnbindWait(force: bool) | UnbindCheck(force: bool) | UnbindRun(force: bool) | UnbindAsk(force: bool, id: nat)
    | UnbindDetach(force: bool, id: nat) | UnbindRemove(force: bool, id: nat) | UnbindAgain(force: bool, ok: bool)
    | UnbindFinish(force: bool, ok: bool) | UnbindDispatch(force: bool) | UnbindForget(force: bool)
    | SwapWait | SwapCheck | SwapData(was: bool) | SwapDispatch(was: bool) | Swapping(was: bool) | SwapClear(was: bool)
    | SwapLeave(was: bool)
    | RemoveStart | RemoveLook | RemoveTrigger(consumer: Consumer) | RemoveLock | RemoveShut | RemoveDone
    | ReceiveLock | Received(consumer: Consumer)

  datatype Port = Port(
    consumer: Consumer,
    data: Data,
    bound: bool,                // The binding names a consumer
    live: set<nat>,             // Terminals that exist
    next: nat                   // Terminals made so far
  )

  datatype Shared = Shared(
    lock: Option<nat>,          // Who has the port's lock
    dispatch: Option<nat>,      // Who has the dispatch lock
    unbinding: Option<nat>,     // The flag, and whose it is
    port: Port,
    started: bool,
    removed: bool,
    ended: bool                 // History: the unbind loop of a removal is over
  )

  datatype State = State(pc: map<nat, Pc>, v: Shared)

  /** A thread's step: where it goes, and the shared fields after it. */
  datatype Next = Next(p: Pc, v: Shared)

  /** A step of a thread, where go picks one of two outcomes, or a call that an idle thread makes. */
  datatype Event = Go(t: nat, go: bool) | Call(t: nat, op: Op)

  function At(s: State, t: nat): Pc
  {
    if t in s.pc then s.pc[t] else Idle
  }

  predicate TakesLock(p: Pc)
  {
    p.BindWait? || p.UnbindWait? || p.UnbindAgain? || p.SwapWait? || p.RemoveLock?
  }

  predicate HasLock(p: Pc)
  {
    || p.BindCheck? || p.BindMake? || p.BindData? || p.BindAdd? || p.BindUndo? || p.BindFree? || p.BindDispatch? || p.BindRecord?
    || p.UnbindCheck? || p.UnbindFinish? || p.UnbindDispatch? || p.UnbindForget?
    || p.SwapCheck? || p.SwapData? || p.SwapDispatch? || p.Swapping? || p.SwapClear? || p.SwapLeave?
    || p.RemoveShut?
  }

  /** Steps that need the dispatch lock: to keep it for a call, or for one assignment. */
  predicate NeedsDispatch(p: Pc)
  {
    p.RemoveLook? || p.ReceiveLock? || p.BindDispatch? || p.UnbindDetach? || p.UnbindDispatch? || p.SwapDispatch? || p.Swapping?
  }

  predicate HasDispatch(p: Pc)
  {
    p.RemoveTrigger? || p.Received?
  }

  /** The unbind that runs. Its last part runs with the lock, after the flag is down. */
  predicate Unbinds(p: Pc)
  {
    p.UnbindRun? || p.UnbindAsk? || p.UnbindDetach? || p.UnbindRemove? || p.UnbindAgain? || p.UnbindFinish?
  }

  predicate Ready(v: Shared, p: Pc)
  {
    !p.Idle? && !p.RemoveDone? && (TakesLock(p) ==> v.lock.None?) && (NeedsDispatch(p) ==> v.dispatch.None?)
  }

  predicate Enabled(s: State, e: Event)
  {
    match e
    case Call(t, op) => At(s, t).Idle? && (op == StartUp || op == ShutDown ==> s.v.lock.None?)
    case Go(t, go) => Ready(s.v, At(s, t))
  }

  function Taken(s: State, e: Event): Next
  {
    match e
    case Call(t, op) => Begin(s.v, op)
    case Go(t, go) => Advance(s.v, t, At(s, t), go)
  }

  function Step(s: State, e: Event): (s': State)
    ensures s'.v == Taken(s, e).v && At(s', e.t) == Taken(s, e).p && forall u: nat | u != e.t :: At(s', u) == At(s, u)
  {
    State(s.pc[e.t := Taken(s, e).p], Taken(s, e).v)
  }

  function Begin(v: Shared, op: Op): Next
  {
    match op
    case Bind => Next(BindWait, v)
    case Unbind => Next(UnbindWait(false), v)
    case Swap => Next(SwapWait, v)
    case Remove => Next(RemoveStart, v)
    case Receive => Next(ReceiveLock, v)
    case StartUp => Next(Idle, if v.removed then v else v.(started := true))
    case ShutDown => Next(Idle, if v.removed then v else v.(started := false))
  }

  /** Where an unbind returns to: an idle thread, or the loop of a removal. */
  function AfterUnbind(force: bool, busy: bool): Pc
  {
    if !force then Idle else if busy then UnbindWait(true) else RemoveLock
  }

  /** bind_locked, with the terminal's bind in it. */
  function BindStep(v: Shared, t: nat, p: Pc, go: bool): Next
  {
    match p
    case BindWait => Next(BindCheck, v.(lock := Some(t)))
    case BindCheck =>
      if v.removed || v.port.consumer != Nobody || v.unbinding.Some? || !go then Next(Idle, v.(lock := None)) else Next(BindMake, v)
    case BindMake =>
      if !go then Next(Idle, v.(lock := None))
      else Next(BindData(v.port.next), v.(port := v.port.(live := v.port.live + {v.port.next}, next := v.port.next + 1)))
    case BindData(id) => Next(BindAdd(id), v.(port := v.port.(data := Terminal(id))))
    case BindAdd(id) => Next(if go then BindDispatch(id) else BindUndo(id), v)
    case BindUndo(id) => Next(BindFree(id), v.(port := v.port.(data := NoData)))
    case BindFree(id) => Next(Idle, v.(port := v.port.(live := v.port.live - {id}), lock := None))
    case BindDispatch(id) => Next(BindRecord(id), v.(port := v.port.(consumer := Tty)))
    case BindRecord(id) => Next(Idle, v.(port := v.port.(bound := true), lock := None))
    case _ => Next(p, v)
  }

  /** unbind, with the terminal's unbind in it. */
  function UnbindStep(v: Shared, t: nat, p: Pc, go: bool): Next
  {
    match p
    case UnbindWait(f) => Next(UnbindCheck(f), v.(lock := Some(t)))
    case UnbindCheck(f) =>
      if v.unbinding.Some? then Next(AfterUnbind(f, true), v.(lock := None))
      else if !v.port.bound then Next(AfterUnbind(f, false), v.(lock := None, ended := v.ended || f))
      else Next(UnbindRun(f), v.(unbinding := Some(t), lock := None))
    case UnbindRun(f) => Next(UnbindAsk(f, if v.port.data.Terminal? then v.port.data.id else 0), v)
    case UnbindAsk(f, id) => Next(if !f && !go then UnbindAgain(f, false) else UnbindDetach(f, id), v)
    case UnbindDetach(f, id) => Next(UnbindRemove(f, id), v.(port := v.port.(consumer := Nobody)))
    case UnbindRemove(f, id) => Next(UnbindAgain(f, true), v.(port := v.port.(live := v.port.live - {id})))
    case UnbindAgain(f, ok) => Next(UnbindFinish(f, ok), v.(lock := Some(t)))
    case UnbindFinish(f, ok) =>
      if ok then Next(UnbindDispatch(f), v.(unbinding := None)) else Next(AfterUnbind(f, true), v.(unbinding := None, lock := None))
    case UnbindDispatch(f) => Next(UnbindForget(f), v.(port := v.port.(consumer := Nobody)))
    case UnbindForget(f) =>
      Next(AfterUnbind(f, false),
           v.(port := v.port.(bound := false, data := NoData), started := false, lock := None, ended := v.ended || f))
    case _ => Next(p, v)
  }

  /** run_exchange_locked and wait_exchanged. */
  function SwapStep(v: Shared, t: nat, p: Pc, go: bool): Next
  {
    match p
    case SwapWait => Next(SwapCheck, v.(lock := Some(t)))
    case SwapCheck =>
      if v.removed || v.port.consumer != Nobody || v.unbinding.Some? || !go then Next(Idle, v.(lock := None))
      else Next(SwapData(v.started), v.(started := true))
    case SwapData(was) => Next(SwapDispatch(was), v.(port := v.port.(data := Frame(t))))
    case SwapDispatch(was) => Next(Swapping(was), v.(port := v.port.(consumer := Exchange)))
    case Swapping(was) => Next(SwapClear(was), v.(port := v.port.(consumer := Nobody)))
    case SwapClear(was) => Next(SwapLeave(was), v.(port := v.port.(data := NoData)))
    case SwapLeave(was) => Next(Idle, v.(started := was, lock := None))
    case _ => Next(p, v)
  }

  /** serial_interface_remove but for the unbinding; serial_receive, serial_receive_error and serial_transmit_take. */
  function RemoveStep(v: Shared, t: nat, p: Pc, go: bool): Next
  {
    match p
    case RemoveStart => Next(RemoveLook, v.(removed := true))
    case RemoveLook => Next(RemoveTrigger(v.port.consumer), v.(dispatch := Some(t)))
    case RemoveTrigger(_) => Next(UnbindWait(true), v.(dispatch := None))
    case RemoveLock => Next(RemoveShut, v.(lock := Some(t)))
    case RemoveShut => Next(RemoveDone, v.(started := false, lock := None))
    case ReceiveLock => Next(Received(v.port.consumer), v.(dispatch := Some(t)))
    case Received(_) => Next(Idle, v.(dispatch := None))
    case _ => Next(p, v)
  }

  predicate InBind(p: Pc)
  {
    || p.BindWait? || p.BindCheck? || p.BindMake? || p.BindData? || p.BindAdd? || p.BindUndo? || p.BindFree?
    || p.BindDispatch? || p.BindRecord?
  }

  predicate InUnbind(p: Pc)
  {
    || p.UnbindWait? || p.UnbindCheck? || p.UnbindRun? || p.UnbindAsk? || p.UnbindDetach? || p.UnbindRemove? || p.UnbindAgain?
    || p.UnbindFinish? || p.UnbindDispatch? || p.UnbindForget?
  }

  predicate InSwap(p: Pc)
  {
    p.SwapWait? || p.SwapCheck? || p.SwapData? || p.SwapDispatch? || p.Swapping? || p.SwapClear? || p.SwapLeave?
  }

  function Advance(v: Shared, t: nat, p: Pc, go: bool): Next
  {
    if InBind(p) then BindStep(v, t, p, go)
    else if InUnbind(p) then UnbindStep(v, t, p, go)
    else if InSwap(p) then SwapStep(v, t, p, go)
    else RemoveStep(v, t, p, go)
  }

  predicate Start(s: State)
  {
    var v := s.v;
    && s.pc == map[] && v.lock.None? && v.dispatch.None? && v.port.consumer == Nobody && v.port.data == NoData && !v.port.bound
    && v.unbinding.None? && !v.started && !v.removed && v.port.live == {} && !v.ended
  }

  predicate Legal(s: State, run: seq<Event>)
  {
    run == [] || (Legal(s, run[..|run| - 1]) && Enabled(After(s, run[..|run| - 1]), run[|run| - 1]))
  }

  function After(s: State, run: seq<Event>): State
  {
    if run == [] then s else Step(After(s, run[..|run| - 1]), run[|run| - 1])
  }

  // ---------------------------------------------------------------------------------------------
  // What is promised

  /** Something a consumer of this kind may use: a terminal that exists, or the frame of an exchange that has not returned. */
  predicate Serves(s: State, c: Consumer)
  {
    match c
    case Nobody => true
    case Tty => s.v.port.data.Terminal? && s.v.port.data.id in s.v.port.live
    case Exchange => s.v.port.data.Frame? && At(s, s.v.port.data.thread).Swapping?
  }

  /** Whoever is about to use consumer_data finds what it expects there. */
  predicate Safe(s: State, t: nat)
  {
    match At(s, t)
    case Received(c) => c == s.v.port.consumer && Serves(s, c)
    case RemoveTrigger(c) => c == s.v.port.consumer && Serves(s, c)
    case UnbindRun(_) => s.v.port.data.Terminal? && s.v.port.data.id in s.v.port.live
    case UnbindAsk(_, id) => s.v.port.data == Terminal(id) && id in s.v.port.live
    case UnbindDetach(_, id) => id in s.v.port.live
    case UnbindRemove(_, id) => id in s.v.port.live && s.v.port.consumer == Nobody
    case _ => true
  }

  /** Nothing is bound, in place or running, and it stays so. */
  predicate Closed(v: Shared)
  {
    v.removed && v.port.consumer == Nobody && v.port.data == NoData && !v.port.bound && v.unbinding.None? && v.port.live == {}
  }

  predicate PastUnbinding(p: Pc)
  {
    p.RemoveLock? || p.RemoveShut? || p.RemoveDone?
  }

  // ---------------------------------------------------------------------------------------------
  // The invariant

  ghost predicate Owners(s: State)
  {
    && (forall t: nat {:trigger At(s, t)} :: HasLock(At(s, t)) <==> s.v.lock == Some(t))
    && (forall t: nat {:trigger At(s, t)} :: HasDispatch(At(s, t)) <==> s.v.dispatch == Some(t))
    && (forall t: nat {:trigger At(s, t)} :: Unbinds(At(s, t)) <==> s.v.unbinding == Some(t))
  }

  predicate Settled(q: Port)
  {
    if q.bound then q.consumer == Tty && q.data.Terminal? && q.live == {q.data.id} && q.data.id < q.next
    else q.consumer == Nobody && q.data == NoData && q.live == {}
  }

  /** The shared fields while an unbind runs. */
  predicate UnbindShape(q: Port, p: Pc)
  {
    && q.bound && q.data.Terminal? && q.data.id < q.next
    && match p
       case UnbindRun(_) => q.consumer == Tty && q.live == {q.data.id}
       case UnbindAsk(_, id) => q.consumer == Tty && q.live == {id} && q.data.id == id
       case UnbindDetach(_, id) => q.consumer == Tty && q.live == {id} && q.data.id == id
       case UnbindRemove(_, id) => q.consumer == Nobody && q.live == {id}
       case UnbindAgain(f, ok) => if ok then q.consumer == Nobody && q.live == {} else !f && q.consumer == Tty && q.live == {q.data.id}
       case UnbindFinish(f, ok) => if ok then q.consumer == Nobody && q.live == {} else !f && q.consumer == Tty && q.live == {q.data.id}
       case _ => false
  }

  /** A thread that has the lock and has changed nothing yet. */
  predicate Checking(p: Pc)
  {
    p.BindCheck? || p.UnbindCheck? || p.SwapCheck? || p.RemoveShut?
  }

  /** The shared fields while the thread with the lock changes them. */
  predicate LockedShape(q: Port, t: nat, p: Pc)
  {
    match p
    case BindMake => !q.bound && Settled(q)
    case BindData(id) => !q.bound && q.consumer == Nobody && q.data == NoData && q.live == {id} && id < q.next
    case BindAdd(id) => !q.bound && q.consumer == Nobody && q.data == Terminal(id) && q.live == {id} && id < q.next
    case BindUndo(id) => !q.bound && q.consumer == Nobody && q.data == Terminal(id) && q.live == {id} && id < q.next
    case BindFree(id) => !q.bound && q.consumer == Nobody && q.data == NoData && q.live == {id}
    case BindDispatch(id) => !q.bound && q.consumer == Nobody && q.data == Terminal(id) && q.live == {id} && id < q.next
    case BindRecord(id) => !q.bound && q.consumer == Tty && q.data == Terminal(id) && q.live == {id} && id < q.next
    case UnbindDispatch(_) => q.bound && q.consumer == Nobody && q.data.Terminal? && q.live == {}
    case UnbindForget(_) => q.bound && q.consumer == Nobody && q.data.Terminal? && q.live == {}
    case SwapData(_) => !q.bound && Settled(q)
    case SwapDispatch(_) => !q.bound && q.consumer == Nobody && q.data == Frame(t) && q.live == {}
    case Swapping(_) => !q.bound && q.consumer == Exchange && q.data == Frame(t) && q.live == {}
    case SwapClear(_) => !q.bound && q.consumer == Nobody && q.data == Frame(t) && q.live == {}
    case SwapLeave(_) => !q.bound && Settled(q)
    case _ => Checking(p) && Settled(q)
  }

  /** up is where the unbind is that runs, lp where the thread with the lock is. */
  predicate Shaped(v: Shared, up: Pc, lp: Pc)
  {
    if v.unbinding.Some? then
      && UnbindShape(v.port, up)
      && (v.lock.Some? && v.lock != v.unbinding ==> Checking(lp) && !lp.RemoveShut?)
    else if v.lock.Some? then LockedShape(v.port, v.lock.value, lp)
    else Settled(v.port)
  }

  function Holder(s: State, owner: Option<nat>): Pc
  {
    if owner.Some? then At(s, owner.value) else Idle
  }

  predicate Shape(s: State)
  {
    Shaped(s.v, Holder(s, s.v.unbinding), Holder(s, s.v.lock))
  }

  /** A removal, once it has said so. */
  predicate Removing(p: Pc)
  {
    || p.RemoveLook? || p.RemoveTrigger? || PastUnbinding(p)
    || ((p.UnbindWait? || p.UnbindCheck? || p.UnbindDispatch? || p.UnbindForget? || Unbinds(p)) && p.force)
  }

  /** What a thread's place says about the shared fields. */
  predicate Noted(v: Shared, p: Pc)
  {
    && (Removing(p) ==> v.removed)
    && (PastUnbinding(p) ==> v.ended)
    && (p.RemoveDone? ==> !v.started)
    && (p.Received? || p.RemoveTrigger? ==> p.consumer == v.port.consumer)
  }

  predicate EndedFor(v: Shared, lp: Pc)
  {
    v.ended ==> Closed(v) && (v.lock.Some? ==> Checking(lp))
  }

  ghost predicate Notes(s: State)
  {
    (forall t: nat {:trigger At(s, t)} :: Noted(s.v, At(s, t))) && EndedFor(s.v, Holder(s, s.v.lock))
  }

  ghost predicate Inv(s: State)
  {
    Owners(s) && Shape(s) && Notes(s)
  }

  /** Only the thread itself takes, gives back or keeps a lock. */
  predicate Passed(a: Option<nat>, b: Option<nat>, t: nat)
  {
    a == b || ((a.None? || a == Some(t)) && (b.None? || b == Some(t)))
  }

  predicate OwnsAll(v: Shared, t: nat, p: Pc)
  {
    (HasLock(p) <==> v.lock == Some(t)) && (HasDispatch(p) <==> v.dispatch == Some(t)) && (Unbinds(p) <==> v.unbinding == Some(t))
  }

  /** All that holds of a thread and the shared fields before its step. */
  predicate Before(v: Shared, t: nat, p: Pc, up: Pc, lp: Pc)
  {
    && OwnsAll(v, t, p) && Ready(v, p) && Shaped(v, up, lp) && Noted(v, p) && EndedFor(v, lp)
    && (v.unbinding == Some(t) ==> up == p) && (v.lock == Some(t) ==> lp == p)
  }

  predicate OwnsStill(v: Shared, t: nat, n: Next)
  {
    OwnsAll(n.v, t, n.p) && Passed(v.lock, n.v.lock, t) && Passed(v.dispatch, n.v.dispatch, t) && Passed(v.unbinding, n.v.unbinding, t)
  }

  predicate ShapedStill(t: nat, n: Next, up: Pc, lp: Pc)
  {
    Shaped(n.v, if n.v.unbinding == Some(t) then n.p else up, if n.v.lock == Some(t) then n.p else lp)
  }

  /** ... with what the other threads rely on. */
  predicate NotedStill(v: Shared, t: nat, n: Next, lp: Pc)
  {
    && Noted(n.v, n.p) && EndedFor(n.v, if n.v.lock == Some(t) then n.p else lp)
    && (v.removed ==> n.v.removed) && (v.ended ==> n.v.ended) && (v.ended && !v.started ==> !n.v.started)
    && (n.v.port.consumer != v.port.consumer ==> v.dispatch.None?)
  }

  lemma BindOwns(v: Shared, t: nat, p: Pc, go: bool)
    requires OwnsAll(v, t, p) && Ready(v, p) && InBind(p)
    ensures OwnsStill(v, t, BindStep(v, t, p, go))
  {
  }

  lemma BindShaped(v: Shared, t: nat, p: Pc, go: bool, up: Pc, lp: Pc)
    requires Before(v, t, p, up, lp) && InBind(p)
    ensures ShapedStill(t, BindStep(v, t, p, go), up, lp)
  {
    if v.unbinding.None? && HasLock(p) {
      BindAlone(v, t, p, go);
    } else {
      hide LockedShape, UnbindShape, Settled, Noted, EndedFor;
    }
  }

  lemma BindAlone(v: Shared, t: nat, p: Pc, go: bool)
    requires InBind(p) && HasLock(p) && v.lock == Some(t) && v.unbinding.None? && LockedShape(v.port, t, p)
    ensures var n := BindStep(v, t, p, go); if n.v.lock.None? then Settled(n.v.port) else LockedShape(n.v.port, t, n.p)
    ensures BindStep(v, t, p, go).v.unbinding.None? && Passed(v.lock, BindStep(v, t, p, go).v.lock, t)
  {
  }

  lemma BindNoted(v: Shared, t: nat, p: Pc, go: bool, up: Pc, lp: Pc)
    requires Before(v, t, p, up, lp) && InBind(p)
    ensures NotedStill(v, t, BindStep(v, t, p, go), lp)
  {
    hide UnbindShape, Settled;
  }

  lemma UnbindOwns(v: Shared, t: nat, p: Pc, go: bool)
    requires OwnsAll(v, t, p) && Ready(v, p) && InUnbind(p)
    ensures OwnsStill(v, t, UnbindStep(v, t, p, go))
  {
  }

  lemma UnbindShaped(v: Shared, t: nat, p: Pc, go: bool, up: Pc, lp: Pc)
    requires Before(v, t, p, up, lp) && InUnbind(p)
    ensures ShapedStill(t, UnbindStep(v, t, p, go), up, lp)
  {
    if Unbinds(p) {
      UnbindRuns(v, t, p, go);
    } else if p.UnbindDispatch? || p.UnbindForget? {
      hide UnbindShape, Noted, EndedFor;
    } else {
      hide LockedShape, Noted, EndedFor;
    }
  }

  lemma UnbindRuns(v: Shared, t: nat, p: Pc, go: bool)
    requires Unbinds(p) && OwnsAll(v, t, p) && UnbindShape(v.port, p)
    ensures var n := UnbindStep(v, t, p, go);
            if n.v.unbinding == v.unbinding then UnbindShape(n.v.port, n.p)
            else p.UnbindFinish? && if n.v.lock.None? then Settled(n.v.port) else LockedShape(n.v.port, t, n.p)
  {
  }

  lemma UnbindNoted(v: Shared, t: nat, p: Pc, go: bool, up: Pc, lp: Pc)
    requires Before(v, t, p, up, lp) && InUnbind(p)
    ensures NotedStill(v, t, UnbindStep(v, t, p, go), lp)
  {
    hide UnbindShape;
  }

  lemma SwapOwns(v: Shared, t: nat, p: Pc, go: bool)
    requires OwnsAll(v, t, p) && Ready(v, p) && InSwap(p)
    ensures OwnsStill(v, t, SwapStep(v, t, p, go))
  {
  }

  lemma SwapShaped(v: Shared, t: nat, p: Pc, go: bool, up: Pc, lp: Pc)
    requires Before(v, t, p, up, lp) && InSwap(p)
    ensures ShapedStill(t, SwapStep(v, t, p, go), up, lp)
  {
    if v.unbinding.None? && HasLock(p) {
      SwapAlone(v, t, p, go);
    } else {
      hide LockedShape, UnbindShape, Settled, Noted, EndedFor;
    }
  }

  lemma SwapAlone(v: Shared, t: nat, p: Pc, go: bool)
    requires InSwap(p) && HasLock(p) && v.lock == Some(t) && v.unbinding.None? && LockedShape(v.port, t, p)
    ensures var n := SwapStep(v, t, p, go); if n.v.lock.None? then Settled(n.v.port) else LockedShape(n.v.port, t, n.p)
    ensures SwapStep(v, t, p, go).v.unbinding.None? && Passed(v.lock, SwapStep(v, t, p, go).v.lock, t)
  {
    hide LockedShape, Settled, SwapStep;
    SwapLock(v, t, p, go);
    if p.SwapCheck? || p.SwapLeave? {
      SwapEnds(v, t, p, go);
    } else {
      SwapMiddle(v, t, p, go);
    }
  }

  lemma SwapLock(v: Shared, t: nat, p: Pc, go: bool)
    requires InSwap(p) && HasLock(p) && v.lock == Some(t) && v.unbinding.None?
    ensures var n := SwapStep(v, t, p, go); n.v.unbinding.None? && Passed(v.lock, n.v.lock, t)
  {
  }

  lemma SwapEnds(v: Shared, t: nat, p: Pc, go: bool)
    requires (p.SwapCheck? || p.SwapLeave?) && v.lock == Some(t) && v.unbinding.None? && LockedShape(v.port, t, p)
    ensures var n := SwapStep(v, t, p, go); if n.v.lock.None? then Settled(n.v.port) else LockedShape(n.v.port, t, n.p)
  {
    hide HasLock;
  }

  lemma SwapMiddle(v: Shared, t: nat, p: Pc, go: bool)
    requires (p.SwapData? || p.SwapDispatch? || p.Swapping? || p.SwapClear?) && v.lock == Some(t) && LockedShape(v.port, t, p)
    ensures var n := SwapStep(v, t, p, go); n.v.lock == v.lock && LockedShape(n.v.port, t, n.p)
  {
    hide HasLock;
  }

  lemma SwapNoted(v: Shared, t: nat, p: Pc, go: bool, up: Pc, lp: Pc)
    requires Before(v, t, p, up, lp) && InSwap(p)
    ensures NotedStill(v, t, SwapStep(v, t, p, go), lp)
  {
    hide UnbindShape, Settled;
  }

  lemma RemoveOwns(v: Shared, t: nat, p: Pc, go: bool)
    requires OwnsAll(v, t, p) && Ready(v, p) && !InBind(p) && !InUnbind(p) && !InSwap(p)
    ensures OwnsStill(v, t, RemoveStep(v, t, p, go))
  {
  }

  lemma RemoveShaped(v: Shared, t: nat, p: Pc, go: bool, up: Pc, lp: Pc)
    requires Before(v, t, p, up, lp) && !InBind(p) && !InUnbind(p) && !InSwap(p)
    ensures ShapedStill(t, RemoveStep(v, t, p, go), up, lp)
  {
    if p.RemoveLock? || p.RemoveShut? {
      hide UnbindShape, HasDispatch, Unbinds;
    } else {
      hide LockedShape, UnbindShape, Settled, Noted, EndedFor;
    }
  }

  lemma RemoveNoted(v: Shared, t: nat, p: Pc, go: bool, up: Pc, lp: Pc)
    requires Before(v, t, p, up, lp) && !InBind(p) && !InUnbind(p) && !InSwap(p)
    ensures NotedStill(v, t, RemoveStep(v, t, p, go), lp)
  {
  }

  lemma Moves(v: Shared, t: nat, p: Pc, go: bool, up: Pc, lp: Pc)
    requires Before(v, t, p, up, lp)
    ensures var n := Advance(v, t, p, go); OwnsStill(v, t, n) && ShapedStill(t, n, up, lp) && NotedStill(v, t, n, lp)
  {
    if InBind(p) {
      BindOwns(v, t, p, go);
      BindShaped(v, t, p, go, up, lp);
      BindNoted(v, t, p, go, up, lp);
    } else if InUnbind(p) {
      UnbindOwns(v, t, p, go);
      UnbindShaped(v, t, p, go, up, lp);
      UnbindNoted(v, t, p, go, up, lp);
    } else if InSwap(p) {
      SwapOwns(v, t, p, go);
      SwapShaped(v, t, p, go, up, lp);
      SwapNoted(v, t, p, go, up, lp);
    } else {
      RemoveOwns(v, t, p, go);
      RemoveShaped(v, t, p, go, up, lp);
      RemoveNoted(v, t, p, go, up, lp);
    }
  }

  predicate Neutral(p: Pc)
  {
    && !HasLock(p) && !HasDispatch(p) && !Unbinds(p) && !Removing(p) && !PastUnbinding(p)
    && !p.RemoveDone? && !p.Received? && !p.RemoveTrigger?
  }

  lemma Entry(v: Shared, op: Op)
    ensures Neutral(Begin(v, op).p) && Neutral(Idle)
    ensures Begin(v, op).v == v.(started := Begin(v, op).v.started) && (v.removed && !v.started ==> !Begin(v, op).v.started)
  {
  }

  lemma Calls(v: Shared, t: nat, op: Op, up: Pc, lp: Pc)
    requires OwnsAll(v, t, Idle) && Shaped(v, up, lp) && EndedFor(v, lp)
    ensures var n := Begin(v, op); OwnsStill(v, t, n) && ShapedStill(t, n, up, lp) && NotedStill(v, t, n, lp)
  {
    hide UnbindShape, LockedShape, Settled, HasLock, HasDispatch, Unbinds, Removing, PastUnbinding, Checking, Begin;
    Entry(v, op);
  }

  lemma TakenMoves(s: State, e: Event)
    requires Inv(s) && Enabled(s, e)
    ensures var n, up, lp := Taken(s, e), Holder(s, s.v.unbinding), Holder(s, s.v.lock);
            OwnsStill(s.v, e.t, n) && ShapedStill(e.t, n, up, lp) && NotedStill(s.v, e.t, n, lp)
  {
    hide HasLock, HasDispatch, Unbinds, Shaped, Checking, Removing, PastUnbinding, Advance, Begin, EndedFor, Ready;
    hide OwnsStill, ShapedStill, NotedStill;
    var t, up, lp := e.t, Holder(s, s.v.unbinding), Holder(s, s.v.lock);
    assert OwnsAll(s.v, t, At(s, t)) && Noted(s.v, At(s, t));
    match e {
      case Call(_, op) => Calls(s.v, t, op, up, lp);
      case Go(_, go) => Moves(s.v, t, At(s, t), go, up, lp);
    }
  }

  lemma NoHolder(v: Shared, up: Pc, lp: Pc)
    ensures v.lock.None? ==> Shaped(v, up, lp) == Shaped(v, up, Idle) && EndedFor(v, lp) == EndedFor(v, Idle)
    ensures v.unbinding.None? ==> Shaped(v, up, lp) == Shaped(v, Idle, lp)
  {
  }

  lemma StepKeeps(s: State, e: Event)
    requires Inv(s) && Enabled(s, e)
    ensures Inv(Step(s, e))
  {
    hide HasLock, HasDispatch, Unbinds, At, Taken, Enabled, Shaped, Checking, Removing, PastUnbinding, EndedFor, Noted, Step;
    TakenMoves(s, e);
    var t, s' := e.t, Step(s, e);
    var up := if s'.v.unbinding == Some(t) then At(s', t) else Holder(s, s.v.unbinding);
    var lp := if s'.v.lock == Some(t) then At(s', t) else Holder(s, s.v.lock);
    NoHolder(s'.v, up, lp);
    NoHolder(s'.v, up, Idle);
    assert Shaped(s'.v, up, lp) && EndedFor(s'.v, lp);
    forall u: nat ensures OwnsAll(s'.v, u, At(s', u)) && Noted(s'.v, At(s', u)) {
      if u != t {
        assert OwnsAll(s.v, u, At(s, u)) && Noted(s.v, At(s, u));
        Others(s.v, t, Taken(s, e), Holder(s, s.v.lock), u, At(s, u));
      }
    }
    forall u: nat ensures HasLock(At(s', u)) <==> s'.v.lock == Some(u) { assert OwnsAll(s'.v, u, At(s', u)); }
    forall u: nat ensures HasDispatch(At(s', u)) <==> s'.v.dispatch == Some(u) { assert OwnsAll(s'.v, u, At(s', u)); }
    forall u: nat ensures Unbinds(At(s', u)) <==> s'.v.unbinding == Some(u) { assert OwnsAll(s'.v, u, At(s', u)); }
  }

  /** A step of one thread takes nothing from another. */
  lemma Others(v: Shared, t: nat, n: Next, lp: Pc, u: nat, p: Pc)
    requires OwnsStill(v, t, n) && NotedStill(v, t, n, lp) && u != t && OwnsAll(v, u, p) && Noted(v, p)
    ensures OwnsAll(n.v, u, p) && Noted(n.v, p)
  {
  }

  lemma {:induction false} RunKeeps(s: State, run: seq<Event>)
    requires Start(s) && Legal(s, run)
    ensures Inv(After(s, run))
  {
    if run != [] {
      RunKeeps(s, run[..|run| - 1]);
      StepKeeps(After(s, run[..|run| - 1]), run[|run| - 1]);
    }
  }

  // ---------------------------------------------------------------------------------------------
  // Theorems, of every run

  /** Whoever dispatches, triggers an exchange or unbinds finds live data of the kind it expects. */
  lemma AlwaysSafe(s: State, run: seq<Event>, t: nat)
    requires Start(s) && Legal(s, run)
    ensures Safe(After(s, run), t)
  {
    RunKeeps(s, run);
    SafeNow(After(s, run), t);
  }

  lemma SafeNow(s: State, t: nat)
    requires Inv(s)
    ensures Safe(s, t) && Serves(s, s.v.port.consumer)
  {
    assert OwnsAll(s.v, t, At(s, t)) && Noted(s.v, At(s, t));
    if s.v.lock.Some? { assert OwnsAll(s.v, s.v.lock.value, At(s, s.v.lock.value)); }
  }

  /** At most one terminal exists, and never beside an exchange. */
  lemma AtMostOne(s: State, run: seq<Event>)
    requires Start(s) && Legal(s, run)
    ensures var q := After(s, run).v.port;
            OneAtMost(q)
  {
    hide Owners, Notes, After, Legal, Shaped, At;
    RunKeeps(s, run);
    var now := After(s, run);
    OneLive(now.v, Holder(now, now.v.unbinding), Holder(now, now.v.lock));
  }

  predicate OneAtMost(q: Port)
  {
    && (forall a, b | a in q.live && b in q.live :: a == b)
    && (q.consumer == Exchange ==> q.live == {} && !q.bound)
  }

  lemma OneLive(v: Shared, up: Pc, lp: Pc)
    requires Shaped(v, up, lp)
    ensures OneAtMost(v.port)
  {
    hide UnbindShape, LockedShape, Settled, OneAtMost;
    if v.unbinding.Some? {
      OneUnbinding(v.port, up);
    } else if v.lock.Some? {
      OneLocked(v.port, v.lock.value, lp);
    } else {
      OneSettled(v.port);
    }
  }

  lemma OneUnbinding(q: Port, p: Pc)
    requires UnbindShape(q, p)
    ensures OneAtMost(q)
  {
  }

  lemma OneLocked(q: Port, t: nat, p: Pc)
    requires LockedShape(q, t, p)
    ensures OneAtMost(q)
  {
  }

  lemma OneSettled(q: Port)
    requires Settled(q)
    ensures OneAtMost(q)
  {
  }

  /** Once a removal's unbind loop ends nothing is bound; whatever runs after it, nothing ever is again. */
  lemma ClosedForGood(s: State, run: seq<Event>, more: seq<Event>, t: nat)
    requires Start(s) && Legal(s, run) && Legal(After(s, run), more) && PastUnbinding(At(After(s, run), t))
    ensures Closed(After(After(s, run), more).v)
    ensures At(After(s, run), t).RemoveDone? ==> !After(After(s, run), more).v.started
  {
    RunKeeps(s, run);
    StaysClosed(After(s, run), more, t);
  }

  lemma {:induction false} StaysClosed(s: State, more: seq<Event>, t: nat)
    requires Inv(s) && PastUnbinding(At(s, t)) && Legal(s, more)
    ensures Inv(After(s, more)) && PastUnbinding(At(After(s, more), t)) && Closed(After(s, more).v)
    ensures At(s, t).RemoveDone? ==> At(After(s, more), t).RemoveDone? && !After(s, more).v.started
  {
    hide Owners, Shape, Step, Enabled;
    if more == [] {
      assert Noted(s.v, At(s, t));
    } else {
      var init, last := more[..|more| - 1], more[|more| - 1];
      StaysClosed(s, init, t);
      StepKeeps(After(s, init), last);
      PastStays(After(s, init), last, t);
      assert Noted(After(s, more).v, At(After(s, more), t));
    }
  }

  lemma PastStays(s: State, e: Event, t: nat)
    requires Enabled(s, e) && PastUnbinding(At(s, t))
    ensures PastUnbinding(At(Step(s, e), t)) && (At(s, t).RemoveDone? ==> At(Step(s, e), t).RemoveDone?)
  {
  }

  // ---------------------------------------------------------------------------------------------
  // What a thread gets done that nobody gets in the way of, with everything it asks for granted

  /** Where so many steps of thread t lead. */
  function Drive(v: Shared, t: nat, p: Pc, n: nat): Next
  {
    if n == 0 then Next(p, v) else var x := Drive(v, t, p, n - 1); Advance(x.v, t, x.p, true)
  }

  predicate Drives(v: Shared, t: nat, p: Pc, n: nat)
  {
    n == 0 || (Drives(v, t, p, n - 1) && Ready(Drive(v, t, p, n - 1).v, Drive(v, t, p, n - 1).p))
  }

  /** A call and so many steps. */
  function Alone(t: nat, op: Op, n: nat): seq<Event>
  {
    if n == 0 then [Call(t, op)] else Alone(t, op, n - 1) + [Go(t, true)]
  }

  lemma {:induction false} AloneDrives(s: State, t: nat, op: Op, n: nat)
    requires Enabled(s, Call(t, op)) && Drives(Begin(s.v, op).v, t, Begin(s.v, op).p, n)
    ensures Legal(s, Alone(t, op, n))
    ensures var r, x := After(s, Alone(t, op, n)), Drive(Begin(s.v, op).v, t, Begin(s.v, op).p, n); r.v == x.v && At(r, t) == x.p
  {
    hide Advance, Begin, Ready;
    var run := Alone(t, op, n);
    if n == 0 {
      assert run[..0] == [] && Legal(s, []) && After(s, []) == s;
    } else {
      AloneDrives(s, t, op, n - 1);
      assert run[..|run| - 1] == Alone(t, op, n - 1);
    }
  }

  lemma OneFurther(v: Shared, t: nat, p: Pc, n: nat, x: Next)
    requires Drives(v, t, p, n) && Drive(v, t, p, n) == x && Ready(x.v, x.p)
    ensures Drives(v, t, p, n + 1) && Drive(v, t, p, n + 1) == Advance(x.v, t, x.p, true)
  {
    hide Advance, Ready;
  }

  lemma BindFurther(v: Shared, t: nat, p: Pc, n: nat, x: Next)
    requires Drives(v, t, p, n) && Drive(v, t, p, n) == x && Ready(x.v, x.p) && InBind(x.p)
    ensures Drives(v, t, p, n + 1) && Drive(v, t, p, n + 1) == BindStep(x.v, t, x.p, true)
  {
    hide Drive, Drives, Ready, BindStep, UnbindStep, SwapStep, RemoveStep;
    OneFurther(v, t, p, n, x);
  }

  lemma UnbindFurther(v: Shared, t: nat, p: Pc, n: nat, x: Next)
    requires Drives(v, t, p, n) && Drive(v, t, p, n) == x && Ready(x.v, x.p) && InUnbind(x.p)
    ensures Drives(v, t, p, n + 1) && Drive(v, t, p, n + 1) == UnbindStep(x.v, t, x.p, true)
  {
    hide Drive, Drives, Ready, BindStep, UnbindStep, SwapStep, RemoveStep;
    OneFurther(v, t, p, n, x);
  }

  lemma SwapFurther(v: Shared, t: nat, p: Pc, n: nat, x: Next)
    requires Drives(v, t, p, n) && Drive(v, t, p, n) == x && Ready(x.v, x.p) && InSwap(x.p)
    ensures Drives(v, t, p, n + 1) && Drive(v, t, p, n + 1) == SwapStep(x.v, t, x.p, true)
  {
    hide Drive, Drives, Ready, BindStep, UnbindStep, SwapStep, RemoveStep;
    OneFurther(v, t, p, n, x);
  }

  lemma NotFurther(v: Shared, t: nat, p: Pc)
    ensures Drives(v, t, p, 0) && Drive(v, t, p, 0) == Next(p, v)
  {
  }

  predicate Quiet(v: Shared) { v.lock.None? && v.dispatch.None? && v.unbinding.None? }

  /** A bind on a port that is there and has no consumer ends with a terminal of its own bound and dispatched to. */
  lemma LoneBind(s: State, t: nat)
    requires At(s, t).Idle? && Quiet(s.v) && !s.v.removed && s.v.port.consumer == Nobody
    ensures Legal(s, Alone(t, Bind, 7))
    ensures var r, id := After(s, Alone(t, Bind, 7)), s.v.port.next;
            && At(r, t).Idle? && Quiet(r.v)
            && r.v.port == s.v.port.(consumer := Tty, data := Terminal(id), bound := true, live := s.v.port.live + {id}, next := id + 1)
  {
    hide Drive, Drives, Legal, After, Alone, At, Advance;
    var v, p := s.v, BindWait;
    NotFurther(v, t, p);
    var x0 := Next(p, v);
    BindFurther(v, t, p, 0, x0);
    var x1 := BindStep(x0.v, t, x0.p, true);
    BindFurther(v, t, p, 1, x1);
    var x2 := BindStep(x1.v, t, x1.p, true);
    BindFurther(v, t, p, 2, x2);
    var x3 := BindStep(x2.v, t, x2.p, true);
    BindFurther(v, t, p, 3, x3);
    var x4 := BindStep(x3.v, t, x3.p, true);
    BindFurther(v, t, p, 4, x4);
    var x5 := BindStep(x4.v, t, x4.p, true);
    BindFurther(v, t, p, 5, x5);
    var x6 := BindStep(x5.v, t, x5.p, true);
    BindFurther(v, t, p, 6, x6);
    AloneDrives(s, t, Bind, 7);
  }

  /** An interrupt then reaches the consumer that is in place. */
  lemma LoneReceive(s: State, t: nat)
    requires At(s, t).Idle? && s.v.dispatch.None?
    ensures Legal(s, Alone(t, Receive, 1)) && At(After(s, Alone(t, Receive, 1)), t) == Received(s.v.port.consumer)
  {
    OneFurther(s.v, t, ReceiveLock, 0, Next(ReceiveLock, s.v));
    AloneDrives(s, t, Receive, 1);
  }

  /** Steps of an exchange, from one of its places to the next, and of an unbind. */
  lemma SwapFrom(v: Shared, t: nat, p: Pc, n: nat, x: Next, y: Next)
    requires Drives(v, t, p, n) && Drive(v, t, p, n) == x && Ready(x.v, x.p) && InSwap(x.p) && SwapStep(x.v, t, x.p, true) == y
    ensures Drives(v, t, p, n + 1) && Drive(v, t, p, n + 1) == y
  {
    hide Drive, Drives, Ready, SwapStep, InSwap;
    SwapFurther(v, t, p, n, x);
  }

  lemma UnbindFrom(v: Shared, t: nat, p: Pc, n: nat, x: Next, y: Next)
    requires Drives(v, t, p, n) && Drive(v, t, p, n) == x && Ready(x.v, x.p) && InUnbind(x.p) && UnbindStep(x.v, t, x.p, true) == y
    ensures Drives(v, t, p, n + 1) && Drive(v, t, p, n + 1) == y
  {
    hide Drive, Drives, Ready, UnbindStep, InUnbind;
    UnbindFurther(v, t, p, n, x);
  }

  /** The port while thread t exchanges on it. */
  function Swapped(v: Shared, t: nat): Shared
  {
    v.(lock := Some(t), started := true, port := v.port.(consumer := Exchange, data := Frame(t)))
  }

  lemma SwapBegins(v: Shared, t: nat)
    requires Quiet(v) && !v.removed && v.port.consumer == Nobody && v.port.data == NoData
    ensures Drives(v, t, SwapWait, 4) && Drive(v, t, SwapWait, 4) == Next(Swapping(v.started), Swapped(v, t))
  {
    hide Drive, Drives;
    var locked := v.(lock := Some(t));
    var begun := locked.(started := true);
    var framed := begun.(port := v.port.(data := Frame(t)));
    NotFurther(v, t, SwapWait);
    SwapFrom(v, t, SwapWait, 0, Next(SwapWait, v), Next(SwapCheck, locked));
    SwapFrom(v, t, SwapWait, 1, Next(SwapCheck, locked), Next(SwapData(v.started), begun));
    SwapFrom(v, t, SwapWait, 2, Next(SwapData(v.started), begun), Next(SwapDispatch(v.started), framed));
    SwapFrom(v, t, SwapWait, 3, Next(SwapDispatch(v.started), framed), Next(Swapping(v.started), Swapped(v, t)));
  }

  lemma SwapReturns(v: Shared, t: nat)
    requires Quiet(v) && !v.removed && v.port.consumer == Nobody && v.port.data == NoData
    ensures Drives(v, t, SwapWait, 7) && Drive(v, t, SwapWait, 7) == Next(Idle, v)
  {
    hide Drive, Drives;
    SwapBegins(v, t);
    var over := Swapped(v, t);
    var quiet := over.(port := over.port.(consumer := Nobody));
    var clear := quiet.(port := v.port);
    SwapFrom(v, t, SwapWait, 4, Next(Swapping(v.started), over), Next(SwapClear(v.started), quiet));
    SwapFrom(v, t, SwapWait, 5, Next(SwapClear(v.started), quiet), Next(SwapLeave(v.started), clear));
    SwapFrom(v, t, SwapWait, 6, Next(SwapLeave(v.started), clear), Next(Idle, v));
  }

  /** An exchange on such a port gets its turn, and leaves the port as it was. */
  lemma LoneSwap(s: State, t: nat)
    requires At(s, t).Idle? && Quiet(s.v) && !s.v.removed && s.v.port.consumer == Nobody && s.v.port.data == NoData
    ensures Legal(s, Alone(t, Swap, 4)) && At(After(s, Alone(t, Swap, 4)), t).Swapping?
    ensures After(s, Alone(t, Swap, 4)).v.port.consumer == Exchange
    ensures Legal(s, Alone(t, Swap, 7)) && After(s, Alone(t, Swap, 7)).v == s.v && At(After(s, Alone(t, Swap, 7)), t).Idle?
  {
    hide Drive, Drives, Legal, After, Alone, At;
    SwapBegins(s.v, t);
    SwapReturns(s.v, t);
    AloneDrives(s, t, Swap, 4);
    AloneDrives(s, t, Swap, 7);
  }

  lemma UnbindBegins(v: Shared, t: nat, f: bool, id: nat)
    requires Quiet(v) && v.port.bound && v.port.data == Terminal(id)
    ensures Drives(v, t, UnbindWait(f), 6)
    ensures Drive(v, t, UnbindWait(f), 6) ==
              Next(UnbindAgain(f, true), v.(unbinding := Some(t), port := v.port.(consumer := Nobody, live := v.port.live - {id})))
  {
    hide Drive, Drives;
    var p := UnbindWait(f);
    var locked, flagged := v.(lock := Some(t)), v.(unbinding := Some(t));
    var detached := flagged.(port := v.port.(consumer := Nobody));
    var freed := flagged.(port := v.port.(consumer := Nobody, live := v.port.live - {id}));
    NotFurther(v, t, p);
    UnbindFrom(v, t, p, 0, Next(p, v), Next(UnbindCheck(f), locked));
    UnbindFrom(v, t, p, 1, Next(UnbindCheck(f), locked), Next(UnbindRun(f), flagged));
    UnbindFrom(v, t, p, 2, Next(UnbindRun(f), flagged), Next(UnbindAsk(f, id), flagged));
    UnbindFrom(v, t, p, 3, Next(UnbindAsk(f, id), flagged), Next(UnbindDetach(f, id), flagged));
    UnbindFrom(v, t, p, 4, Next(UnbindDetach(f, id), flagged), Next(UnbindRemove(f, id), detached));
    UnbindFrom(v, t, p, 5, Next(UnbindRemove(f, id), detached), Next(UnbindAgain(f, true), freed));
  }

  lemma UnbindReturns(v: Shared, t: nat, f: bool, id: nat)
    requires Quiet(v) && v.port.bound && v.port.data == Terminal(id)
    ensures Drives(v, t, UnbindWait(f), 10)
    ensures Drive(v, t, UnbindWait(f), 10) ==
              Next(AfterUnbind(f, false),
                   v.(port := v.port.(consumer := Nobody, data := NoData, bound := false, live := v.port.live - {id}),
                      started := false, ended := v.ended || f))
  {
    hide Drive, Drives;
    var p := UnbindWait(f);
    UnbindBegins(v, t, f, id);
    var freed := v.(unbinding := Some(t), port := v.port.(consumer := Nobody, live := v.port.live - {id}));
    var again := freed.(lock := Some(t));
    var down := again.(unbinding := None);
    var gone := v.(port := v.port.(consumer := Nobody, data := NoData, bound := false, live := v.port.live - {id}),
                   started := false, ended := v.ended || f);
    UnbindFrom(v, t, p, 6, Next(UnbindAgain(f, true), freed), Next(UnbindFinish(f, true), again));
    UnbindFrom(v, t, p, 7, Next(UnbindFinish(f, true), again), Next(UnbindDispatch(f), down));
    UnbindFrom(v, t, p, 8, Next(UnbindDispatch(f), down), Next(UnbindForget(f), down));
    UnbindFrom(v, t, p, 9, Next(UnbindForget(f), down), Next(AfterUnbind(f, false), gone));
  }

  /** An unbind that the terminal agrees to ends with nothing bound. */
  lemma LoneUnbind(s: State, t: nat, id: nat)
    requires At(s, t).Idle? && Quiet(s.v) && s.v.port.bound && s.v.port.data == Terminal(id)
    ensures Legal(s, Alone(t, Unbind, 10))
    ensures var r := After(s, Alone(t, Unbind, 10));
            && At(r, t).Idle? && Quiet(r.v)
            && r.v.port == s.v.port.(consumer := Nobody, data := NoData, bound := false, live := s.v.port.live - {id})
  {
    hide Drive, Drives, Legal, After, Alone, At;
    UnbindReturns(s.v, t, false, id);
    AloneDrives(s, t, Unbind, 10);
  }

  lemma {:induction false} DriveOn(v: Shared, t: nat, p: Pc, m: nat, n: nat)
    requires Drives(v, t, p, m) && Drives(Drive(v, t, p, m).v, t, Drive(v, t, p, m).p, n)
    ensures Drives(v, t, p, m + n) && Drive(v, t, p, m + n) == Drive(Drive(v, t, p, m).v, t, Drive(v, t, p, m).p, n)
  {
    hide Advance, Ready;
    if n > 0 { DriveOn(v, t, p, m, n - 1); }
  }

  lemma RemoveFrom(v: Shared, t: nat, p: Pc, n: nat, x: Next, y: Next)
    requires Drives(v, t, p, n) && Drive(v, t, p, n) == x && Ready(x.v, x.p) && !InBind(x.p) && !InUnbind(x.p) && !InSwap(x.p)
    requires RemoveStep(x.v, t, x.p, true) == y
    ensures Drives(v, t, p, n + 1) && Drive(v, t, p, n + 1) == y
  {
    hide Drive, Drives, Ready, BindStep, UnbindStep, SwapStep, RemoveStep, InBind, InUnbind, InSwap;
    OneFurther(v, t, p, n, x);
  }

  lemma RemoveBegins(v: Shared, t: nat)
    requires Quiet(v)
    ensures Drives(v, t, RemoveStart, 3) && Drive(v, t, RemoveStart, 3) == Next(UnbindWait(true), v.(removed := true))
  {
    hide Drive, Drives;
    var said := v.(removed := true);
    var held := said.(dispatch := Some(t));
    NotFurther(v, t, RemoveStart);
    RemoveFrom(v, t, RemoveStart, 0, Next(RemoveStart, v), Next(RemoveLook, said));
    RemoveFrom(v, t, RemoveStart, 1, Next(RemoveLook, said), Next(RemoveTrigger(v.port.consumer), held));
    RemoveFrom(v, t, RemoveStart, 2, Next(RemoveTrigger(v.port.consumer), held), Next(UnbindWait(true), said));
  }

  lemma RemoveReturns(v: Shared, t: nat)
    requires Quiet(v)
    ensures Drives(v, t, RemoveLock, 2) && Drive(v, t, RemoveLock, 2) == Next(RemoveDone, v.(started := false))
  {
    hide Drive, Drives;
    var locked := v.(lock := Some(t));
    NotFurther(v, t, RemoveLock);
    RemoveFrom(v, t, RemoveLock, 0, Next(RemoveLock, v), Next(RemoveShut, locked));
    RemoveFrom(v, t, RemoveLock, 1, Next(RemoveShut, locked), Next(RemoveDone, v.(started := false)));
  }

  /** A removal takes a terminal down that is bound, whatever it would say, and ends with the port shut. */
  lemma LoneRemove(s: State, t: nat, id: nat)
    requires At(s, t).Idle? && Quiet(s.v) && s.v.port.bound && s.v.port.data == Terminal(id) && s.v.port.live == {id}
    ensures Legal(s, Alone(t, Remove, 15))
    ensures var r := After(s, Alone(t, Remove, 15)); At(r, t).RemoveDone? && Closed(r.v) && !r.v.started && Quiet(r.v)
  {
    hide Drive, Drives, Legal, After, Alone, At;
    RemoveBegins(s.v, t);
    var said := s.v.(removed := true);
    UnbindReturns(said, t, true, id);
    DriveOn(s.v, t, RemoveStart, 3, 10);
    var gone := Drive(said, t, UnbindWait(true), 10);
    RemoveReturns(gone.v, t);
    DriveOn(s.v, t, RemoveStart, 13, 2);
    AloneDrives(s, t, Remove, 15);
  }

  lemma UnbindAsked(v: Shared, t: nat, id: nat)
    requires Quiet(v) && v.port.bound && v.port.data == Terminal(id)
    ensures Drives(v, t, UnbindWait(false), 3)
    ensures Drive(v, t, UnbindWait(false), 3) == Next(UnbindAsk(false, id), v.(unbinding := Some(t)))
  {
    hide Drive, Drives;
    var p := UnbindWait(false);
    var locked, flagged := v.(lock := Some(t)), v.(unbinding := Some(t));
    NotFurther(v, t, p);
    UnbindFrom(v, t, p, 0, Next(p, v), Next(UnbindCheck(false), locked));
    UnbindFrom(v, t, p, 1, Next(UnbindCheck(false), locked), Next(UnbindRun(false), flagged));
    UnbindFrom(v, t, p, 2, Next(UnbindRun(false), flagged), Next(UnbindAsk(false, id), flagged));
  }

  lemma ThreeSteps(s: State, a: Event, b: Event, c: Event)
    requires Enabled(s, a) && Enabled(Step(s, a), b) && Enabled(Step(Step(s, a), b), c)
    ensures Legal(s, [a, b, c]) && After(s, [a, b, c]) == Step(Step(Step(s, a), b), c)
  {
    hide Step, Enabled;
    assert [a, b, c][..2] == [a, b] && [a, b][..1] == [a] && [a][..0] == [];
    assert Legal(s, []) && After(s, []) == s;
    assert Legal(s, [a]) && After(s, [a]) == Step(s, a);
    assert Legal(s, [a, b]) && After(s, [a, b]) == Step(Step(s, a), b);
  }

  lemma UnbindMoves(s: State, t: nat, go: bool, y: Next)
    requires Ready(s.v, At(s, t)) && InUnbind(At(s, t)) && UnbindStep(s.v, t, At(s, t), go) == y
    ensures Enabled(s, Go(t, go)) && At(Step(s, Go(t, go)), t) == y.p && Step(s, Go(t, go)).v == y.v
  {
    hide Ready, UnbindStep, BindStep, SwapStep, RemoveStep;
  }

  /** One that the terminal refuses, which nothing but a removal overrides, leaves the port as it was. */
  lemma LoneRefusal(s: State, t: nat, id: nat)
    requires At(s, t).Idle? && Quiet(s.v) && s.v.port.bound && s.v.port.data == Terminal(id)
    ensures var asked, refusal := Alone(t, Unbind, 3), [Go(t, false), Go(t, true), Go(t, true)];
            && Legal(s, asked) && Legal(After(s, asked), refusal)
            && var r := After(After(s, asked), refusal); At(r, t).Idle? && r.v == s.v
  {
    hide Drive, Drives, Legal, After, Alone, Step, At;
    UnbindAsked(s.v, t, id);
    AloneDrives(s, t, Unbind, 3);
    var q := After(s, Alone(t, Unbind, 3));
    UnbindMoves(q, t, false, Next(UnbindAgain(false, false), q.v));
    var q1 := Step(q, Go(t, false));
    UnbindMoves(q1, t, true, Next(UnbindFinish(false, false), q.v.(lock := Some(t))));
    var q2 := Step(q1, Go(t, true));
    UnbindMoves(q2, t, true, Next(Idle, s.v));
    ThreeSteps(q, Go(t, false), Go(t, true), Go(t, true));
  }

  /** A port is started and shut down on request, and no more once it is removed. */
  lemma LoneStart(s: State, t: nat)
    requires At(s, t).Idle? && s.v.lock.None?
    ensures Legal(s, [Call(t, StartUp)]) && Legal(s, [Call(t, ShutDown)])
    ensures After(s, [Call(t, StartUp)]).v == s.v.(started := s.v.started || !s.v.removed)
    ensures After(s, [Call(t, ShutDown)]).v == s.v.(started := s.v.started && s.v.removed)
  {
    assert [Call(t, StartUp)][..0] == [] && [Call(t, ShutDown)][..0] == [];
    assert Legal(s, []) && After(s, []) == s;
  }
}
