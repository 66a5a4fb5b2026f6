/** The console flush protocol: any number of harts append records and drain them to the consoles under a try-lock. */
module ConsoleFlush {
  import opened Wrappers

  /**
   * What a console has been given: a record, a record its level filters out, or a notice of records it missed. epoch is
   * history: how often the global level had been set by then.
   */
  datatype Event = Written(seqNo: nat, epoch: nat) | Filtered(seqNo: nat, epoch: nat) | Dropped(count: nat)

  /**
   * stranded is history: someone who came to flush found the lock with a hart at the list while this console was behind,
   * and no flush has begun since.
   */
  datatype Console = Console(
    start: nat,            // Where its cursor was placed when it was added
    cursor: nat,
    out: seq<Event>,
    canWrite: bool,
    released: bool,
    ownLevel: Option<nat>,
    stranded: bool)

  /** Where a hart is in flush_console. */
  datatype Phase =
    | Enter                                  // At the next console of the list
    | Reading(expected: nat)
    | Got(expected: nat, seqNo: nat)         // A record was read, nothing of it written yet

  datatype Pc =
    | Idle
    | TryLock
    | Load                                   // Holds the lock, about to note how many records there are
    | Flush(written: nat, index: nat, phase: Phase)
    | Release(written: nat)
    | Recheck(written: nat)
    | Listing                                // Holds the lock to look through or change the list
    | Listed                                 // Released it, about to log what it did

  /**
   * levels holds the level of every record ever appended. past and logged are history: the global levels there were before
   * this one, and the epoch each record was appended in.
   */
  datatype State = State(
    levels: seq<nat>,
    first: nat,
    loglevel: nat,
    past: seq<nat>,
    logged: seq<nat>,
    lock: Option<nat>,
    consoles: seq<Console>,
    pc: map<nat, Pc>)

  function Next(s: State): nat { |s.levels| }

  function PcOf(s: State, h: nat): Pc { if h in s.pc then s.pc[h] else Idle }

  function At(s: State, h: nat, p: Pc): State { s.(pc := s.pc[h := p]) }

  predicate Active(c: Console) { c.canWrite && !c.released }

  datatype Action =
    | Append(level: nat, first: nat)         // kprintf up to its console_flush; first is the oldest record left
    | Flush                                  // A bare console_flush
    | SetLevel(level: nat)
    | Go                                     // The next step of a flush
    | Lock                                   // Takes the lock for the list
    | Unlock                                 // Leaves the list as it is, and logs next
    | Remove(index: nat)                     // Takes a console off the list, and logs next
    | Add(console: Console)                  // Puts a console on the list, and flushes next
    | Free(target: Option<nat>)              // Hands a console over, or fails, and just lets go of the lock

  /** The record a read finds, if any: the one under the cursor, or the oldest if that one is gone. */
  function Found(s: State, cursor: nat): nat { if cursor < s.first then s.first else cursor }

  /** The global levels up to now, by epoch. */
  function Limits(s: State): seq<nat> { s.past + [s.loglevel] }

  predicate Shown(s: State, c: Console, seqNo: nat)
    requires seqNo < Next(s)
  {
    s.levels[seqNo] <= if c.ownLevel.Some? then c.ownLevel.value else s.loglevel
  }

  predicate Enabled(s: State, h: nat, a: Action)
  {
    match a
    case Append(_, first) => (PcOf(s, h).Idle? || PcOf(s, h).Listed?) && s.first <= first <= Next(s)
    case Flush => PcOf(s, h).Idle?
    case SetLevel(_) => true
    case Go => CanGo(s, h)
    case Lock => PcOf(s, h).Idle? && s.lock.None?
    case Unlock => PcOf(s, h).Listing?
    case Remove(i) => PcOf(s, h).Listing? && i < |s.consoles|
    case Add(c) =>
      PcOf(s, h).Listing? && c.start == c.cursor && (c.cursor == s.first || c.cursor == Next(s)) && c.out == [] && !c.stranded
    case Free(i) => PcOf(s, h).Listing? && (i.Some? ==> i.value < |s.consoles|)
  }

  predicate CanGo(s: State, h: nat)
  {
    match PcOf(s, h)
    case TryLock => true
    case Load => true
    case Flush(_, i, Enter) => i <= |s.consoles|
    case Flush(_, i, Reading(_)) => i < |s.consoles|
    case Flush(_, i, Got(e, k)) => i < |s.consoles| && e <= k < Next(s)
    case Release(_) => true
    case Recheck(_) => true
    case _ => false
  }

  function Step(s: State, h: nat, a: Action): State
    requires Enabled(s, h, a)
  {
    match a
    case Append(level, first) => At(s.(levels := s.levels + [level], logged := s.logged + [|s.past|], first := first), h, TryLock)
    case Flush => At(s, h, TryLock)
    case SetLevel(level) => s.(loglevel := level, past := Limits(s))
    case Go => GoStep(s, h)
    case Lock => At(s.(lock := Some(h)), h, Listing)
    case Unlock => At(s.(lock := None), h, Listed)
    case Remove(i) => At(s.(lock := None, consoles := s.consoles[..i] + s.consoles[i + 1..]), h, Listed)
    case Add(c) => At(s.(lock := None, consoles := [c] + s.consoles), h, TryLock)
    case Free(i) => At(s.(lock := None, consoles := Handed(s.consoles, i)), h, Idle)
  }

  /** The list with console i released to its driver. */
  function Handed(consoles: seq<Console>, i: Option<nat>): seq<Console>
    requires i.Some? ==> i.value < |consoles|
  {
    if i.None? then consoles else consoles[i.value := consoles[i.value].(released := true)]
  }

  /** History only: a flush begins. */
  function Reached(consoles: seq<Console>): (r: seq<Console>)
    ensures Alike(consoles, r) && forall i | 0 <= i < |r| :: !r[i].stranded
  {
    seq(|consoles|, i requires 0 <= i < |consoles| => consoles[i].(stranded := false))
  }

  /** History only: a flush does not begin, and the hart that holds the lock is not at one. */
  function Missed(consoles: seq<Console>, next: nat): (r: seq<Console>)
    ensures Alike(consoles, r) && forall i | 0 <= i < |r| :: r[i].stranded <==> consoles[i].stranded || r[i].cursor < next
  {
    seq(|consoles|, i requires 0 <= i < |consoles| => consoles[i].(stranded := consoles[i].stranded || consoles[i].cursor < next))
  }

  /** The same but for that history. */
  predicate Alike(before: seq<Console>, after: seq<Console>)
  {
    |before| == |after| && forall i | 0 <= i < |before| :: after[i] == before[i].(stranded := after[i].stranded)
  }

  function GoStep(s: State, h: nat): State
    requires CanGo(s, h)
  {
    match PcOf(s, h)
    case TryLock =>
      if s.lock.None? then At(s.(lock := Some(h), consoles := Reached(s.consoles)), h, Load)
      else if PcOf(s, s.lock.value).Listing? then At(s.(consoles := Missed(s.consoles, Next(s))), h, Idle)
      else At(s, h, Idle)
    case Load => At(s, h, Pc.Flush(Next(s), 0, Enter))
    case Flush(w, i, Enter) =>
      if i == |s.consoles| then At(s, h, Release(w))
      else if !Active(s.consoles[i]) then At(s, h, Pc.Flush(w, i + 1, Enter))
      else At(s, h, Pc.Flush(w, i, Reading(s.consoles[i].cursor)))
    case Flush(w, i, Reading(expected)) =>
      var c := s.consoles[i];
      var k := Found(s, c.cursor);
      if k < Next(s) then
        At(s.(consoles := s.consoles[i := c.(cursor := k + 1)]), h, Pc.Flush(w, i, Got(expected, k)))
      else
        At(s.(consoles := s.consoles[i := c.(cursor := k)]), h, Pc.Flush(w, i + 1, Enter))
    case Flush(w, i, Got(expected, k)) =>
      var c := s.consoles[i];
      if k != expected then
        At(s.(consoles := s.consoles[i := c.(out := c.out + [Dropped(k - expected)])]), h, Pc.Flush(w, i, Got(k, k)))
      else
        var e := if Shown(s, c, k) then Written(k, |s.past|) else Filtered(k, |s.past|);
        At(s.(consoles := s.consoles[i := c.(out := c.out + [e])]), h, Pc.Flush(w, i, Reading(k + 1)))
    case Release(w) => At(s.(lock := None), h, Recheck(w))
    case Recheck(w) => if Next(s) == w then At(s, h, Idle) else At(s, h, TryLock)
  }

  // ---------------------------------------------------------------------------------------------
  // Runs

  datatype Move = Move(hart: nat, action: Action)

  /** No console at all, and nothing logged. */
  function Boot(): State { State([], 0, 6, [], [], None, [], map[]) }

  ghost predicate Legal(s: State, run: seq<Move>)
    decreases |run|
  {
    run == [] || (Enabled(s, run[0].hart, run[0].action) && Legal(Step(s, run[0].hart, run[0].action), run[1..]))
  }

  ghost function After(s: State, run: seq<Move>): State
    requires Legal(s, run)
    decreases |run|
  {
    if run == [] then s else After(Step(s, run[0].hart, run[0].action), run[1..])
  }

  // ---------------------------------------------------------------------------------------------
  // What every step keeps

  predicate Holds(p: Pc) { p.Load? || p.Flush? || p.Release? || p.Listing? }

  /** out accounts for every number from `from` to `to`, each once and in order; what it calls dropped is gone. */
  predicate Accounts(out: seq<Event>, from: nat, to: nat, first: nat)
  {
    if out == [] then from == to
    else
      var last := out[|out| - 1];
      match last
      case Written(k, _) => to == k + 1 && Accounts(out[..|out| - 1], from, k, first)
      case Filtered(k, _) => to == k + 1 && Accounts(out[..|out| - 1], from, k, first)
      case Dropped(n) => 0 < n <= to && to <= first && Accounts(out[..|out| - 1], from, to - n, first)
  }

  /** The hart that is at console i, if any. */
  ghost predicate Busy(s: State, i: nat)
  {
    && s.lock.Some?
    && var p := PcOf(s, s.lock.value);
       p.Flush? && p.index == i && !p.phase.Enter?
  }

  ghost predicate ConsoleOk(s: State, i: nat)
    requires i < |s.consoles|
  {
    var c := s.consoles[i];
    && c.cursor <= Next(s)
    && if Busy(s, i) then
         match PcOf(s, s.lock.value).phase
         case Reading(e) => e == c.cursor && Accounts(c.out, c.start, e, s.first)
         case Got(e, k) => e <= k && c.cursor == k + 1 && Accounts(c.out, c.start, e, s.first) && (e < k ==> k <= s.first)
         case Enter => false
       else Accounts(c.out, c.start, c.cursor, s.first)
  }

  ghost predicate CaughtUp(s: State)
  {
    forall i | 0 <= i < |s.consoles| && Active(s.consoles[i]) :: s.consoles[i].cursor == Next(s)
  }

  /** The consoles below index have everything up to w. */
  ghost predicate FlushedTo(s: State, index: nat, w: nat)
  {
    forall i | 0 <= i < index && i < |s.consoles| && Active(s.consoles[i]) :: w <= s.consoles[i].cursor
  }

  ghost predicate HartOk(s: State, h: nat)
  {
    var p := PcOf(s, h);
    && (Holds(p) <==> s.lock == Some(h))
    && (p.Flush? ==>
          && p.written <= Next(s) && p.index <= |s.consoles| && FlushedTo(s, p.index, p.written)
          && (!p.phase.Enter? ==> p.index < |s.consoles| && Active(s.consoles[p.index])))
    && (p.Release? ==> p.written <= Next(s) && FlushedTo(s, |s.consoles|, p.written))
    && (p.Recheck? ==> p.written <= Next(s))
  }

  ghost predicate Inv(s: State)
  {
    && s.first <= Next(s) && (Next(s) > 0 ==> s.first < Next(s))
    && (s.lock.Some? ==> Holds(PcOf(s, s.lock.value)))
    && (forall h :: HartOk(s, h))
    && (forall i | 0 <= i < |s.consoles| :: ConsoleOk(s, i))
  }

  lemma {:induction false} AccountsLater(out: seq<Event>, from: nat, to: nat, first: nat, first2: nat)
    requires Accounts(out, from, to, first) && first <= first2
    ensures Accounts(out, from, to, first2)
    decreases |out|
  {
    if out != [] {
      var init := out[..|out| - 1];
      match out[|out| - 1]
      case Written(k, _) => AccountsLater(init, from, k, first, first2);
      case Filtered(k, _) => AccountsLater(init, from, k, first, first2);
      case Dropped(n) => AccountsLater(init, from, to - n, first, first2);
    }
  }

  lemma AppendKeeps(s: State, h: nat, level: nat, first: nat)
    requires Inv(s) && Enabled(s, h, Append(level, first))
    ensures Inv(Step(s, h, Append(level, first)))
  {
    var t := Step(s, h, Append(level, first));
    assert HartOk(s, h);
    forall g ensures HartOk(t, g) { assert HartOk(s, g); }
    forall i | 0 <= i < |t.consoles| ensures ConsoleOk(t, i) {
      var c := s.consoles[i];
      assert ConsoleOk(s, i);
      if Busy(s, i) {
        AccountsLater(c.out, c.start, PcOf(s, s.lock.value).phase.expected, s.first, first);
      } else {
        AccountsLater(c.out, c.start, c.cursor, s.first, first);
      }
    }
  }

  /** A step of a hart that does not hold the lock, or takes it or releases it, with the consoles as they are but for history. */
  lemma QuietStep(s: State, h: nat, t: State)
    requires Inv(s) && t.levels == s.levels && t.first == s.first && Alike(s.consoles, t.consoles)
    requires t.pc == s.pc[h := PcOf(t, h)]
    requires forall i | 0 <= i < |s.consoles| :: Busy(t, i) == Busy(s, i) && (Busy(s, i) ==> PcOf(t, t.lock.value) == PcOf(s, s.lock.value))
    requires t.lock.Some? ==> Holds(PcOf(t, t.lock.value))
    requires HartOk(t, h) && forall g | g != h :: s.lock == Some(g) <==> t.lock == Some(g)
    ensures Inv(t)
  {
    forall g ensures HartOk(t, g) { assert HartOk(s, g); }
    forall i | 0 <= i < |t.consoles| ensures ConsoleOk(t, i) { assert ConsoleOk(s, i); }
  }

  lemma TryGo(s: State, h: nat)
    requires Inv(s) && PcOf(s, h).TryLock?
    ensures Inv(GoStep(s, h))
  {
    hide Accounts, ConsoleOk;
    var t := GoStep(s, h);
    assert HartOk(s, h);
    if s.lock.Some? { assert HartOk(s, s.lock.value); }
    QuietStep(s, h, t);
  }

  lemma QuietGo(s: State, h: nat)
    requires Inv(s) && CanGo(s, h) && !PcOf(s, h).Flush?
    ensures Inv(GoStep(s, h))
  {
    var t := GoStep(s, h);
    assert HartOk(s, h);
    match PcOf(s, h)
    case TryLock => TryGo(s, h);
    case Load => QuietStep(s, h, t);
    case Release(w) => QuietStep(s, h, t);
    case Recheck(w) => QuietStep(s, h, t);
  }

  /** The lock holder touches console i only. */
  lemma HolderStep(s: State, h: nat, t: State, i: nat)
    requires Inv(s) && s.lock == Some(h) && Holds(PcOf(s, h)) && i <= |s.consoles|
    requires t.levels == s.levels && t.first == s.first && t.lock == s.lock && t.pc == s.pc[h := PcOf(t, h)] && Holds(PcOf(t, h))
    requires |t.consoles| == |s.consoles| && forall j | 0 <= j < |s.consoles| && j != i :: t.consoles[j] == s.consoles[j]
    requires forall j | 0 <= j < |s.consoles| && j != i :: !Busy(s, j) && !Busy(t, j)
    requires i < |s.consoles| ==> ConsoleOk(t, i)
    requires HartOk(t, h)
    ensures Inv(t)
  {
    forall g ensures HartOk(t, g) { assert HartOk(s, g); }
    forall j | 0 <= j < |t.consoles| ensures ConsoleOk(t, j) { assert ConsoleOk(s, j); }
  }

  lemma FlushGo(s: State, h: nat)
    requires Inv(s) && CanGo(s, h) && PcOf(s, h).Flush?
    ensures Inv(GoStep(s, h))
  {
    match PcOf(s, h).phase
    case Enter => EnterGo(s, h);
    case Reading(_) => ReadingGo(s, h);
    case Got(_, _) => GotGo(s, h);
  }

  lemma EnterGo(s: State, h: nat)
    requires Inv(s) && CanGo(s, h) && PcOf(s, h).Flush? && PcOf(s, h).phase.Enter?
    ensures Inv(GoStep(s, h))
  {
    hide Accounts;
    var i := PcOf(s, h).index;
    assert HartOk(s, h);
    if i < |s.consoles| { assert ConsoleOk(s, i); }
    HolderStep(s, h, GoStep(s, h), i);
  }

  lemma ReadingGo(s: State, h: nat)
    requires Inv(s) && CanGo(s, h) && PcOf(s, h).Flush? && PcOf(s, h).phase.Reading?
    ensures Inv(GoStep(s, h))
  {
    hide Accounts;
    var i := PcOf(s, h).index;
    assert HartOk(s, h) && ConsoleOk(s, i);
    HolderStep(s, h, GoStep(s, h), i);
  }

  lemma GotGo(s: State, h: nat)
    requires Inv(s) && CanGo(s, h) && PcOf(s, h).Flush? && PcOf(s, h).phase.Got?
    ensures Inv(GoStep(s, h))
  {
    var t, i := GoStep(s, h), PcOf(s, h).index;
    assert HartOk(s, h) && ConsoleOk(s, i);
    var c, d := s.consoles[i], t.consoles[i];
    assert d.out[..|d.out| - 1] == c.out;
    HolderStep(s, h, t, i);
  }

  lemma ListStep(s: State, h: nat, a: Action)
    requires Inv(s) && Enabled(s, h, a) && (a.Flush? || a.Lock? || a.Unlock?)
    ensures Inv(Step(s, h, a))
  {
    var t := Step(s, h, a);
    assert HartOk(s, h);
    QuietStep(s, h, t);
  }

  /** A change of the list under the lock; nobody else relies on it. */
  lemma RelistStep(s: State, h: nat, t: State)
    requires Inv(s) && PcOf(s, h).Listing?
    requires t.levels == s.levels && t.first == s.first && t.lock == None && t.pc == s.pc[h := PcOf(t, h)]
    requires PcOf(t, h).TryLock? || PcOf(t, h).Listed? || PcOf(t, h).Idle?
    requires forall c | c in t.consoles :: c in s.consoles || (c.cursor <= Next(s) && Accounts(c.out, c.start, c.cursor, s.first))
    ensures Inv(t)
  {
    assert HartOk(s, h);
    forall g ensures HartOk(t, g) { assert HartOk(s, g); }
    forall j | 0 <= j < |t.consoles| ensures ConsoleOk(t, j) {
      var c := t.consoles[j];
      assert c in t.consoles;
      if c in s.consoles {
        var i :| 0 <= i < |s.consoles| && s.consoles[i] == c;
        assert ConsoleOk(s, i);
      }
    }
  }

  lemma FreeStep(s: State, h: nat, i: Option<nat>)
    requires Inv(s) && Enabled(s, h, Free(i))
    ensures Inv(Step(s, h, Free(i)))
  {
    assert HartOk(s, h);
    if i.Some? { assert ConsoleOk(s, i.value); }
    RelistStep(s, h, Step(s, h, Free(i)));
  }

  lemma LevelStep(s: State, level: nat)
    requires Inv(s)
    ensures Inv(s.(loglevel := level, past := Limits(s)))
  {
    var t := s.(loglevel := level, past := Limits(s));
    forall g ensures HartOk(t, g) { assert HartOk(s, g); }
    forall i | 0 <= i < |t.consoles| ensures ConsoleOk(t, i) { assert ConsoleOk(s, i); }
  }

  lemma StepKeeps(s: State, h: nat, a: Action)
    requires Inv(s) && Enabled(s, h, a)
    ensures Inv(Step(s, h, a))
  {
    hide Inv, GoStep;
    match a
    case Append(level, first) => AppendKeeps(s, h, level, first);
    case Flush => ListStep(s, h, a);
    case SetLevel(level) => LevelStep(s, level);
    case Go => if PcOf(s, h).Flush? { FlushGo(s, h); } else { QuietGo(s, h); }
    case Lock => ListStep(s, h, a);
    case Unlock => ListStep(s, h, a);
    case Free(i) => FreeStep(s, h, i);
    case Remove(i) =>
      assert forall c | c in s.consoles[..i] + s.consoles[i + 1..] :: c in s.consoles;
      RelistStep(s, h, Step(s, h, a));
    case Add(c) =>
      assert s.first <= Next(s) by { FirstBelowNext(s); }
      RelistStep(s, h, Step(s, h, a));
  }

  lemma FirstBelowNext(s: State)
    requires Inv(s)
    ensures s.first <= Next(s)
  {
  }

  lemma BootHolds()
    ensures Inv(Boot())
  {
    forall h ensures HartOk(Boot(), h) {}
  }

  lemma {:induction false} RunKeeps(s: State, run: seq<Move>)
    requires Inv(s) && Legal(s, run)
    ensures Inv(After(s, run))
    decreases |run|
  {
    if run != [] {
      StepKeeps(s, run[0].hart, run[0].action);
      RunKeeps(Step(s, run[0].hart, run[0].action), run[1..]);
    }
  }

  // ---------------------------------------------------------------------------------------------
  // Which consoles can be left behind

  /** Someone will come back to the records that are not on every console yet. */
  ghost predicate Awaited(s: State, h: nat)
  {
    var p := PcOf(s, h);
    p.TryLock? || p.Listed? || p.Load? || p.Flush? || p.Release? || (p.Recheck? && p.written < Next(s))
  }

  ghost predicate Behind(s: State, i: nat)
    requires i < |s.consoles|
  {
    Active(s.consoles[i]) && s.consoles[i].cursor < Next(s)
  }

  ghost predicate Marked(s: State)
  {
    && (forall i | 0 <= i < |s.consoles| && s.consoles[i].stranded ::
          s.consoles[i].cursor < Next(s) && (s.lock.Some? ==> PcOf(s, s.lock.value).Listing?))
    && ((forall i | 0 <= i < |s.consoles| && Behind(s, i) :: s.consoles[i].stranded) || exists h :: Awaited(s, h))
  }

  lemma MarkedGo(s: State, h: nat)
    requires Inv(s) && Marked(s) && CanGo(s, h)
    ensures Marked(GoStep(s, h))
  {
    hide Accounts, Inv;
    assert HartOk(s, h) && (s.lock.Some? ==> HartOk(s, s.lock.value)) by { HartsOk(s, h); }
    assert forall i | 0 <= i < |s.consoles| :: ConsoleOk(s, i) by { ConsolesOk(s); }
    var t := GoStep(s, h);
    match PcOf(s, h)
    case TryLock =>
      if s.lock.None? {
        assert Awaited(t, h);
      } else if !PcOf(s, s.lock.value).Listing? {
        assert Awaited(t, s.lock.value);
      }
    case Load => assert Awaited(t, h);
    case Flush(_, _, _) => assert Awaited(t, h);
    case Release(w) => if w < Next(s) { assert Awaited(t, h); }
    case Recheck(w) =>
      if Next(s) == w {
        if g :| Awaited(s, g) { assert Awaited(t, g); }
      } else {
        assert Awaited(t, h);
      }
  }

  lemma HartsOk(s: State, h: nat)
    requires Inv(s)
    ensures HartOk(s, h) && (s.lock.Some? ==> HartOk(s, s.lock.value))
  {
  }

  lemma ConsolesOk(s: State)
    requires Inv(s)
    ensures forall i | 0 <= i < |s.consoles| :: ConsoleOk(s, i)
  {
  }

  lemma StepMarks(s: State, h: nat, a: Action)
    requires Inv(s) && Marked(s) && Enabled(s, h, a)
    ensures Marked(Step(s, h, a))
  {
    hide Inv, GoStep;
    var t := Step(s, h, a);
    match a
    case Append(_, _) => assert Awaited(t, h);
    case Flush => assert Awaited(t, h);
    case Go => MarkedGo(s, h);
    case Unlock => assert Awaited(t, h);
    case Remove(_) => assert Awaited(t, h);
    case Add(_) => assert Awaited(t, h);
    case _ => if g :| Awaited(s, g) { assert Awaited(t, g); }
  }

  lemma {:induction false} RunMarks(s: State, run: seq<Move>)
    requires Inv(s) && Marked(s) && Legal(s, run)
    ensures Inv(After(s, run)) && Marked(After(s, run))
    decreases |run|
  {
    hide Inv, Marked;
    if run != [] {
      StepKeeps(s, run[0].hart, run[0].action);
      StepMarks(s, run[0].hart, run[0].action);
      RunMarks(Step(s, run[0].hart, run[0].action), run[1..]);
    }
  }

  /**
   * In every run, whenever no hart is on its way, a console that takes output has everything that was logged, if and only
   * if nobody came to flush for it while a hart was at the list, with no flush begun since ...
   */
  lemma StrandedExactly(run: seq<Move>, i: nat)
    requires Legal(Boot(), run)
    requires var s := After(Boot(), run); (forall h :: PcOf(s, h).Idle?) && i < |s.consoles| && Active(s.consoles[i])
    ensures var s := After(Boot(), run); s.consoles[i].cursor == Next(s) <==> !s.consoles[i].stranded
  {
    var s := After(Boot(), run);
    BootHolds();
    RunMarks(Boot(), run);
    assert forall h :: !Awaited(s, h);
    assert ConsoleOk(s, i);
  }

  /** On the way to a flush: those at the list as well, unless they just let go of the lock. */
  ghost predicate Coming(s: State, h: nat)
  {
    PcOf(s, h).TryLock? || PcOf(s, h).Listing? || PcOf(s, h).Listed?
  }

  ghost predicate Heeded(s: State)
  {
    (forall i | 0 <= i < |s.consoles| :: !s.consoles[i].stranded) || exists h :: Coming(s, h)
  }

  lemma HeedsGo(s: State, h: nat)
    requires Inv(s) && Marked(s) && Heeded(s) && CanGo(s, h)
    ensures Heeded(GoStep(s, h))
  {
    hide Inv, Awaited, Behind;
    var t := GoStep(s, h);
    if s.lock.Some? && s.lock.value != h && PcOf(s, s.lock.value).Listing? {
      assert Coming(t, s.lock.value);
    } else if g :| Coming(s, g) {
      assert g != h ==> Coming(t, g);
    }
  }

  lemma StepHeeds(s: State, h: nat, a: Action)
    requires Inv(s) && Marked(s) && Heeded(s) && Enabled(s, h, a) && !a.Free?
    ensures Heeded(Step(s, h, a))
  {
    hide Inv, Marked, GoStep;
    var t := Step(s, h, a);
    if a.Go? {
      HeedsGo(s, h);
    } else if a.SetLevel? {
      if g :| Coming(s, g) { assert Coming(t, g); }
    } else {
      assert Coming(t, h);
    }
  }

  lemma {:induction false} RunHeeds(s: State, run: seq<Move>)
    requires Inv(s) && Marked(s) && Heeded(s) && Legal(s, run) && forall m | m in run :: !m.action.Free?
    ensures Heeded(After(s, run))
    decreases |run|
  {
    hide Inv, Marked, Heeded;
    if run != [] {
      StepKeeps(s, run[0].hart, run[0].action);
      StepMarks(s, run[0].hart, run[0].action);
      StepHeeds(s, run[0].hart, run[0].action);
      RunHeeds(Step(s, run[0].hart, run[0].action), run[1..]);
    }
  }

  /** ... and a failed try-lock strands nothing at all if all who take the lock for the list flush or log afterwards. */
  lemma NothingStranded(run: seq<Move>)
    requires Legal(Boot(), run) && forall m | m in run :: !m.action.Free?
    ensures var s := After(Boot(), run); (forall h :: PcOf(s, h).Idle?) ==> CaughtUp(s)
  {
    var s := After(Boot(), run);
    BootHolds();
    RunHeeds(Boot(), run);
    if forall h :: PcOf(s, h).Idle? {
      forall i | 0 <= i < |s.consoles| && Active(s.consoles[i]) ensures s.consoles[i].cursor == Next(s) { StrandedExactly(run, i); }
    }
  }

  /** Those that just let go of it do strand a record: hart 3 logs while hart 2 holds the lock, and hart 2 frees it. */
  lemma ReleaseStrands()
    ensures Legal(Boot(), StrandingRun())
    ensures var s := After(Boot(), StrandingRun());
            (forall h :: PcOf(s, h).Idle?) && !CaughtUp(s) && |s.consoles| == 1 && s.consoles[0].stranded
  {
    StrandingStart();
    StrandingEnd();
    hide Legal, After, Step, GoStep, PcOf;
    Joined(Boot(), AddedRun(), StrandingRun()[4..]);
    assert StrandingRun() == AddedRun() + StrandingRun()[4..];
  }

  /** One console, just added, and a hart at the list. */
  function Added(): State
  {
    State([], 0, 6, [], [], Some(2), [Console(0, 0, [], true, false, None, false)], map[1 := Idle, 2 := Listing])
  }

  function AddedRun(): seq<Move>
  {
    [Move(1, Lock), Move(1, Add(Console(0, 0, [], true, false, None, false))), Move(2, Lock), Move(1, Go)]
  }

  function StrandingRun(): seq<Move>
  {
    AddedRun() + [Move(3, Append(0, 0)), Move(3, Go), Move(2, Free(None))]
  }

  lemma StrandingStart()
    ensures Legal(Boot(), AddedRun()) && After(Boot(), AddedRun()) == Added()
  {
    var run := AddedRun();
    var s1 := Step(Boot(), 1, Lock);
    var s2 := Step(s1, 1, run[1].action);
    var s3 := Step(s2, 2, Lock);
    var s4 := Step(s3, 1, Go);
    assert s4 == Added();
    Backwards(s3, run[3], [], s4);
    Backwards(s2, run[2], run[3..], s4);
    Backwards(s1, run[1], run[2..], s4);
    Backwards(Boot(), run[0], run[1..], s4);
  }

  lemma StrandingEnd()
    ensures Legal(Added(), StrandingRun()[4..])
    ensures var s := After(Added(), StrandingRun()[4..]);
            (forall h :: PcOf(s, h).Idle?) && !CaughtUp(s) && |s.consoles| == 1 && s.consoles[0].stranded
  {
    var run := StrandingRun()[4..];
    var s1 := Step(Added(), 3, Append(0, 0));
    var s2 := Step(s1, 3, Go);
    var s3 := Step(s2, 2, Free(None));
    assert Behind(s3, 0);
    Backwards(s2, run[2], [], s3);
    Backwards(s1, run[1], run[2..], s3);
    Backwards(Added(), run[0], run[1..], s3);
  }

  lemma Backwards(s: State, m: Move, rest: seq<Move>, end: State)
    requires Enabled(s, m.hart, m.action) && Legal(Step(s, m.hart, m.action), rest)
    requires After(Step(s, m.hart, m.action), rest) == end
    ensures Legal(s, [m] + rest) && After(s, [m] + rest) == end
  {
    assert ([m] + rest)[1..] == rest;
  }

  lemma {:induction false} Joined(s: State, a: seq<Move>, b: seq<Move>)
    requires Legal(s, a) && Legal(After(s, a), b)
    ensures Legal(s, a + b) && After(s, a + b) == After(After(s, a), b)
    decreases |a|
  {
    if a == [] {
      assert a + b == b;
    } else {
      Joined(Step(s, a[0].hart, a[0].action), a[1..], b);
      assert a + b == [a[0]] + (a[1..] + b);
      Backwards(s, a[0], a[1..] + b, After(After(s, a), b));
    }
  }

  // ---------------------------------------------------------------------------------------------
  // A flush that nobody gets in the way of ends

  /** So many next steps of hart h. */
  function Gos(h: nat, n: nat): (run: seq<Move>)
    ensures |run| == n && forall m | m in run :: m == Move(h, Go)
  {
    if n == 0 then [] else [Move(h, Go)] + Gos(h, n - 1)
  }

  /** What the consoles from index i on may take: three steps for each, and two for each record it does not have. */
  function Work(s: State, i: nat): nat
    decreases |s.consoles| - i
  {
    if i >= |s.consoles| then 0 else 3 + 2 * Lacks(s, s.consoles[i].cursor) + Work(s, i + 1)
  }

  function Lacks(s: State, cursor: nat): nat
  {
    if cursor < Next(s) then Next(s) - cursor else 0
  }

  /** How many steps hart h is away from the end of its flush at most. */
  function Distance(s: State, h: nat): nat
  {
    match PcOf(s, h)
    case TryLock => 5 + Work(s, 0)
    case Load => 4 + Work(s, 0)
    case Flush(_, i, Enter) => 3 + Work(s, i)
    case Flush(_, i, Reading(_)) => 5 + 2 * (if i < |s.consoles| then Lacks(s, s.consoles[i].cursor) else 0) + Work(s, i + 1)
    case Flush(_, i, Got(e, k)) => (if e == k then 6 else 7) + 2 * Lacks(s, k + 1) + Work(s, i + 1)
    case Release(_) => 2
    case Recheck(_) => 1
    case _ => 0
  }

  /** Hart h is at a flush that has noted all there is, or just before or after it. */
  ghost predicate Alone(s: State, h: nat)
  {
    && Inv(s)
    && match PcOf(s, h)
       case TryLock => s.lock.None?
       case Load => true
       case Flush(w, _, _) => w == Next(s)
       case Release(w) => w == Next(s)
       case Recheck(w) => w == Next(s) && s.lock.None? && CaughtUp(s)
       case Idle => s.lock.None? && CaughtUp(s)
       case _ => false
  }

  lemma {:induction false} SameWork(s: State, t: State, i: nat)
    requires Next(t) == Next(s) && |t.consoles| == |s.consoles|
    requires forall j | i <= j < |s.consoles| :: t.consoles[j].cursor == s.consoles[j].cursor
    ensures Work(t, i) == Work(s, i)
    decreases |s.consoles| - i
  {
    if i < |s.consoles| { SameWork(s, t, i + 1); }
  }

  lemma AloneGo(s: State, h: nat)
    requires Alone(s, h) && !PcOf(s, h).Idle?
    ensures CanGo(s, h) && Alone(GoStep(s, h), h) && Distance(GoStep(s, h), h) < Distance(s, h)
  {
    hide Inv, Accounts;
    assert HartOk(s, h) by { HartsOk(s, h); }
    assert CanGo(s, h) by { AloneCan(s, h); }
    var t := GoStep(s, h);
    assert Inv(t) by { StepKeeps(s, h, Go); }
    if PcOf(s, h).Flush? {
      FlushCloser(s, h);
    } else if PcOf(s, h).Release? {
      AllFlushed(s, h);
    } else if PcOf(s, h).TryLock? || PcOf(s, h).Load? {
      SameWork(s, t, 0);
    }
  }

  lemma AloneCan(s: State, h: nat)
    requires Alone(s, h) && !PcOf(s, h).Idle?
    ensures CanGo(s, h)
  {
    hide Accounts;
    assert HartOk(s, h);
    if PcOf(s, h).Flush? && PcOf(s, h).phase.Got? { assert ConsoleOk(s, PcOf(s, h).index); }
  }

  lemma AllFlushed(s: State, h: nat)
    requires Inv(s) && PcOf(s, h).Release? && PcOf(s, h).written == Next(s)
    ensures CaughtUp(GoStep(s, h))
  {
    hide Accounts;
    assert HartOk(s, h);
    forall i | 0 <= i < |s.consoles| && Active(s.consoles[i]) ensures s.consoles[i].cursor == Next(s) { assert ConsoleOk(s, i); }
  }

  /** At a flush of all there is, or just after it. */
  predicate FlushingAll(s: State, h: nat)
  {
    match PcOf(s, h)
    case Flush(w, _, _) => w == Next(s)
    case Release(w) => w == Next(s)
    case _ => false
  }

  lemma EnterCloser(s: State, h: nat)
    requires Inv(s) && CanGo(s, h) && PcOf(s, h).Flush? && PcOf(s, h).phase.Enter? && PcOf(s, h).written == Next(s)
    ensures FlushingAll(GoStep(s, h), h) && Distance(GoStep(s, h), h) < Distance(s, h)
  {
    hide Accounts, Inv, FlushedTo, Shown, ConsoleOk, HartOk;
    var t := GoStep(s, h);
    SameWork(s, t, PcOf(s, h).index);
    SameWork(s, t, PcOf(s, h).index + 1);
  }

  lemma ReadingCloser(s: State, h: nat)
    requires Inv(s) && CanGo(s, h) && PcOf(s, h).Flush? && PcOf(s, h).phase.Reading? && PcOf(s, h).written == Next(s)
    ensures FlushingAll(GoStep(s, h), h) && Distance(GoStep(s, h), h) < Distance(s, h)
  {
    hide Accounts, Inv, FlushedTo, Shown;
    var t, i := GoStep(s, h), PcOf(s, h).index;
    assert HartOk(s, h) by { HartsOk(s, h); }
    assert ConsoleOk(s, i) by { ConsolesOk(s); }
    assert s.first <= Next(s) by { FirstBelowNext(s); }
    SameWork(s, t, i + 1);
  }

  lemma GotCloser(s: State, h: nat)
    requires Inv(s) && CanGo(s, h) && PcOf(s, h).Flush? && PcOf(s, h).phase.Got? && PcOf(s, h).written == Next(s)
    ensures FlushingAll(GoStep(s, h), h) && Distance(GoStep(s, h), h) < Distance(s, h)
  {
    hide Accounts, Inv, FlushedTo, Shown;
    var t, i := GoStep(s, h), PcOf(s, h).index;
    assert HartOk(s, h) by { HartsOk(s, h); }
    assert ConsoleOk(s, i) by { ConsolesOk(s); }
    SameWork(s, t, i + 1);
  }

  /** Each step of a flush is one step closer to its end. */
  lemma FlushCloser(s: State, h: nat)
    requires Inv(s) && CanGo(s, h) && PcOf(s, h).Flush? && PcOf(s, h).written == Next(s)
    ensures FlushingAll(GoStep(s, h), h) && Distance(GoStep(s, h), h) < Distance(s, h)
  {
    hide Inv, GoStep, Distance, FlushingAll, CanGo;
    match PcOf(s, h).phase
    case Enter => EnterCloser(s, h);
    case Reading(_) => ReadingCloser(s, h);
    case Got(_, _) => GotCloser(s, h);
  }

  /** The end of a flush: hart h is done, the lock is free, every console that writes has all there is. */
  ghost predicate Flushed(s: State, h: nat)
  {
    PcOf(s, h).Idle? && s.lock.None? && CaughtUp(s)
  }

  lemma {:induction false} AloneEnds(s: State, h: nat)
    requires Alone(s, h)
    ensures exists n: nat :: n <= Distance(s, h) && Legal(s, Gos(h, n)) && Flushed(After(s, Gos(h, n)), h)
    decreases Distance(s, h)
  {
    hide Inv, GoStep, Distance;
    if PcOf(s, h).Idle? {
      assert Gos(h, 0) == [] && Legal(s, Gos(h, 0)) && Flushed(After(s, Gos(h, 0)), h);
    } else {
      AloneGo(s, h);
      var t := GoStep(s, h);
      AloneEnds(t, h);
      var n: nat :| n <= Distance(t, h) && Legal(t, Gos(h, n)) && Flushed(After(t, Gos(h, n)), h);
      assert Gos(h, n + 1) == [Move(h, Go)] + Gos(h, n);
      Backwards(s, Move(h, Go), Gos(h, n), After(t, Gos(h, n)));
      assert n + 1 <= Distance(s, h);
    }
  }

  /**
   * Whatever the others have done, a hart that comes to flush while the lock is free, and is let go on alone, is done after
   * some steps of its own, with everything on every console that writes: five of them, three for each console and two for
   * each record that a console does not have yet are enough.
   */
  lemma LoneFlushEnds(s: State, h: nat)
    requires Inv(s) && s.lock.None? && PcOf(s, h).TryLock?
    ensures exists n: nat :: n <= 5 + Work(s, 0) && Legal(s, Gos(h, n)) && Flushed(After(s, Gos(h, n)), h)
  {
    AloneEnds(s, h);
  }

  // ---------------------------------------------------------------------------------------------
  // What becomes of each record

  /**
   * A record is written if its level is within the console's own, or within the global one of that time, and filtered if
   * not; that time is not before the record was logged.
   */
  predicate Judged(e: Event, own: Option<nat>, levels: seq<nat>, logged: seq<nat>, limits: seq<nat>)
  {
    e.Dropped? ||
    (&& e.seqNo < |levels| == |logged| && logged[e.seqNo] <= e.epoch < |limits|
     && (e.Written? <==> levels[e.seqNo] <= if own.Some? then own.value else limits[e.epoch]))
  }

  ghost predicate AllJudged(c: Console, levels: seq<nat>, logged: seq<nat>, limits: seq<nat>)
  {
    && (forall n | 0 <= n < |c.out| :: Judged(c.out[n], c.ownLevel, levels, logged, limits))
    && forall m, n | 0 <= m < n < |c.out| && !c.out[m].Dropped? && !c.out[n].Dropped? :: c.out[m].epoch <= c.out[n].epoch
  }

  ghost predicate Fair(s: State)
  {
    && |s.logged| == |s.levels| && (forall k | 0 <= k < |s.logged| :: s.logged[k] <= |s.past|)
    && forall c | c in s.consoles :: AllJudged(c, s.levels, s.logged, Limits(s))
  }

  lemma JudgedLater(c: Console, levels: seq<nat>, logged: seq<nat>, limits: seq<nat>,
                    levels2: seq<nat>, logged2: seq<nat>, limits2: seq<nat>)
    requires AllJudged(c, levels, logged, limits) && levels <= levels2 && logged <= logged2 && |levels2| == |logged2| && limits <= limits2
    ensures AllJudged(c, levels2, logged2, limits2)
  {
    forall n | 0 <= n < |c.out| ensures Judged(c.out[n], c.ownLevel, levels2, logged2, limits2) {
      assert Judged(c.out[n], c.ownLevel, levels, logged, limits);
    }
  }

  lemma JudgedNext(c: Console, e: Event, levels: seq<nat>, logged: seq<nat>, limits: seq<nat>)
    requires AllJudged(c, levels, logged, limits) && Judged(e, c.ownLevel, levels, logged, limits) && (e.Dropped? || e.epoch == |limits| - 1)
    ensures AllJudged(c.(out := c.out + [e]), levels, logged, limits)
  {
    var d := c.(out := c.out + [e]);
    forall n | 0 <= n < |d.out| ensures Judged(d.out[n], d.ownLevel, levels, logged, limits) {
      assert n < |c.out| ==> Judged(c.out[n], c.ownLevel, levels, logged, limits);
    }
    forall m, n | 0 <= m < n < |d.out| && !d.out[m].Dropped? && !d.out[n].Dropped? ensures d.out[m].epoch <= d.out[n].epoch {
      assert Judged(c.out[m], c.ownLevel, levels, logged, limits);
    }
  }

  /** Of console b a step makes c: it is given nothing, or one thing that is judged by the levels of now. */
  ghost predicate GivenOne(s: State, b: Console, c: Console)
  {
    && c.ownLevel == b.ownLevel
    && (c.out == b.out
        || exists e :: c.out == b.out + [e] && Judged(e, b.ownLevel, s.levels, s.logged, Limits(s)) && (e.Dropped? || e.epoch == |s.past|))
  }

  lemma GoGives(s: State, h: nat)
    requires Fair(s) && CanGo(s, h)
    ensures var t := GoStep(s, h);
            && t.levels == s.levels && t.logged == s.logged && t.past == s.past && t.loglevel == s.loglevel
            && |t.consoles| == |s.consoles| && forall i | 0 <= i < |s.consoles| :: GivenOne(s, s.consoles[i], t.consoles[i])
  {
    hide AllJudged, Judged, GivenOne;
    var t := GoStep(s, h);
    forall i | 0 <= i < |s.consoles| ensures GivenOne(s, s.consoles[i], t.consoles[i]) {
      var b, c := s.consoles[i], t.consoles[i];
      if c.out == b.out {
        GivenNothing(s, b, c);
      } else {
        EventGiven(s, b, PcOf(s, h).phase.expected, PcOf(s, h).phase.seqNo);
      }
    }
  }

  lemma GivenNothing(s: State, b: Console, c: Console)
    requires c.out == b.out && c.ownLevel == b.ownLevel
    ensures GivenOne(s, b, c)
  {
  }

  lemma EventGiven(s: State, b: Console, expected: nat, k: nat)
    requires Fair(s) && expected <= k < Next(s)
    ensures GivenOne(s, b, b.(out := b.out + [Dropped(k - expected)]))
    ensures GivenOne(s, b, b.(out := b.out + [if Shown(s, b, k) then Written(k, |s.past|) else Filtered(k, |s.past|)]))
  {
    hide AllJudged;
    var e := if Shown(s, b, k) then Written(k, |s.past|) else Filtered(k, |s.past|);
    assert Judged(e, b.ownLevel, s.levels, s.logged, Limits(s)) && Judged(Dropped(k - expected), b.ownLevel, s.levels, s.logged, Limits(s));
  }

  lemma FairGo(s: State, h: nat)
    requires Fair(s) && CanGo(s, h)
    ensures Fair(GoStep(s, h))
  {
    hide GoStep, AllJudged, Judged;
    GoGives(s, h);
    var t := GoStep(s, h);
    forall c | c in t.consoles ensures AllJudged(c, t.levels, t.logged, Limits(t)) {
      var i :| 0 <= i < |t.consoles| && t.consoles[i] == c;
      OneMore(s, s.consoles[i], c);
    }
  }

  lemma OneMore(s: State, b: Console, c: Console)
    requires AllJudged(b, s.levels, s.logged, Limits(s)) && GivenOne(s, b, c)
    ensures AllJudged(c, s.levels, s.logged, Limits(s))
  {
    if c.out != b.out {
      var e :| c.out == b.out + [e] && Judged(e, b.ownLevel, s.levels, s.logged, Limits(s)) && (e.Dropped? || e.epoch == |s.past|);
      JudgedNext(b, e, s.levels, s.logged, Limits(s));
    }
  }

  lemma StepJudges(s: State, h: nat, a: Action)
    requires Fair(s) && Enabled(s, h, a)
    ensures Fair(Step(s, h, a))
  {
    hide GoStep, AllJudged;
    var t := Step(s, h, a);
    if a.Go? {
      FairGo(s, h);
    } else {
      forall c | c in t.consoles ensures AllJudged(c, t.levels, t.logged, Limits(t)) { OldJudged(s, h, a, c); }
    }
  }

  lemma OldJudged(s: State, h: nat, a: Action, c: Console)
    requires Fair(s) && Enabled(s, h, a) && !a.Go? && c in Step(s, h, a).consoles
    ensures AllJudged(c, Step(s, h, a).levels, Step(s, h, a).logged, Limits(Step(s, h, a)))
  {
    var t := Step(s, h, a);
    if b :| b in s.consoles && b.out == c.out && b.ownLevel == c.ownLevel {
      JudgedLater(b, s.levels, s.logged, Limits(s), t.levels, t.logged, Limits(t));
    } else {
      assert a.Add? && c.out == [];
    }
  }

  lemma {:induction false} RunJudges(s: State, run: seq<Move>)
    requires Fair(s) && Legal(s, run)
    ensures Fair(After(s, run))
    decreases |run|
  {
    hide Fair;
    if run != [] {
      StepJudges(s, run[0].hart, run[0].action);
      RunJudges(Step(s, run[0].hart, run[0].action), run[1..]);
    }
  }

  /**
   * Each console accounts for every record from where its cursor was placed up to its cursor, once and in order, as
   * written, filtered or counted in a notice; a notice counts only records the ring has dropped, and what is written or
   * filtered is what the level asks for.
   */
  lemma EveryRecordAccounted(run: seq<Move>, i: nat)
    requires Legal(Boot(), run) && i < |After(Boot(), run).consoles|
    ensures var s := After(Boot(), run);
            !Busy(s, i) ==> Accounts(s.consoles[i].out, s.consoles[i].start, s.consoles[i].cursor, s.first)
    ensures var s := After(Boot(), run); AllJudged(s.consoles[i], s.levels, s.logged, Limits(s))
  {
    BootHolds();
    RunKeeps(Boot(), run);
    assert ConsoleOk(After(Boot(), run), i);
    RunJudges(Boot(), run);
    assert After(Boot(), run).consoles[i] in After(Boot(), run).consoles;
  }

  // ---------------------------------------------------------------------------------------------
  // The list

  /** Where an action puts the console at place i of the list. */
  function Place(a: Action, i: nat): Option<nat>
  {
    match a
    case Remove(k) => if i == k then None else Some(if i < k then i else i - 1)
    case Add(_) => Some(i + 1)
    case _ => Some(i)
  }

  /** What a console never gives up, and that what it has written stays. */
  predicate Continues(c: Console, d: Console)
  {
    && d.canWrite == c.canWrite && d.ownLevel == c.ownLevel && d.start == c.start && (c.released ==> d.released)
    && c.cursor <= d.cursor && c.out <= d.out
    && (!Active(c) ==> d.cursor == c.cursor && d.out == c.out)
  }

  lemma GoKeepsList(s: State, h: nat, i: nat)
    requires Inv(s) && CanGo(s, h) && i < |s.consoles|
    ensures |GoStep(s, h).consoles| == |s.consoles|
    ensures Continues(s.consoles[i], GoStep(s, h).consoles[i]) && GoStep(s, h).consoles[i].released == s.consoles[i].released
  {
    hide Accounts, ConsoleOk;
    assert HartOk(s, h);
  }

  /**
   * No action takes a console off the list or hands it over but the one that says so, and a flush leaves alone what cannot
   * be written to.
   */
  lemma ListKept(s: State, h: nat, a: Action, i: nat)
    requires Inv(s) && Enabled(s, h, a) && i < |s.consoles|
    ensures var p := Place(a, i);
            && (p.None? <==> a == Remove(i))
            && (p.Some? ==>
                  && p.value < |Step(s, h, a).consoles| && Continues(s.consoles[i], Step(s, h, a).consoles[p.value])
                  && (Step(s, h, a).consoles[p.value].released <==> s.consoles[i].released || a == Free(Some(i))))
  {
    hide Accounts, ConsoleOk, HartOk, GoStep;
    if a.Go? {
      GoKeepsList(s, h, i);
    }
  }

  ghost function Followed(run: seq<Move>, i: nat): Option<nat>
    decreases |run|
  {
    if run == [] then Some(i)
    else
      var p := Place(run[0].action, i);
      if p.None? then None else Followed(run[1..], p.value)
  }

  /** A console that was handed to its driver, or that cannot write, gets nothing more, whatever happens. */
  lemma {:induction false} HandedIsSilent(s: State, run: seq<Move>, i: nat)
    requires Inv(s) && Legal(s, run) && i < |s.consoles| && !Active(s.consoles[i])
    ensures var p, t := Followed(run, i), After(s, run);
            p.Some? ==> p.value < |t.consoles| && t.consoles[p.value].out == s.consoles[i].out && !Active(t.consoles[p.value])
    decreases |run|
  {
    hide Inv, Enabled, Step, Place;
    if run != [] {
      var h, a := run[0].hart, run[0].action;
      ListKept(s, h, a, i);
      StepKeeps(s, h, a);
      var p := Place(a, i);
      if p.Some? {
        HandedIsSilent(Step(s, h, a), run[1..], p.value);
      }
    }
  }
}
