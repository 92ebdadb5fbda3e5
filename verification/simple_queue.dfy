/**
 * simple_queue.h: a bounded queue under one mutex with two condition variables, as a state machine.
 * A step is what one thread does while it holds the mutex, or the notification it sends afterwards.
 */
module SimpleQueue {
  import opened Common

  /** Where a thread is. */
  datatype Thread<T> =
    | Outside                 // in no operation, or at the start of one
    | PushAsleep(item: T)     // in _not_full_cond.wait
    | PushWoken(item: T)      // notified there, and not yet back under the mutex
    | PopAsleep               // in _not_empty_cond.wait
    | PopWoken
    | TellNotEmpty            // has pushed and unlocked, and will notify _not_empty_cond
    | TellNotFull             // has popped and unlocked, and will notify _not_full_cond

  /** `max` is _max_size, `taken` and `given` are all the items that came in and went out. */
  datatype State<T> = State(max: int, queue: seq<T>, threads: seq<Thread<T>>, taken: seq<T>, given: seq<T>)

  datatype Action<T> =
    | Push(t: nat, item: T)
    | PushWait(t: nat, item: T)
    | Pop(t: nat)
    | WaitPop(t: nat)
    | Retry(t: nat)              // a thread that was woken takes the mutex again
    | Notify(t: nat, u: nat)     // notify_one; thread u is the one it wakes, if any sleeps
    | Spurious(t: nat)           // a thread wakes without being notified

  predicate Full<T>(s: State<T>) { s.max > 0 && |s.queue| >= s.max }

  function Set<T>(s: State<T>, t: nat, p: Thread<T>): State<T>
    requires t < |s.threads|
  {
    s.(threads := s.threads[t := p])
  }

  /** An item goes in, and the mutex is released. */
  function Enter<T>(s: State<T>, t: nat, x: T): State<T>
    requires t < |s.threads|
  {
    Set(s.(queue := s.queue + [x], taken := s.taken + [x]), t, TellNotEmpty)
  }

  /** An item comes out, and the mutex is released. */
  function Leave<T>(s: State<T>, t: nat): State<T>
    requires t < |s.threads| && s.queue != []
  {
    Set(s.(queue := s.queue[1..], given := s.given + [s.queue[0]]), t, TellNotFull)
  }

  /** The loop of push_wait, up to its next wait or its end. */
  function TryEnter<T>(s: State<T>, t: nat, x: T): State<T>
    requires t < |s.threads|
  {
    if Full(s) then Set(s, t, PushAsleep(x)) else Enter(s, t, x)
  }

  /** The loop of wait_pop. */
  function TryLeave<T>(s: State<T>, t: nat): State<T>
    requires t < |s.threads|
  {
    if s.queue == [] then Set(s, t, PopAsleep) else Leave(s, t)
  }

  /** One step of one thread; None if the thread is not where it could take it. */
  function Step<T>(s: State<T>, a: Action<T>): Option<State<T>>
  {
    if a.t >= |s.threads| then None
    else
      match a
      case Push(t, x) =>
        if s.threads[t] != Outside then None else if Full(s) then Some(s) else Some(Enter(s, t, x))
      case PushWait(t, x) =>
        if s.threads[t] != Outside then None else Some(TryEnter(s, t, x))
      case Pop(t) =>
        if s.threads[t] != Outside then None else if s.queue == [] then Some(s) else Some(Leave(s, t))
      case WaitPop(t) =>
        if s.threads[t] != Outside then None else Some(TryLeave(s, t))
      case Retry(t) =>
        if s.threads[t].PushWoken? then Some(TryEnter(s, t, s.threads[t].item))
        else if s.threads[t].PopWoken? then Some(TryLeave(s, t))
        else None
      case Notify(t, u) =>
        if s.threads[t].TellNotEmpty? then
          var r := Set(s, t, Outside);
          if Count(r.threads, PopSleeper) == 0 then Some(r)
          else if u < |r.threads| && PopSleeper(r.threads[u]) == 1 then Some(Set(r, u, PopWoken)) else None
        else if s.threads[t].TellNotFull? then
          var r := Set(s, t, Outside);
          if Count(r.threads, PushSleeper) == 0 then Some(r)
          else if u < |r.threads| && PushSleeper(r.threads[u]) == 1 then Some(Set(r, u, PushWoken(r.threads[u].item)))
            else None
        else None
      case Spurious(t) =>
        if s.threads[t].PopAsleep? then Some(Set(s, t, PopWoken))
        else if s.threads[t].PushAsleep? then Some(Set(s, t, PushWoken(s.threads[t].item)))
        else None
  }

  // ---------- counting threads ----------

  function PopSleeper<T>(p: Thread<T>): nat { if p.PopAsleep? then 1 else 0 }
  function PushSleeper<T>(p: Thread<T>): nat { if p.PushAsleep? then 1 else 0 }

  /** Threads that will see to it that a thread that sleeps for an item gets its turn. */
  function PopHelper<T>(p: Thread<T>): nat { if p.PopWoken? || p.TellNotEmpty? then 1 else 0 }

  /** The same for a thread that sleeps for room. */
  function PushHelper<T>(p: Thread<T>): nat { if p.PushWoken? || p.TellNotFull? then 1 else 0 }

  function Count<T>(ps: seq<Thread<T>>, f: Thread<T> -> nat): (n: nat)
  {
    if ps == [] then 0 else f(ps[0]) + Count(ps[1..], f)
  }

  lemma {:induction false} CountSet<T>(ps: seq<Thread<T>>, f: Thread<T> -> nat, t: nat, p: Thread<T>)
    requires t < |ps|
    ensures Count(ps[t := p], f) == Count(ps, f) - f(ps[t]) + f(p)
    ensures Count(ps, f) >= f(ps[t])
  {
    if t > 0 {
      CountSet(ps[1..], f, t - 1, p);
      assert ps[t := p][1..] == ps[1..][t - 1 := p];
    } else {
      assert ps[t := p][1..] == ps[1..];
    }
  }

  // ---------- what every step keeps ----------

  /**
   * Items come out in the order they went in, none lost or repeated; a positive capacity is never
   * exceeded; and while a thread sleeps for an item (for room), there are no more items (places)
   * than threads that are on their way to take one or to wake one that will.
   */
  ghost predicate Inv<T>(s: State<T>)
  {
    && s.taken == s.given + s.queue
    && (s.max > 0 ==> |s.queue| <= s.max)
    && (Count(s.threads, PopSleeper) > 0 ==> |s.queue| <= Count(s.threads, PopHelper))
    && (Count(s.threads, PushSleeper) > 0 ==> s.max > 0 && s.max - |s.queue| <= Count(s.threads, PushHelper))
  }

  function Init<T>(max: int, n: nat): State<T> { State(max, [], seq(n, _ => Outside), [], []) }

  lemma {:induction false} NoneSleeps<T>(n: nat, f: Thread<T> -> nat)
    requires f(Outside) == 0
    ensures Count(seq(n, _ => Outside), f) == 0
  {
    if n > 0 {
      NoneSleeps<T>(n - 1, f);
      var ps: seq<Thread<T>> := seq(n, _ => Outside);
      assert ps[1..] == seq(n - 1, _ => Outside);
    }
  }

  lemma InitInv<T>(max: int, n: nat)
    ensures Inv<T>(Init(max, n))
  {
    NoneSleeps<T>(n, PopSleeper);
    NoneSleeps<T>(n, PushSleeper);
  }

  lemma CountAll<T>(s: State<T>, t: nat, p: Thread<T>)
    requires t < |s.threads|
    ensures var was, ps := s.threads[t], Set(s, t, p).threads;
            && Count(ps, PopSleeper) == Count(s.threads, PopSleeper) - PopSleeper(was) + PopSleeper(p)
            && Count(ps, PushSleeper) == Count(s.threads, PushSleeper) - PushSleeper(was) + PushSleeper(p)
            && Count(ps, PopHelper) == Count(s.threads, PopHelper) - PopHelper(was) + PopHelper(p)
            && Count(ps, PushHelper) == Count(s.threads, PushHelper) - PushHelper(was) + PushHelper(p)
  {
    CountSet(s.threads, PopSleeper, t, p);
    CountSet(s.threads, PushSleeper, t, p);
    CountSet(s.threads, PopHelper, t, p);
    CountSet(s.threads, PushHelper, t, p);
  }

  lemma EnterKeeps<T>(s: State<T>, t: nat, x: T)
    requires Inv(s) && t < |s.threads| && !Full(s) && (s.threads[t] == Outside || s.threads[t].PushWoken?)
    ensures Inv(Enter(s, t, x))
  {
    CountAll(s, t, TellNotEmpty);
    assert s.given + s.queue + [x] == s.given + (s.queue + [x]);
  }

  lemma LeaveKeeps<T>(s: State<T>, t: nat)
    requires Inv(s) && t < |s.threads| && s.queue != [] && (s.threads[t] == Outside || s.threads[t].PopWoken?)
    ensures Inv(Leave(s, t))
  {
    CountAll(s, t, TellNotFull);
    assert s.given + s.queue == s.given + [s.queue[0]] + s.queue[1..];
  }

  lemma NotifyKeeps<T>(s: State<T>, t: nat, u: nat)
    requires Inv(s) && t < |s.threads| && (s.threads[t].TellNotEmpty? || s.threads[t].TellNotFull?)
    requires Step(s, Notify(t, u)).Some?
    ensures Inv(Step(s, Notify(t, u)).value)
  {
    CountAll(s, t, Outside);
    var r := Set(s, t, Outside);
    if s.threads[t].TellNotEmpty? {
      if Count(r.threads, PopSleeper) > 0 {
        CountAll(r, u, PopWoken);
      }
    } else if Count(r.threads, PushSleeper) > 0 {
      CountAll(r, u, PushWoken(r.threads[u].item));
    }
  }

  lemma StepKeeps<T>(s: State<T>, a: Action<T>)
    requires Inv(s) && Step(s, a).Some?
    ensures Inv(Step(s, a).value)
  {
    hide Inv;
    match a
    case Push(t, x) =>
      if !Full(s) {
        EnterKeeps(s, t, x);
      }
    case PushWait(t, x) => TryEnterKeeps(s, t, x);
    case Pop(t) =>
      if s.queue != [] {
        LeaveKeeps(s, t);
      }
    case WaitPop(t) => TryLeaveKeeps(s, t);
    case Retry(t) =>
      if s.threads[t].PushWoken? {
        TryEnterKeeps(s, t, s.threads[t].item);
      } else {
        TryLeaveKeeps(s, t);
      }
    case Notify(t, u) => NotifyKeeps(s, t, u);
    case Spurious(t) => SpuriousKeeps(s, t);
  }

  lemma TryEnterKeeps<T>(s: State<T>, t: nat, x: T)
    requires Inv(s) && t < |s.threads| && (s.threads[t] == Outside || s.threads[t].PushWoken?)
    ensures Inv(TryEnter(s, t, x))
  {
    if Full(s) {
      CountAll(s, t, PushAsleep(x));
    } else {
      EnterKeeps(s, t, x);
    }
  }

  lemma TryLeaveKeeps<T>(s: State<T>, t: nat)
    requires Inv(s) && t < |s.threads| && (s.threads[t] == Outside || s.threads[t].PopWoken?)
    ensures Inv(TryLeave(s, t))
  {
    if s.queue == [] {
      CountAll(s, t, PopAsleep);
    } else {
      LeaveKeeps(s, t);
    }
  }

  lemma SpuriousKeeps<T>(s: State<T>, t: nat)
    requires Inv(s) && t < |s.threads| && (s.threads[t].PopAsleep? || s.threads[t].PushAsleep?)
    ensures Inv(Step(s, Spurious(t)).value)
  {
    if s.threads[t].PopAsleep? {
      CountAll(s, t, PopWoken);
    } else {
      CountAll(s, t, PushWoken(s.threads[t].item));
    }
  }

  // ---------- runs ----------

  /** Any interleaving, as long as every step can be taken. */
  function Run<T>(s: State<T>, steps: seq<Action<T>>): Option<State<T>>
    decreases |steps|
  {
    if steps == [] then Some(s)
    else
      match Step(s, steps[0])
      case None => None
      case Some(r) => Run(r, steps[1..])
  }

  /** Every interleaving of any number of threads keeps the invariant. */
  lemma {:induction false} RunKeeps<T>(s: State<T>, steps: seq<Action<T>>)
    requires Inv(s) && Run(s, steps).Some?
    ensures Inv(Run(s, steps).value) && Run(s, steps).value.max == s.max
    decreases |steps|
  {
    hide Inv;
    if steps != [] {
      StepKeeps(s, steps[0]);
      RunKeeps(Step(s, steps[0]).value, steps[1..]);
    }
  }

  /** All runs from the start: order, capacity, and no wake-up lost. */
  lemma Safe<T>(max: int, n: nat, steps: seq<Action<T>>)
    requires Run<T>(Init(max, n), steps).Some?
    ensures var s := Run<T>(Init(max, n), steps).value;
            && s.max == max && s.given <= s.taken && s.taken == s.given + s.queue
            && (max > 0 ==> |s.queue| <= max)
            && (Count(s.threads, PopSleeper) > 0 ==> |s.queue| <= Count(s.threads, PopHelper))
            && (Count(s.threads, PushSleeper) > 0 ==> max - |s.queue| <= Count(s.threads, PushHelper))
  {
    InitInv<T>(max, n);
    RunKeeps(Init(max, n), steps);
  }

  // ---------- no item and no call is lost ----------

  /** What a step brings in: an item to wait with, or one that finds room at once. */
  function Brought<T>(s: State<T>, a: Action<T>): multiset<T> {
    match a
    case PushWait(_, x) => multiset{x}
    case Push(_, x) => if s.max <= 0 || |s.queue| < s.max then multiset{x} else multiset{}
    case _ => multiset{}
  }

  /** The items that threads hold while they wait for room. */
  function Held<T>(ps: seq<Thread<T>>): multiset<T> {
    if ps == [] then multiset{} else HeldBy(ps[0]) + Held(ps[1..])
  }

  function HeldBy<T>(p: Thread<T>): multiset<T> {
    if p.PushAsleep? || p.PushWoken? then multiset{p.item} else multiset{}
  }

  /** The calls for an item: one that waits for it, or one that finds it at once. */
  function Asked<T>(s: State<T>, a: Action<T>): nat {
    match a
    case WaitPop(_) => 1
    case Pop(_) => if s.queue == [] then 0 else 1
    case _ => 0
  }

  /** The threads that wait for an item. */
  function Waiting<T>(p: Thread<T>): nat { if p.PopAsleep? || p.PopWoken? then 1 else 0 }

  lemma {:induction false} HeldSet<T>(ps: seq<Thread<T>>, t: nat, p: Thread<T>, x: T)
    requires t < |ps|
    ensures Held(ps[t := p])[x] + HeldBy(ps[t])[x] == Held(ps)[x] + HeldBy(p)[x]
  {
    hide HeldBy;
    var qs := ps[t := p];
    assert Held(ps)[x] == HeldBy(ps[0])[x] + Held(ps[1..])[x] && Held(qs)[x] == HeldBy(qs[0])[x] + Held(qs[1..])[x];
    if t > 0 {
      HeldSet(ps[1..], t - 1, p, x);
      assert qs[1..] == ps[1..][t - 1 := p];
    } else {
      assert qs[1..] == ps[1..];
    }
  }

  /** What is on its way in: the items that were taken, and those that are held. */
  function In<T>(s: State<T>): multiset<T> { multiset(s.taken) + Held(s.threads) }

  /** What is on its way out. */
  function Out<T>(s: State<T>): nat { |s.given| + Count(s.threads, Waiting) }

  /** One thread moves: what is held, with it and without. */
  lemma Moves<T>(s: State<T>, t: nat, p: Thread<T>, x: T)
    requires t < |s.threads|
    ensures var was, r := s.threads[t], Set(s, t, p);
            In(r)[x] + HeldBy(was)[x] == In(s)[x] + HeldBy(p)[x]
  {
    HeldSet(s.threads, t, p, x);
  }

  lemma EnterBalances<T>(s: State<T>, t: nat, y: T, x: T)
    requires t < |s.threads|
    ensures In(Enter(s, t, y))[x] + HeldBy(s.threads[t])[x] == In(s)[x] + multiset{y}[x]
  {
    var r := s.(queue := s.queue + [y], taken := s.taken + [y]);
    Moves(r, t, TellNotEmpty, x);
    assert multiset(r.taken)[x] == multiset(s.taken)[x] + multiset{y}[x];
    hide Held, Count;
  }

  lemma LeaveBalances<T>(s: State<T>, t: nat, x: T)
    requires t < |s.threads| && s.queue != []
    ensures In(Leave(s, t))[x] + HeldBy(s.threads[t])[x] == In(s)[x]
  {
    Moves(s.(queue := s.queue[1..], given := s.given + [s.queue[0]]), t, TellNotFull, x);
    hide Held, Count;
  }

  /** What the loop of push_wait does with an item that its thread `holds` already, or brings. */
  lemma TryEnterBalances<T>(s: State<T>, t: nat, y: T, x: T)
    requires t < |s.threads|
    ensures In(TryEnter(s, t, y))[x] + HeldBy(s.threads[t])[x] == In(s)[x] + multiset{y}[x]
  {
    hide In, Enter;
    EnterBalances(s, t, y, x);
    Moves(s, t, PushAsleep(y), x);
  }

  lemma TryLeaveBalances<T>(s: State<T>, t: nat, x: T)
    requires t < |s.threads| && !s.threads[t].PushAsleep? && !s.threads[t].PushWoken?
    ensures In(TryLeave(s, t))[x] == In(s)[x]
  {
    hide In, Leave;
    Moves(s, t, PopAsleep, x);
    if s.queue != [] { LeaveBalances(s, t, x); }
  }

  /** What a step brings in is taken or held. */
  lemma StepBalances<T>(s: State<T>, a: Action<T>, x: T)
    requires Step(s, a).Some?
    ensures In(Step(s, a).value)[x] == In(s)[x] + Brought(s, a)[x]
  {
    match a
    case Push(t, y) => PushBalances(s, t, y, x);
    case PushWait(t, y) => PushWaitBalances(s, t, y, x);
    case Pop(t) => PopBalances(s, t, x);
    case WaitPop(t) => PopBalances(s, t, x);
    case Retry(t) => RetryBalances(s, t, x);
    case Notify(t, u) => NotifyBalances(s, t, u, x);
    case Spurious(t) => WakeBalances(s, t, x);
    hide In, Enter, Leave, TryEnter, TryLeave, Count, Set, Full;
  }

  lemma PushBalances<T>(s: State<T>, t: nat, y: T, x: T)
    requires Step(s, Push(t, y)).Some?
    ensures In(Step(s, Push(t, y)).value)[x] == In(s)[x] + Brought(s, Push(t, y))[x]
  {
    hide In, Enter;
    EnterBalances(s, t, y, x);
  }

  lemma PushWaitBalances<T>(s: State<T>, t: nat, y: T, x: T)
    requires Step(s, PushWait(t, y)).Some?
    ensures In(Step(s, PushWait(t, y)).value)[x] == In(s)[x] + multiset{y}[x]
  {
    hide In, TryEnter;
    TryEnterBalances(s, t, y, x);
  }

  lemma PopBalances<T>(s: State<T>, t: nat, x: T)
    ensures Step(s, Pop(t)).Some? ==> In(Step(s, Pop(t)).value)[x] == In(s)[x]
    ensures Step(s, WaitPop(t)).Some? ==> In(Step(s, WaitPop(t)).value)[x] == In(s)[x]
  {
    hide In, Leave, TryLeave;
    if t < |s.threads| && s.threads[t] == Outside {
      TryLeaveBalances(s, t, x);
      if s.queue != [] { LeaveBalances(s, t, x); }
    }
  }

  lemma RetryBalances<T>(s: State<T>, t: nat, x: T)
    requires Step(s, Retry(t)).Some?
    ensures In(Step(s, Retry(t)).value)[x] == In(s)[x]
  {
    hide In, TryEnter, TryLeave;
    if s.threads[t].PushWoken? {
      TryEnterBalances(s, t, s.threads[t].item, x);
    } else {
      TryLeaveBalances(s, t, x);
    }
  }

  lemma NotifyBalances<T>(s: State<T>, t: nat, u: nat, x: T)
    requires Step(s, Notify(t, u)).Some?
    ensures In(Step(s, Notify(t, u)).value)[x] == In(s)[x]
  {
    hide In, Count;
    Moves(s, t, Outside, x);
    WakeBalances(Set(s, t, Outside), u, x);
  }

  lemma WakeBalances<T>(s: State<T>, u: nat, x: T)
    ensures u < |s.threads| && s.threads[u].PopAsleep? ==>
              In(Set(s, u, PopWoken))[x] == In(s)[x]
    ensures u < |s.threads| && s.threads[u].PushAsleep? ==>
              In(Set(s, u, PushWoken(s.threads[u].item)))[x] == In(s)[x]
  {
    hide In;
    if u < |s.threads| && s.threads[u].PopAsleep? {
      Moves(s, u, PopWoken, x);
    } else if u < |s.threads| && s.threads[u].PushAsleep? {
      Moves(s, u, PushWoken(s.threads[u].item), x);
    }
  }

  function BroughtIn<T>(s: State<T>, steps: seq<Action<T>>): multiset<T>
    requires Run(s, steps).Some?
    decreases |steps|
  {
    if steps == [] then multiset{} else Brought(s, steps[0]) + BroughtIn(Step(s, steps[0]).value, steps[1..])
  }

  function AskedFor<T>(s: State<T>, steps: seq<Action<T>>): nat
    requires Run(s, steps).Some?
    decreases |steps|
  {
    if steps == [] then 0 else Asked(s, steps[0]) + AskedFor(Step(s, steps[0]).value, steps[1..])
  }

  lemma {:induction false} RunBalances<T>(s: State<T>, steps: seq<Action<T>>)
    requires Run(s, steps).Some?
    ensures var r := Run(s, steps).value;
            In(r) == In(s) + BroughtIn(s, steps) && Out(r) == Out(s) + AskedFor(s, steps)
    decreases |steps|
  {
    hide Step, In, Out, Brought, Asked;
    if steps != [] {
      var r := Step(s, steps[0]).value;
      assert In(r) == In(s) + Brought(s, steps[0]) && Out(r) == Out(s) + Asked(s, steps[0]) by {
        NextBalance(s, steps[0]);
      }
      RunBalances(r, steps[1..]);
    }
  }

  lemma MovesOut<T>(s: State<T>, t: nat, p: Thread<T>)
    requires t < |s.threads|
    ensures Out(Set(s, t, p)) + Waiting(s.threads[t]) == Out(s) + Waiting(p)
  {
    CountSet(s.threads, Waiting, t, p);
  }

  lemma LeaveOut<T>(s: State<T>, t: nat)
    requires t < |s.threads| && s.queue != []
    ensures Out(Leave(s, t)) + Waiting(s.threads[t]) == Out(s) + 1
  {
    MovesOut(s.(queue := s.queue[1..], given := s.given + [s.queue[0]]), t, TellNotFull);
    hide Count;
  }

  lemma EnterOut<T>(s: State<T>, t: nat, x: T)
    requires t < |s.threads|
    ensures Out(Enter(s, t, x)) + Waiting(s.threads[t]) == Out(s)
  {
    MovesOut(s.(queue := s.queue + [x], taken := s.taken + [x]), t, TellNotEmpty);
    hide Count;
  }

  lemma WakeOut<T>(s: State<T>, u: nat)
    ensures u < |s.threads| && s.threads[u].PopAsleep? ==> Out(Set(s, u, PopWoken)) == Out(s)
    ensures u < |s.threads| && s.threads[u].PushAsleep? ==> Out(Set(s, u, PushWoken(s.threads[u].item))) == Out(s)
  {
    hide Out;
    if u < |s.threads| && s.threads[u].PopAsleep? {
      MovesOut(s, u, PopWoken);
    } else if u < |s.threads| && s.threads[u].PushAsleep? {
      MovesOut(s, u, PushWoken(s.threads[u].item));
    }
  }

  /** A call for an item that a step makes is served or waits. */
  lemma CallsBalance<T>(s: State<T>, a: Action<T>)
    requires Step(s, a).Some?
    ensures Out(Step(s, a).value) == Out(s) + Asked(s, a)
  {
    hide Out, Enter, Leave, Count;
    match a
    case Push(t, x) => EnterOut(s, t, x);
    case PushWait(t, x) =>
      EnterOut(s, t, x);
      MovesOut(s, t, PushAsleep(x));
    case Pop(t) => if s.queue != [] { LeaveOut(s, t); }
    case WaitPop(t) =>
      MovesOut(s, t, PopAsleep);
      if s.queue != [] { LeaveOut(s, t); }
    case Retry(t) =>
      if s.threads[t].PushWoken? {
        EnterOut(s, t, s.threads[t].item);
        MovesOut(s, t, PushAsleep(s.threads[t].item));
      } else {
        MovesOut(s, t, PopAsleep);
        if s.queue != [] { LeaveOut(s, t); }
      }
    case Notify(t, u) =>
      MovesOut(s, t, Outside);
      WakeOut(Set(s, t, Outside), u);
    case Spurious(t) => WakeOut(s, t);
  }

  lemma NextBalance<T>(s: State<T>, a: Action<T>)
    requires Step(s, a).Some?
    ensures In(Step(s, a).value) == In(s) + Brought(s, a) && Out(Step(s, a).value) == Out(s) + Asked(s, a)
  {
    hide Step, In, Out, Brought, Asked;
    var r, b := In(Step(s, a).value), In(s) + Brought(s, a);
    forall x | x in r || x in b ensures r[x] == b[x] {
      StepBalances(s, a, x);
    }
    SameItems(r, b);
    CallsBalance(s, a);
  }

  lemma SameItems<T>(a: multiset<T>, b: multiset<T>)
    requires forall x :: x in a || x in b ==> a[x] == b[x]
    ensures a == b
  {
    assert a <= b && b <= a;
  }

  lemma {:induction false} NothingHeld<T>(n: nat)
    ensures Held<T>(seq(n, _ => Outside)) == multiset{}
  {
    if n > 0 {
      NothingHeld<T>(n - 1);
      var ps: seq<Thread<T>> := seq(n, _ => Outside);
      assert ps[1..] == seq(n - 1, _ => Outside);
    }
  }

  /** All runs from the start: every item that was brought in is in the queue, came out, or is held by a thread
      that waits for room; and every call for an item got one or waits for it. */
  lemma Conserved<T>(max: int, n: nat, steps: seq<Action<T>>)
    requires Run<T>(Init(max, n), steps).Some?
    ensures var s := Run<T>(Init(max, n), steps).value;
            && BroughtIn(Init(max, n), steps) == multiset(s.given) + multiset(s.queue) + Held(s.threads)
            && AskedFor(Init(max, n), steps) == |s.given| + Count(s.threads, Waiting)
  {
    hide Run, Step, Held, Count, BroughtIn, AskedFor;
    var i: State<T> := Init(max, n);
    var s := Run(i, steps).value;
    Safe(max, n, steps);
    NothingHeld<T>(n);
    NoneSleeps<T>(n, Waiting);
    RunBalances(i, steps);
    assert In(i) == multiset{} && Out(i) == 0;
    assert BroughtIn(i, steps) == In(s);
    assert multiset(s.taken) == multiset(s.given) + multiset(s.queue);
  }

  predicate SomeoneSleeps<T>(s: State<T>, forItem: bool) {
    exists v :: 0 <= v < |s.threads| && if forItem then s.threads[v].PopAsleep? else s.threads[v].PushAsleep?
  }

  /** A call can begin in any state, a woken thread can go on and a sleeping one wake in any state; and a
      notification goes to any thread that sleeps there, or to none if none does. */
  lemma CanStepIff<T>(s: State<T>, a: Action<T>)
    ensures Step(s, a).Some? <==>
            && a.t < |s.threads|
            && var p := s.threads[a.t];
               match a
               case Push(_, _) => p.Outside?
               case PushWait(_, _) => p.Outside?
               case Pop(_) => p.Outside?
               case WaitPop(_) => p.Outside?
               case Retry(_) => p.PushWoken? || p.PopWoken?
               case Spurious(_) => p.PushAsleep? || p.PopAsleep?
               case Notify(_, u) =>
                 || (p.TellNotEmpty? && (!SomeoneSleeps(s, true) || (u < |s.threads| && s.threads[u].PopAsleep?)))
                 || (p.TellNotFull? && (!SomeoneSleeps(s, false) || (u < |s.threads| && s.threads[u].PushAsleep?)))
  {
    if a.Notify? && a.t < |s.threads| && (s.threads[a.t].TellNotEmpty? || s.threads[a.t].TellNotFull?) {
      SleepersIff(s, a.t);
      hide Count, SomeoneSleeps;
    }
  }

  /** Counting sleepers tells whether there are any; the thread that notifies is none of them. */
  lemma SleepersIff<T>(s: State<T>, t: nat)
    requires t < |s.threads| && (s.threads[t].TellNotEmpty? || s.threads[t].TellNotFull?)
    ensures var r := Set(s, t, Outside);
            && (Count(r.threads, PopSleeper) > 0 <==> SomeoneSleeps(s, true))
            && (Count(r.threads, PushSleeper) > 0 <==> SomeoneSleeps(s, false))
  {
    hide Count;
    var ps := Set(s, t, Outside).threads;
    if Count(ps, PopSleeper) > 0 { SomeHelps(ps, PopSleeper); }
    if Count(ps, PushSleeper) > 0 { SomeHelps(ps, PushSleeper); }
    forall v | 0 <= v < |s.threads| && s.threads[v].PopAsleep? ensures Count(ps, PopSleeper) > 0 {
      SleepersCount(ps, PopSleeper, v);
    }
    forall v | 0 <= v < |s.threads| && s.threads[v].PushAsleep? ensures Count(ps, PushSleeper) > 0 {
      SleepersCount(ps, PushSleeper, v);
    }
  }

  /** One thread acts at a time: of the others it touches one that sleeps at most, which it wakes. */
  lemma OneActs<T>(s: State<T>, a: Action<T>, v: nat)
    requires Step(s, a).Some? && v < |s.threads| && v != a.t
    ensures var r := Step(s, a).value;
            && |r.threads| == |s.threads|
            && (r.threads[v] == s.threads[v]
                || (a.Notify? && a.u == v && s.threads[v] == PopAsleep && r.threads[v] == PopWoken
                    && s.threads[a.t].TellNotEmpty?)
                || (a.Notify? && a.u == v && s.threads[v].PushAsleep? && r.threads[v] == PushWoken(s.threads[v].item)
                    && s.threads[a.t].TellNotFull?))
  {
    hide Count;
  }

  /** A thread sleeps just where the loops of the source wait: for an item when there is none, for room when
      there is none; a call that does not wait is back outside then, and nothing has changed. */
  lemma SleepsIff<T>(s: State<T>, a: Action<T>)
    requires Inv(s) && Step(s, a).Some?
    ensures var r := Step(s, a).value;
            var p := s.threads[a.t];
            && (r.threads[a.t].PopAsleep? <==> s.queue == [] && (a.WaitPop? || (a.Retry? && p.PopWoken?)))
            && (r.threads[a.t].PushAsleep? <==>
                s.max > 0 && |s.queue| == s.max && (a.PushWait? || (a.Retry? && p.PushWoken?)))
            && ((a.Pop? && s.queue == []) || (a.Push? && s.max > 0 && |s.queue| == s.max) ==> r == s)
  {
    hide Count;
  }

  /** No thread is on its way: each is outside or sleeps. */
  predicate AtRest<T>(s: State<T>)
  {
    forall t :: 0 <= t < |s.threads| ==> s.threads[t].Outside? || s.threads[t].PopAsleep? || s.threads[t].PushAsleep?
  }

  lemma {:induction false} NoneHelps<T>(ps: seq<Thread<T>>, f: Thread<T> -> nat)
    requires forall t :: 0 <= t < |ps| ==> f(ps[t]) == 0
    ensures Count(ps, f) == 0
  {
    if ps != [] {
      NoneHelps(ps[1..], f);
    }
  }

  lemma SleepersCount<T>(ps: seq<Thread<T>>, f: Thread<T> -> nat, t: nat)
    requires t < |ps|
    ensures Count(ps, f) >= f(ps[t])
  {
    CountSet(ps, f, t, ps[t]);
  }

  /**
   * Where everything has come to rest, whoever sleeps for an item sleeps because there is none, and
   * whoever sleeps for room because there is none; so not both can be asleep.
   */
  lemma RestIsDeserved<T>(s: State<T>, t: nat)
    requires Inv(s) && AtRest(s) && t < |s.threads|
    ensures s.threads[t].PopAsleep? ==> s.queue == []
    ensures s.threads[t].PushAsleep? ==> s.max > 0 && |s.queue| == s.max
  {
    NoneHelps(s.threads, PopHelper);
    NoneHelps(s.threads, PushHelper);
    SleepersCount(s.threads, PopSleeper, t);
    SleepersCount(s.threads, PushSleeper, t);
  }

  lemma {:induction false} SomeHelps<T>(ps: seq<Thread<T>>, f: Thread<T> -> nat)
    requires Count(ps, f) > 0
    ensures exists t :: 0 <= t < |ps| && f(ps[t]) > 0
  {
    if f(ps[0]) == 0 {
      SomeHelps(ps[1..], f);
      var t :| 0 <= t < |ps[1..]| && f(ps[1..][t]) > 0;
      assert f(ps[t + 1]) > 0;
    }
  }

  /**
   * A thread that sleeps for an item while there is one is not forgotten: some thread can take a
   * step now, which takes an item or wakes a sleeper.
   */
  lemma NotForgotten<T>(s: State<T>, t: nat)
    requires Inv(s) && t < |s.threads| && s.threads[t].PopAsleep? && s.queue != []
    ensures exists h :: 0 <= h < |s.threads| &&
              if s.threads[h].PopWoken? then Step(s, Retry(h)) == Some(Leave(s, h))
              else s.threads[h].TellNotEmpty? && Step(s, Notify(h, t)).Some?
                   && Step(s, Notify(h, t)).value.threads[t] == PopWoken
  {
    SleepersCount(s.threads, PopSleeper, t);
    SomeHelps(s.threads, PopHelper);
    var h :| 0 <= h < |s.threads| && PopHelper(s.threads[h]) > 0;
    if s.threads[h].TellNotEmpty? {
      SleepersCount(Set(s, h, Outside).threads, PopSleeper, t);
    }
  }

  /** The same for a thread that sleeps for room while there is some. */
  lemma NotForgottenPush<T>(s: State<T>, t: nat)
    requires Inv(s) && t < |s.threads| && s.threads[t].PushAsleep? && |s.queue| < s.max
    ensures exists h :: 0 <= h < |s.threads| &&
              if s.threads[h].PushWoken? then Step(s, Retry(h)) == Some(Enter(s, h, s.threads[h].item))
              else s.threads[h].TellNotFull? && Step(s, Notify(h, t)).Some?
                   && Step(s, Notify(h, t)).value.threads[t] == PushWoken(s.threads[t].item)
  {
    SleepersCount(s.threads, PushSleeper, t);
    SomeHelps(s.threads, PushHelper);
    var h :| 0 <= h < |s.threads| && PushHelper(s.threads[h]) > 0;
    if s.threads[h].TellNotFull? {
      SleepersCount(Set(s, h, Outside).threads, PushSleeper, t);
    }
  }
}
