/** The scheduler of Mini-OS (extras/mini-os/sched.c): a list of threads of which the first that can
run is taken and put last. */
module RunQueue {
  import opened Sequences

  const TEN_SECONDS: int := 10_000_000_000

  /** The thread list, the threads whose runnable flag is set, and the time at which each sleeping
      thread is to wake up; a thread without one has a wakeup_time of 0. */
  datatype Threads = Threads(list: seq<nat>, runnable: set<nat>, wakeup: map<nat, int>)

  predicate Ready(s: Threads, t: nat, now: int) {
    t in s.runnable || (t in s.wakeup && s.wakeup[t] <= now)
  }

  function Woken(s: Threads, t: nat): Threads {
    s.(runnable := s.runnable + {t}, wakeup := s.wakeup - {t})
  }

  function Rotated(list: seq<nat>, i: nat): seq<nat>
    requires i < |list|
  {
    list[..i] + list[i + 1..] + [list[i]]
  }

  /** The position of the first thread that can run, or the length of the list. */
  function First(s: Threads, now: int, i: nat): (r: nat)
    requires i <= |s.list|
    ensures i <= r <= |s.list| && (r < |s.list| ==> Ready(s, s.list[r], now))
    ensures forall k :: i <= k < r ==> !Ready(s, s.list[k], now)
    decreases |s.list| - i
  {
    if i == |s.list| || Ready(s, s.list[i], now) then i else First(s, now, i + 1)
  }

  /** The threads after the one at position `i` was picked. */
  function Picked(s: Threads, i: nat): Threads
    requires i < |s.list|
  {
    var t := s.list[i];
    var s' := s.(list := Rotated(s.list, i));
    if t in s.runnable then s' else Woken(s', t)
  }

  /** The time is in the next ten seconds, not behind any of the first `i` sleepers, and that of one of
      them unless it is ten seconds away. */
  predicate NextDue(s: Threads, i: nat, now: int, due: int) {
    && i <= |s.list| && now < due <= now + TEN_SECONDS
    && (forall k :: 0 <= k < i && s.list[k] in s.wakeup ==> due <= s.wakeup[s.list[k]])
    && (due < now + TEN_SECONDS ==> exists k :: 0 <= k < i && s.list[k] in s.wakeup && s.wakeup[s.list[k]] == due)
  }

  lemma NobodyDue(s: Threads, now: int)
    ensures NextDue(s, 0, now, now + TEN_SECONDS)
  {
  }

  lemma DueStep(s: Threads, i: nat, now: int, due: int, due': int)
    requires NextDue(s, i, now, due) && i < |s.list|
    requires var t := s.list[i];
             && (t in s.wakeup ==> s.wakeup[t] > now)
             && due' == if t in s.wakeup && s.wakeup[t] < due then s.wakeup[t] else due
    ensures NextDue(s, i + 1, now, due')
  {
    var t := s.list[i];
    if t in s.wakeup && s.wakeup[t] < due {
      assert s.list[i] in s.wakeup && s.wakeup[s.list[i]] == due';
    }
  }

  // --------------------------------------------------------------- operations

  class Scheduler {
    var list: seq<nat>
    var runnable: set<nat>
    var wakeup: map<nat, int>

    ghost function View(): Threads
      reads this
    {
      Threads(list, runnable, wakeup)
    }

    /** wake. */
    method Wake(t: nat)
      modifies `runnable, `wakeup
      ensures View() == Woken(old(View()), t)
    {
      wakeup := wakeup - {t};
      runnable := runnable + {t};
    }

    /** block. */
    method Block(t: nat)
      modifies `runnable, `wakeup
      ensures View() == Threads(list, old(runnable) - {t}, old(wakeup) - {t})
    {
      wakeup := wakeup - {t};
      runnable := runnable - {t};
    }

    /** msleep up to its call of schedule. */
    method Sleep(current: nat, until: int)
      modifies `runnable, `wakeup
      ensures View() == Threads(list, old(runnable) - {current}, old(wakeup)[current := until])
    {
      wakeup := wakeup[current := until];
      runnable := runnable - {current};
    }

    /** create_thread. */
    method Create(t: nat)
      modifies `list, `runnable, `wakeup
      ensures View() == Threads(old(list) + [t], old(runnable) + {t}, old(wakeup) - {t})
    {
      wakeup := wakeup - {t};
      runnable := runnable + {t};
      list := list + [t];
    }

    /** exit_thread up to its call of schedule. */
    method Exit(t: nat, ghost i: nat)
      requires i < |list| && list[i] == t
      modifies `list, `runnable
      ensures View() == Threads(Minus(old(list), t), old(runnable) - {t}, wakeup)
    {
      list := Minus(list, t);
      runnable := runnable - {t};
    }

    /** One pass of schedule over the list: the thread to run, or the time until which the domain is
        to block, which is when the next sleeper is due but not more than ten seconds away. */
    method Schedule(now: int) returns (found: bool, next: nat, due: int)
      modifies `list, `runnable, `wakeup
      ensures found <==> First(old(View()), now, 0) < |old(list)|
      ensures found ==> next == old(list)[First(old(View()), now, 0)]
      ensures found ==> View() == Picked(old(View()), First(old(View()), now, 0))
      ensures !found ==> View() == old(View()) && NextDue(View(), |list|, now, due)
    {
      hide NextDue;
      due := now + TEN_SECONDS;
      next := 0;
      var i := 0;
      NobodyDue(View(), now);
      while i < |list|
        invariant 0 <= i <= |list| && View() == old(View())
        invariant First(View(), now, 0) == First(View(), now, i)
        invariant NextDue(View(), i, now, due)
      {
        var t := list[i];
        ghost var before := due;
        if t !in runnable && t in wakeup {
          if wakeup[t] <= now {
            Wake(t);
          } else if wakeup[t] < due {
            due := wakeup[t];
          }
        }
        if t in runnable {
          list := list[..i] + list[i + 1..] + [t];
          return true, t, due;
        }
        DueStep(View(), i, now, before, due);
        i := i + 1;
      }
      found := false;
    }
  }

  // --------------------------------------------------------------------- runs

  /** What can happen between and at selections. */
  datatype Event =
    | Select
    | Create(t: nat)
    | Exit(t: nat)
    | Block(t: nat)
    | Wake(t: nat)
    | Sleep(t: nat, until: int)
    | Tick(time: int)

  datatype State = State(s: Threads, now: int)

  predicate Enabled(st: State, e: Event) {
    match e
    case Select => First(st.s, st.now, 0) < |st.s.list|
    case Create(t) => t !in st.s.list
    case Exit(t) => t in st.s.list
    case Tick(time) => time >= st.now
    case _ => true
  }

  /** The thread a selection takes. */
  function Chosen(st: State): nat
    requires Enabled(st, Select)
  {
    st.s.list[First(st.s, st.now, 0)]
  }

  function Next(st: State, e: Event): State
    requires Enabled(st, e)
  {
    var s := st.s;
    match e
    case Select => st.(s := Picked(s, First(s, st.now, 0)))
    case Create(t) => st.(s := Threads(s.list + [t], s.runnable + {t}, s.wakeup - {t}))
    case Exit(t) => st.(s := Threads(Minus(s.list, t), s.runnable - {t}, s.wakeup))
    case Block(t) => st.(s := Threads(s.list, s.runnable - {t}, s.wakeup - {t}))
    case Wake(t) => st.(s := Woken(s, t))
    case Sleep(t, until) => st.(s := Threads(s.list, s.runnable - {t}, s.wakeup[t := until]))
    case Tick(time) => st.(now := time)
  }

  function Position(list: seq<nat>, t: nat): (i: nat)
    ensures i <= |list| && (i < |list| <==> t in list) && (i < |list| ==> list[i] == t)
    ensures forall k :: 0 <= k < i ==> list[k] != t
  {
    if list == [] || list[0] == t then 0 else 1 + Position(list[1..], t)
  }

  lemma PositionIs(list: seq<nat>, t: nat, i: nat)
    requires NoRepeat(list) && i < |list| && list[i] == t
    ensures Position(list, t) == i
  {
  }

  lemma {:induction false} MinusKeeps(list: seq<nat>, x: nat, t: nat)
    requires NoRepeat(list) && t in list && t != x
    ensures NoRepeat(Minus(list, x)) && t in Minus(list, x)
    ensures Position(Minus(list, x), t) <= Position(list, t)
  {
    MinusNoRepeat(list, x);
    if list[0] == x {
      PositionIs(list[1..], t, Position(list, t) - 1);
    } else if list[0] != t {
      MinusKeeps(list[1..], x, t);
    }
  }

  lemma RotatedAt(list: seq<nat>, i: nat, k: nat)
    requires i < |list| && k < |list|
    ensures |Rotated(list, i)| == |list|
    ensures Rotated(list, i)[k] == if k < i then list[k] else if k < |list| - 1 then list[k + 1] else list[i]
  {
  }

  lemma RotatedDistinct(list: seq<nat>, i: nat)
    requires NoRepeat(list) && i < |list|
    ensures NoRepeat(Rotated(list, i))
  {
    var r := Rotated(list, i);
    forall k, m | 0 <= k < m < |r|
      ensures r[k] != r[m]
    {
      RotatedAt(list, i, k);
      RotatedAt(list, i, m);
    }
  }

  lemma RotatedForward(list: seq<nat>, i: nat, t: nat)
    requires NoRepeat(list) && i < |list| && t in list && i < Position(list, t)
    ensures t in Rotated(list, i) && Position(Rotated(list, i), t) == Position(list, t) - 1
  {
    var p := Position(list, t);
    RotatedAt(list, i, p - 1);
    RotatedDistinct(list, i);
    PositionIs(Rotated(list, i), t, p - 1);
  }

  predicate Wf(st: State) {
    NoRepeat(st.s.list)
  }

  lemma WfKept(st: State, e: Event)
    requires Wf(st) && Enabled(st, e)
    ensures Wf(Next(st, e))
  {
    if e.Select? {
      RotatedDistinct(st.s.list, First(st.s, st.now, 0));
    } else if e.Exit? {
      MinusNoRepeat(st.s.list, e.t);
    }
  }

  /** Thread `t` waits across the event: it does not leave, and where threads are selected it could
      run but another is taken. */
  predicate Waits(st: State, e: Event, t: nat) {
    && t in st.s.list && e != Exit(t)
    && (e.Select? && Enabled(st, e) ==> Ready(st.s, t, st.now) && Chosen(st) != t)
  }

  /** A thread that waits moves one place forward at each selection and never back. */
  lemma WaitingAdvances(st: State, e: Event, t: nat)
    requires Wf(st) && Enabled(st, e) && Waits(st, e, t)
    ensures var l, l' := st.s.list, Next(st, e).s.list;
            && t in l' && Position(l', t) <= Position(l, t) - (if e.Select? then 1 else 0)
  {
    var l := st.s.list;
    if e.Select? {
      RotatedForward(l, First(st.s, st.now, 0), t);
    } else if e.Exit? {
      MinusKeeps(l, e.t, t);
    } else if e.Create? {
      var p := Position(l, t);
      assert (l + [e.t])[p] == t;
      PositionIs(l + [e.t], t, p);
    }
  }

  ghost predicate Run(states: seq<State>, events: seq<Event>) {
    && |states| == |events| + 1 && Wf(states[0])
    && forall i :: 0 <= i < |events| ==> Enabled(states[i], events[i]) && states[i + 1] == Next(states[i], events[i])
  }

  function Selections(events: seq<Event>): nat {
    if events == [] then 0 else (if events[|events| - 1].Select? then 1 else 0) + Selections(events[..|events| - 1])
  }

  lemma {:induction false} WaitingIsBounded(states: seq<State>, events: seq<Event>, t: nat, n: nat)
    requires Run(states, events) && n <= |events|
    requires forall i :: 0 <= i < n ==> Waits(states[i], events[i], t)
    requires t in states[0].s.list
    ensures Wf(states[n]) && t in states[n].s.list
    ensures Selections(events[..n]) + Position(states[n].s.list, t) <= Position(states[0].s.list, t)
  {
    if n > 0 {
      WaitingIsBounded(states, events, t, n - 1);
      WfKept(states[n - 1], events[n - 1]);
      WaitingAdvances(states[n - 1], events[n - 1], t);
      assert events[..n][..n - 1] == events[..n - 1];
    }
  }

  /** Bounded waiting over every run: a thread at position `k` that stays in the list and is ready at
      each selection is taken by one of the first `k + 1` selections. */
  lemma BoundedWaiting(states: seq<State>, events: seq<Event>, t: nat)
    requires Run(states, events) && t in states[0].s.list
    requires forall i :: 0 <= i < |events| ==> t in states[i].s.list && events[i] != Exit(t)
    requires forall i :: 0 <= i < |events| && events[i].Select? ==> Ready(states[i].s, t, states[i].now)
    requires Selections(events) > Position(states[0].s.list, t)
    ensures exists i :: 0 <= i < |events| && events[i].Select? && Chosen(states[i]) == t
  {
    assert events[..|events|] == events;
    if forall i :: 0 <= i < |events| && events[i].Select? ==> Chosen(states[i]) != t {
      WaitingIsBounded(states, events, t, |events|);
    }
  }
}
