/** The credit scheduler of the A3 GPU device model (tools/a3/credit_scheduler.cc and
context_sched.cc) as a transition system: any number of threads that enqueue commands, the thread
that dispatches them, and the thread that replenishes the budgets. A step is what a thread does
between two points at which another may come in. */
module CreditScheduler {
  import opened Sequences

  type Cmd = nat

  /** Where the dispatcher is. From `Dequeue` to `Charge` it holds the fire mutex, except that at
      `Dequeue` it has yet to take it. */
  datatype Pc =
    | Check                               // about to look at the counter
    | Sleep                               // waiting on the condition variable
    | Select(idle: bool)
    | Scan(at: nat)                       // looking for a context, with the scheduler mutex
    | Decrement(ctx: nat)
    | Dequeue(ctx: nat)
    | Write(ctx: nat, cmd: Cmd)
    | Active(ctx: nat)                    // the GPU is at work
    | Charge(ctx: nat, time: int)

  /** Where the replenisher is: outside, holding the scheduler mutex and waiting for the fire mutex,
      or holding both with the contexts before position `next` of the list done. */
  datatype Repl = Outside | Waiting | Inside(next: nat, credit: int, idle: bool)

  datatype Current = Nobody | Ctx(ctx: nat)

  datatype State = State(
    queues: seq<seq<Cmd>>,                // suspended_ of each context
    counter: int,
    arriving: nat,                        // threads between pushing a command and counting it
    pc: Pc,
    idleSeen: bool,
    order: seq<nat>,                      // contexts(), as a list
    current: Current,
    budget: seq<int>,
    used: seq<int>,                       // bandwidth_used_ of each context
    bandwidth: int,
    gpuIdle: int,
    repl: Repl,
    pushed: seq<seq<Cmd>>,                // ghost: every command that ever arrived, by context
    sent: seq<seq<Cmd>>)                  // ghost: every command written to the GPU, by context

  datatype Step =
    | Push(ctx: nat, cmd: Cmd)
    | Count
    | Look
    | Wake
    | Lower(elapsed: int)
    | Probe
    | Take
    | Fetch
    | Submit
    | Finish(time: int)
    | Account
    | ReplLock
    | ReplFire
    | ReplNext
    | ReplDone

  function Contexts(s: State): nat {
    |s.queues|
  }

  // ---------------------------------------------------------------- dispatcher

  predicate Suspended(queues: seq<seq<Cmd>>, c: nat) {
    c < |queues| && queues[c] != []
  }

  /** Lowering the priority: a current context in debt goes to the end of the list. */
  function Lowered(order: seq<nat>, current: Current, budget: seq<int>): seq<nat> {
    if current.Ctx? && current.ctx < |budget| && budget[current.ctx] < 0 && current.ctx in order
    then Minus(order, current.ctx) + [current.ctx] else order
  }

  function LookStep(s: State): State {
    if s.counter == 0 then s.(pc := Sleep, idleSeen := true) else s.(pc := Select(s.idleSeen))
  }

  /** select_next_context up to its loop. */
  function LowerStep(s: State, elapsed: int): State
    requires s.pc.Select?
  {
    s.(gpuIdle := if s.pc.idle then s.gpuIdle + elapsed else s.gpuIdle,
       order := Lowered(s.order, s.current, s.budget), idleSeen := false, pc := Scan(0))
  }

  /** One turn of its loop, and what run makes of the answer. */
  function ProbeStep(s: State): State
    requires s.pc.Scan?
  {
    if s.pc.at >= |s.order| then s.(pc := Check, current := Nobody)
    else
      var c := s.order[s.pc.at];
      if Suspended(s.queues, c) then s.(pc := Decrement(c), current := Ctx(c)) else s.(pc := Scan(s.pc.at + 1))
  }

  // --------------------------------------------------------------- replenisher

  /** context::replenish on one budget. */
  function Replenished(budget: int, credit: int, defaults: int, idle: bool): int {
    var b := budget + credit;
    if idle && b >= defaults then defaults
    else
      var b' := if b > 2 * credit then defaults else b;
      if b' < -(2 * credit) then 0 else b'
  }

  // -------------------------------------------------------------------- steps

  predicate HoldsFire(pc: Pc) {
    pc.Write? || pc.Active? || pc.Charge?
  }

  /** The step can be taken: the thread is there and the mutexes it needs are free. */
  predicate Enabled(s: State, step: Step) {
    match step
    case Push(c, cmd) => c < Contexts(s)
    case Count => s.arriving > 0
    case Look => s.pc.Check?
    case Wake => s.pc.Sleep?
    case Lower(elapsed) => s.pc.Select? && s.repl.Outside? && elapsed >= 0
    case Probe => s.pc.Scan?
    case Take => s.pc.Decrement?
    case Fetch => s.pc.Dequeue? && s.pc.ctx < Contexts(s) && !s.repl.Inside?
    case Submit => s.pc.Write? && s.pc.ctx < Contexts(s)
    case Finish(time) => s.pc.Active? && time >= 0
    case Account => s.pc.Charge? && s.pc.ctx < Contexts(s)
    case ReplLock => s.repl.Outside? && Contexts(s) > 0 && !s.pc.Scan?
    case ReplFire => s.repl.Waiting? && !HoldsFire(s.pc) && Contexts(s) > 0
    case ReplNext => s.repl.Inside? && s.repl.next < |s.order| && s.order[s.repl.next] < Contexts(s)
    case ReplDone => s.repl.Inside? && s.repl.next == |s.order|
  }

  predicate Shape(s: State) {
    && |s.queues| == |s.budget| == |s.used| == |s.pushed| == |s.sent|
    && (s.repl.Inside? ==> s.repl.next <= |s.order|)
  }

  /** `defaults` is the configured period shared out over the contexts. */
  function Next(s: State, step: Step, defaults: int): State
    requires Shape(s) && Enabled(s, step)
  {
    match step
    case Push(c, cmd) =>
      s.(queues := s.queues[c := s.queues[c] + [cmd]], pushed := s.pushed[c := s.pushed[c] + [cmd]],
         arriving := s.arriving + 1)
    case Count =>
      s.(counter := s.counter + 1, arriving := s.arriving - 1, pc := if s.pc.Sleep? then Check else s.pc)
    case Look => LookStep(s)
    case Wake => s.(pc := Check)
    case Lower(elapsed) => LowerStep(s, elapsed)
    case Probe => ProbeStep(s)
    case Take => s.(counter := s.counter - 1, pc := Dequeue(s.pc.ctx))
    case Fetch => FetchStep(s)
    case Submit => s.(sent := s.sent[s.pc.ctx := s.sent[s.pc.ctx] + [s.pc.cmd]], pc := Active(s.pc.ctx))
    case Finish(time) => s.(bandwidth := s.bandwidth + time, pc := Charge(s.pc.ctx, time))
    case Account =>
      s.(budget := s.budget[s.pc.ctx := s.budget[s.pc.ctx] - s.pc.time],
         used := s.used[s.pc.ctx := s.used[s.pc.ctx] + s.pc.time], pc := Check)
    case ReplLock => s.(repl := Waiting)
    case ReplFire => FireStep(s)
    case ReplNext =>
      var c := s.order[s.repl.next];
      s.(budget := s.budget[c := Replenished(s.budget[c], s.repl.credit, defaults, s.repl.idle)],
         used := s.used[c := 0], repl := s.repl.(next := s.repl.next + 1))
    case ReplDone => s.(bandwidth := 0, gpuIdle := 0, repl := Outside)
  }

  /** submit up to the dequeue; an empty queue would leave the command unset. */
  function FetchStep(s: State): State
    requires s.pc.Dequeue? && s.pc.ctx < Contexts(s)
  {
    var q := s.queues[s.pc.ctx];
    if q == [] then s.(pc := Write(s.pc.ctx, 0))
    else s.(queues := s.queues[s.pc.ctx := q[1..]], pc := Write(s.pc.ctx, q[0]))
  }

  /** The replenisher has both mutexes: with nothing used and no idle time there is nothing to share
      out, and it only clears the totals. */
  function FireStep(s: State): State
    requires Contexts(s) > 0
  {
    var period := s.bandwidth + s.gpuIdle;
    if period != 0 then s.(repl := Inside(0, Div(period, Contexts(s)), s.bandwidth == 0))
    else s.(bandwidth := 0, gpuIdle := 0, repl := Outside)
  }

  /** Division of durations, which rounds towards zero. */
  function Div(a: int, n: nat): int
    requires n > 0
  {
    if a >= 0 then a / n else -((-a) / n)
  }

  function Init(n: nat): State {
    State(seq(n, _ => []), 0, 0, Check, false, seq(n, i => i), Nobody, seq(n, _ => 0), seq(n, _ => 0), 0, 0, Outside,
          seq(n, _ => []), seq(n, _ => []))
  }

  // -------------------------------------------------------------------- sums

  function Total(queues: seq<seq<Cmd>>): nat {
    if queues == [] then 0 else |queues[0]| + Total(queues[1..])
  }

  function Sum(times: seq<int>): int {
    if times == [] then 0 else times[0] + Sum(times[1..])
  }

  lemma {:induction false} TotalUpdate(queues: seq<seq<Cmd>>, c: nat, q: seq<Cmd>)
    requires c < |queues|
    ensures Total(queues[c := q]) == Total(queues) - |queues[c]| + |q|
  {
    if c == 0 {
      assert queues[c := q][1..] == queues[1..];
    } else {
      TotalUpdate(queues[1..], c - 1, q);
      assert queues[c := q][1..] == queues[1..][c - 1 := q];
    }
  }

  lemma {:induction false} SumUpdate(times: seq<int>, c: nat, t: int)
    requires c < |times|
    ensures Sum(times[c := t]) == Sum(times) - times[c] + t
  {
    if c == 0 {
      assert times[c := t][1..] == times[1..];
    } else {
      SumUpdate(times[1..], c - 1, t);
      assert times[c := t][1..] == times[1..][c - 1 := t];
    }
  }

  lemma {:induction false} SumZero(times: seq<int>)
    requires forall i :: 0 <= i < |times| ==> times[i] == 0
    ensures Sum(times) == 0
  {
    if times != [] {
      SumZero(times[1..]);
    }
  }

  lemma {:induction false} TotalEmpty(queues: seq<seq<Cmd>>)
    requires forall i :: 0 <= i < |queues| ==> queues[i] == []
    ensures Total(queues) == 0
  {
    if queues != [] {
      TotalEmpty(queues[1..]);
    }
  }

  // --------------------------------------------------------------- invariants

  /** The list holds every context once. */
  predicate Listed(order: seq<nat>, n: nat) {
    && |order| == n && NoRepeat(order)
    && (forall i :: 0 <= i < n ==> order[i] < n) && (forall c :: 0 <= c < n ==> c in order)
  }

  predicate PcIn(pc: Pc, n: nat) {
    (pc.Decrement? || pc.Dequeue? || pc.Write? || pc.Active? || pc.Charge?) ==> pc.ctx < n
  }

  predicate Places(s: State) {
    && Shape(s) && Listed(s.order, Contexts(s)) && PcIn(s.pc, Contexts(s))
    && (s.current.Ctx? ==> s.current.ctx < Contexts(s))
    && (s.repl.Inside? ==> !HoldsFire(s.pc)) && (s.pc.Scan? ==> s.repl.Outside?)
  }

  /** Every queued command is counted, about to be counted, or already taken off the count. */
  predicate Counted(s: State) {
    && Total(s.queues) == s.counter + s.arriving + (if s.pc.Dequeue? then 1 else 0)
    && s.counter >= (if s.pc.Select? || s.pc.Scan? || s.pc.Decrement? then 1 else 0)
    && (s.pc.Sleep? ==> s.counter == 0)
  }

  /** The dispatcher will find the command it goes for. */
  predicate Found(s: State) {
    && ((s.pc.Decrement? || s.pc.Dequeue?) ==> Suspended(s.queues, s.pc.ctx))
    && (s.pc.Scan? ==> exists k :: s.pc.at <= k < |s.order| && Suspended(s.queues, s.order[k]))
  }

  function Inflight(pc: Pc, c: nat): seq<Cmd> {
    if pc.Write? && pc.ctx == c then [pc.cmd] else []
  }

  /** What arrived for a context is what was sent, what is on its way, and what is queued. */
  predicate Streams(s: State)
    requires Shape(s)
  {
    forall c :: 0 <= c < Contexts(s) ==> s.pushed[c] == s.sent[c] + Inflight(s.pc, c) + s.queues[c]
  }

  /** Giving every context this credit shares out no more than the total. */
  predicate Shared(credit: int, n: nat, total: int) {
    credit >= 0 && credit * n <= total
  }

  lemma DivShares(total: int, n: nat)
    requires total >= 0 && n > 0
    ensures Shared(Div(total, n), n, total)
  {
  }

  predicate Cleared(used: seq<int>, c: nat) {
    c < |used| && used[c] == 0
  }

  /** The time used by the contexts adds up, but for what is being booked; and a replenishment shares
      out no more than the time used and idled away. */
  predicate Funds(s: State)
    requires Shape(s)
  {
    && s.bandwidth >= 0 && s.gpuIdle >= 0
    && (s.pc.Charge? ==> s.pc.time >= 0)
    && (s.repl.Inside? ==> Shared(s.repl.credit, Contexts(s), s.bandwidth + s.gpuIdle))
    && (if s.repl.Inside? then forall k :: 0 <= k < s.repl.next ==> Cleared(s.used, s.order[k])
        else Sum(s.used) + (if s.pc.Charge? then s.pc.time else 0) == s.bandwidth)
  }

  /** The budget is at the default or within twice the credit. */
  predicate Bounded(budget: seq<int>, c: nat, credit: int, defaults: int) {
    c < |budget| && (budget[c] == defaults || -(2 * credit) <= budget[c] <= 2 * credit)
  }

  /** So is every budget that the replenisher has passed. */
  predicate Budgeted(s: State, defaults: int)
    requires Shape(s)
  {
    s.repl.Inside? ==>
      forall k :: 0 <= k < s.repl.next ==> Bounded(s.budget, s.order[k], s.repl.credit, defaults)
  }

  predicate Inv(s: State, defaults: int) {
    Places(s) && Counted(s) && Found(s) && Streams(s) && Funds(s) && Budgeted(s, defaults)
  }

  // ----------------------------------------------------------------- each step

  lemma LoweredListed(order: seq<nat>, current: Current, budget: seq<int>, n: nat)
    requires Listed(order, n)
    ensures Listed(Lowered(order, current, budget), n)
  {
    if current.Ctx? && current.ctx in order {
      MinusNoRepeat(order, current.ctx);
      var w := Minus(order, current.ctx);
      assert forall i :: 0 <= i < |w| ==> w[i] in w;
      assert forall x :: x in order ==> x < n;
    }
  }

  lemma PlacesKept(s: State, step: Step, defaults: int)
    requires Places(s) && Enabled(s, step)
    ensures Places(Next(s, step, defaults))
  {
    hide Listed, Lowered, Replenished;
    if step.Lower? {
      LoweredListed(s.order, s.current, s.budget, Contexts(s));
    }
  }

  lemma CountedKept(s: State, step: Step, defaults: int)
    requires Places(s) && Counted(s) && Found(s) && Enabled(s, step)
    ensures Counted(Next(s, step, defaults))
  {
    hide Total, Listed, Lowered, Replenished;
    if step.Push? {
      TotalUpdate(s.queues, step.ctx, s.queues[step.ctx] + [step.cmd]);
    } else if step.Fetch? {
      TotalUpdate(s.queues, s.pc.ctx, s.queues[s.pc.ctx][1..]);
    }
  }

  /** With the count above zero some context of the list has a command. */
  lemma SomeSuspended(s: State, order: seq<nat>)
    requires Listed(order, Contexts(s)) && Total(s.queues) > 0
    ensures exists k :: 0 <= k < |order| && Suspended(s.queues, order[k])
  {
    if forall c :: 0 <= c < |s.queues| ==> s.queues[c] == [] {
      TotalEmpty(s.queues);
    } else {
      var c :| 0 <= c < |s.queues| && s.queues[c] != [];
      assert c in order;
      var k :| 0 <= k < |order| && order[k] == c;
      assert Suspended(s.queues, order[k]);
    }
  }

  lemma FoundKept(s: State, step: Step, defaults: int)
    requires Places(s) && Counted(s) && Found(s) && Enabled(s, step)
    ensures Found(Next(s, step, defaults))
  {
    hide Total, Lowered, Replenished;
    var t := Next(s, step, defaults);
    if step.Lower? {
      LoweredListed(s.order, s.current, s.budget, Contexts(s));
      SomeSuspended(s, t.order);
    } else if s.pc.Scan? {
      var k :| s.pc.at <= k < |s.order| && Suspended(s.queues, s.order[k]);
      assert Suspended(t.queues, s.order[k]);
    }
  }

  lemma StreamKept(s: State, step: Step, defaults: int, c: nat)
    requires Places(s) && Found(s) && Streams(s) && Enabled(s, step) && c < Contexts(s)
    ensures var t := Next(s, step, defaults);
            Shape(t) && Contexts(t) == Contexts(s) && t.pushed[c] == t.sent[c] + Inflight(t.pc, c) + t.queues[c]
  {
    hide Listed, Lowered, Replenished;
    var sent, q := s.sent[c], s.queues[c];
    assert s.pushed[c] == sent + Inflight(s.pc, c) + q;
    if step.Push? && step.ctx == c {
      Regroup(sent + Inflight(s.pc, c), q, [step.cmd]);
    } else if step.Fetch? && s.pc.ctx == c {
      assert sent + [] + q == sent + [q[0]] + q[1..];
    } else if step.Submit? && s.pc.ctx == c {
      assert sent + [s.pc.cmd] + q == (sent + [s.pc.cmd]) + [] + q;
    }
  }

  lemma StreamsKept(s: State, step: Step, defaults: int)
    requires Places(s) && Found(s) && Streams(s) && Enabled(s, step)
    ensures Shape(Next(s, step, defaults)) && Streams(Next(s, step, defaults))
  {
    PlacesKept(s, step, defaults);
    var t := Next(s, step, defaults);
    hide Next, Inflight;
    forall c | 0 <= c < Contexts(t)
      ensures t.pushed[c] == t.sent[c] + Inflight(t.pc, c) + t.queues[c]
    {
      StreamKept(s, step, defaults, c);
    }
  }

  lemma AllCleared(s: State)
    requires Places(s) && Funds(s) && s.repl.Inside? && s.repl.next == |s.order|
    ensures forall c :: 0 <= c < |s.used| ==> s.used[c] == 0
  {
    forall c | 0 <= c < |s.used|
      ensures s.used[c] == 0
    {
      assert c in s.order;
      var k :| 0 <= k < |s.order| && s.order[k] == c;
      assert Cleared(s.used, s.order[k]);
    }
  }

  lemma FundsKept(s: State, step: Step, defaults: int)
    requires Places(s) && Funds(s) && Enabled(s, step)
    ensures Shape(Next(s, step, defaults)) && Funds(Next(s, step, defaults))
  {
    hide Listed, Lowered, Replenished, Sum, Shared, Div;
    if step.ReplFire? {
      DivShares(s.bandwidth + s.gpuIdle, Contexts(s));
    }
    if step.Account? {
      SumUpdate(s.used, s.pc.ctx, s.used[s.pc.ctx] + s.pc.time);
    } else if step.ReplDone? {
      AllCleared(s);
      SumZero(s.used);
    }
  }

  /** Between two contexts of a replenishment no time is booked. */
  lemma BudgetedKept(s: State, step: Step, defaults: int)
    requires Places(s) && Funds(s) && Budgeted(s, defaults) && Enabled(s, step)
    ensures Shape(Next(s, step, defaults)) && Budgeted(Next(s, step, defaults), defaults)
  {
    hide Listed, Lowered, Sum, Div;
  }

  lemma InvKept(s: State, step: Step, defaults: int)
    requires Inv(s, defaults) && Enabled(s, step)
    ensures Inv(Next(s, step, defaults), defaults) && Contexts(Next(s, step, defaults)) == Contexts(s)
  {
    assert Contexts(Next(s, step, defaults)) == Contexts(s);
    hide Next, Places, Counted, Found, Streams, Funds, Budgeted;
    PlacesKept(s, step, defaults);
    CountedKept(s, step, defaults);
    FoundKept(s, step, defaults);
    StreamsKept(s, step, defaults);
    FundsKept(s, step, defaults);
    BudgetedKept(s, step, defaults);
  }

  lemma InvInit(n: nat, defaults: int)
    ensures Inv(Init(n), defaults)
  {
    var s := Init(n);
    TotalEmpty(s.queues);
    SumZero(s.used);
    forall c | 0 <= c < n
      ensures c in s.order
    {
      assert s.order[c] == c;
    }
  }

  // ------------------------------------------------------------------ all runs

  /** Every step of the run is one a thread can take. */
  ghost predicate Run(states: seq<State>, steps: seq<Step>, defaults: int, n: nat) {
    && |states| == |steps| + 1 && states[0] == Init(n)
    && forall i :: 0 <= i < |steps| ==>
         Shape(states[i]) && Enabled(states[i], steps[i]) && states[i + 1] == Next(states[i], steps[i], defaults)
  }

  ghost predicate Reachable(s: State, defaults: int, n: nat) {
    exists states, steps :: Run(states, steps, defaults, n) && s == states[|steps|]
  }

  lemma {:induction false} RunInv(states: seq<State>, steps: seq<Step>, defaults: int, n: nat, k: nat)
    requires Run(states, steps, defaults, n) && k <= |steps|
    ensures Inv(states[k], defaults) && Contexts(states[k]) == n
  {
    hide Next, Inv, Enabled;
    if k == 0 {
      InvInit(n, defaults);
    } else {
      RunInv(states, steps, defaults, n, k - 1);
      InvKept(states[k - 1], steps[k - 1], defaults);
    }
  }

  lemma ReachableInv(s: State, defaults: int, n: nat)
    requires Reachable(s, defaults, n)
    ensures Inv(s, defaults) && Contexts(s) == n
  {
    var states, steps :| Run(states, steps, defaults, n) && s == states[|steps|];
    RunInv(states, steps, defaults, n, |steps|);
  }

  /** Conservation: in every reachable state the queued commands are the counted ones, those whose
      thread has yet to count them, and the one being taken; and the count is never negative. */
  lemma QueueConservation(s: State, defaults: int, n: nat)
    requires Reachable(s, defaults, n)
    ensures Total(s.queues) == s.counter + s.arriving + (if s.pc.Dequeue? then 1 else 0)
    ensures s.counter >= 0
  {
    hide Reachable;
    ReachableInv(s, defaults, n);
  }

  /** A search that the count allows never comes up empty, and the command is still there when the
      dispatcher comes for it. */
  lemma SelectionFinds(s: State, defaults: int, n: nat)
    requires Reachable(s, defaults, n)
    ensures s.pc.Scan? ==> !ProbeStep(s).pc.Check?
    ensures s.pc.Dequeue? ==> Suspended(s.queues, s.pc.ctx)
  {
    hide Reachable;
    ReachableInv(s, defaults, n);
  }

  /** Exactly once and in order: what was sent is a prefix of what arrived, and the rest is on its
      way or queued. */
  lemma FifoExactlyOnce(s: State, defaults: int, n: nat, c: nat)
    requires Reachable(s, defaults, n) && c < n
    ensures Shape(s) && Contexts(s) == n && s.sent[c] <= s.pushed[c]
    ensures s.pushed[c][|s.sent[c]|..] == Inflight(s.pc, c) + s.queues[c]
  {
    hide Reachable;
    ReachableInv(s, defaults, n);
    assert s.pushed[c] == s.sent[c] + (Inflight(s.pc, c) + s.queues[c]);
  }

  /** While nobody holds the fire mutex, the bandwidth is what the contexts used. */
  lemma BooksBalance(s: State, defaults: int, n: nat)
    requires Reachable(s, defaults, n) && !HoldsFire(s.pc) && !s.repl.Inside?
    ensures Sum(s.used) == s.bandwidth >= 0
  {
    hide Reachable;
    ReachableInv(s, defaults, n);
  }

  /** A replenishment gives all contexts together no more than the time used and idled away since the
      last, and leaves the budget of every context it has passed within twice the credit or at the default. */
  lemma CreditIsShared(s: State, defaults: int, n: nat)
    requires Reachable(s, defaults, n) && s.repl.Inside?
    ensures 0 <= s.repl.credit && s.repl.credit * n <= s.bandwidth + s.gpuIdle
    ensures s.repl.next <= |s.order| == |s.budget| == n && NoRepeat(s.order)
    ensures forall k :: 0 <= k < s.repl.next ==>
              var c := s.order[k];
              c < n && (s.budget[c] == defaults || -(2 * s.repl.credit) <= s.budget[c] <= 2 * s.repl.credit)
  {
    hide Reachable;
    ReachableInv(s, defaults, n);
  }

  // ------------------------------------------------------------ lowered priority

  /** Step `j` of the run looked at context `x` and found no command. */
  predicate FoundEmpty(states: seq<State>, steps: seq<Step>, j: nat, x: nat) {
    && j < |steps| && j < |states| && steps[j].Probe? && states[j].pc.Scan?
    && states[j].pc.at < |states[j].order| && states[j].order[states[j].pc.at] == x
    && x < |states[j].queues| && states[j].queues[x] == []
  }

  /** The scan that step `i` began is still going on at `k`. */
  ghost predicate Scanning(states: seq<State>, steps: seq<Step>, defaults: int, n: nat, i: nat, k: nat) {
    && Run(states, steps, defaults, n) && i < k <= |steps| < |states| && steps[i].Lower?
    && forall j :: i < j <= k ==> states[j].pc.Scan?
  }

  /** A step that does not end the scan leaves the list alone, and only a look moves the scan on. */
  lemma ScanGoesOn(s: State, step: Step, defaults: int, t: State)
    requires Inv(s, defaults) && Enabled(s, step) && t == Next(s, step, defaults) && s.pc.Scan? && t.pc.Scan?
    ensures t.order == s.order && t.pc.at == if step.Probe? then s.pc.at + 1 else s.pc.at
    ensures step.Probe? ==> && s.pc.at < |s.order| && s.order[s.pc.at] < |s.queues|
                            && s.queues[s.order[s.pc.at]] == []
  {
    hide Replenished, Lowered, Counted, Streams, Funds, Budgeted;
  }

  lemma ScanStep(states: seq<State>, steps: seq<Step>, defaults: int, n: nat, i: nat, k: nat)
    requires Scanning(states, steps, defaults, n, i, k)
    ensures k == i + 1 ==> states[k].pc.at == 0
    ensures k > i + 1 ==>
              && Scanning(states, steps, defaults, n, i, k - 1) && states[k].order == states[k - 1].order
              && states[k].pc.at == (if steps[k - 1].Probe? then states[k - 1].pc.at + 1 else states[k - 1].pc.at)
    ensures k > i + 1 && steps[k - 1].Probe? ==>
              && states[k - 1].pc.at < |states[k - 1].order|
              && FoundEmpty(states, steps, k - 1, states[k - 1].order[states[k - 1].pc.at])
  {
    assert states[k] == Next(states[k - 1], steps[k - 1], defaults);
    if k > i + 1 {
      assert states[k - 1].pc.Scan? && states[k].pc.Scan?;
      RunInv(states, steps, defaults, n, k - 1);
      ScanGoesOn(states[k - 1], steps[k - 1], defaults, states[k]);
      hide Next, Inv, Enabled;
    }
  }

  lemma {:induction false} ScanOrder(states: seq<State>, steps: seq<Step>, defaults: int, n: nat, i: nat, k: nat)
    requires Scanning(states, steps, defaults, n, i, k)
    ensures states[k].order == states[i + 1].order
    decreases k
  {
    hide Run, FoundEmpty;
    ScanStep(states, steps, defaults, n, i, k);
    if k > i + 1 {
      ScanOrder(states, steps, defaults, n, i, k - 1);
    }
  }

  /** Every context the scan has passed was found without a command when the scan came to it. */
  lemma {:induction false} ScanPasses(states: seq<State>, steps: seq<Step>, defaults: int, n: nat, i: nat, k: nat, m: nat)
    returns (j: nat)
    requires Scanning(states, steps, defaults, n, i, k) && m < states[k].pc.at
    ensures i < j < k && m < |states[k].order| && FoundEmpty(states, steps, j, states[k].order[m])
    decreases k
  {
    hide Run, FoundEmpty;
    ScanStep(states, steps, defaults, n, i, k);
    if m < states[k - 1].pc.at {
      j := ScanPasses(states, steps, defaults, n, i, k - 1, m);
    } else {
      j := k - 1;
    }
  }

  lemma SelectsAt(s: State, step: Step, defaults: int, c: nat)
    requires Inv(s, defaults) && Enabled(s, step) && s.pc.Scan? && Next(s, step, defaults).pc == Decrement(c)
    ensures s.pc.at < |s.order| && s.order[s.pc.at] == c
  {
    hide Replenished, Lowered, Counted, Streams, Funds, Budgeted, Found;
  }

  /** A context in debt that was served last is served again by the very next scan only if that scan
      found every other context without a command when it came to it. */
  lemma DebtorGoesLast(states: seq<State>, steps: seq<Step>, defaults: int, n: nat, i: nat, k: nat, c: nat, x: nat)
    returns (j: nat)
    requires Scanning(states, steps, defaults, n, i, k) && k < |steps| && states[k + 1].pc == Decrement(c)
    requires states[i].current == Ctx(c) && c < |states[i].budget| && states[i].budget[c] < 0
    requires x < n && x != c
    ensures i < j < k && FoundEmpty(states, steps, j, x)
  {
    hide Next, Inv, Enabled, FoundEmpty, Init;
    var order, s := states[i + 1].order, states[k];
    LastInOrder(states, steps, defaults, n, i, c);
    ScanOrder(states, steps, defaults, n, i, k);
    RunInv(states, steps, defaults, n, k);
    SelectsAt(s, steps[k], defaults, c);
    assert s.pc.at == n - 1;
    assert x in order;
    var m :| 0 <= m < |order| && order[m] == x;
    j := ScanPasses(states, steps, defaults, n, i, k, m);
  }

  lemma LastInOrder(states: seq<State>, steps: seq<Step>, defaults: int, n: nat, i: nat, c: nat)
    requires Run(states, steps, defaults, n) && i < |steps| && steps[i].Lower?
    requires states[i].current == Ctx(c) && c < |states[i].budget| && states[i].budget[c] < 0
    ensures Listed(states[i + 1].order, n) && n > 0 && states[i + 1].order[n - 1] == c
  {
    RunInv(states, steps, defaults, n, i);
    RunInv(states, steps, defaults, n, i + 1);
    MinusNoRepeat(states[i].order, c);
  }

  /** The dispatcher sleeps only while every queued command has a thread that is about to count it
      and wake the dispatcher. */
  lemma SleepsOnlyWhenIdle(s: State, defaults: int, n: nat)
    requires Reachable(s, defaults, n) && s.pc.Sleep?
    ensures Total(s.queues) == s.arriving
  {
    hide Reachable;
    ReachableInv(s, defaults, n);
  }

  /** The two mutexes never deadlock: unless everything is idle, some thread other than a newcomer
      can go on without being woken for no reason. */
  lemma NeverStuck(s: State, defaults: int, n: nat) returns (step: Step)
    requires Reachable(s, defaults, n) && n > 0
    ensures (s.pc.Sleep? && Total(s.queues) == 0) || (Enabled(s, step) && !step.Push? && !step.Wake?)
  {
    hide Reachable, Streams, Funds, Found;
    ReachableInv(s, defaults, n);
    if s.arriving > 0 {
      step := Count;
    } else if s.repl.Inside? {
      step := if s.repl.next < |s.order| then ReplNext else ReplDone;
    } else {
      match s.pc
      case Check => step := Look;
      case Sleep => step := Look;
      case Select(_) => step := if s.repl.Outside? then Lower(0) else ReplFire;
      case Scan(_) => step := Probe;
      case Decrement(_) => step := Take;
      case Dequeue(_) => step := Fetch;
      case Write(_, _) => step := Submit;
      case Active(_) => step := Finish(0);
      case Charge(_, _) => step := Account;
    }
  }
}
