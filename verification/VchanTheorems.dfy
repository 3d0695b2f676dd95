/** What the vchan protocol guarantees over every interleaving of the two endpoints. */
module VchanTheorems {
  import opened Sequences
  import opened PowersOfTwo
  import opened Vchan
  import opened VchanInvariant

  datatype Side = Server | Client

  /** `right` carries the server's bytes, `left` the client's. */
  datatype State = State(srv: Endpoint, cli: Endpoint, right: Ring, left: Ring)

  function ViewOf(s: State, side: Side): View {
    match side
    case Server => View(s.srv, s.cli, s.right, s.left)
    case Client => View(s.cli, s.srv, s.left, s.right)
  }

  function FromView(side: Side, v: View): State {
    match side
    case Server => State(v.me, v.peer, v.out, v.inp)
    case Client => State(v.peer, v.me, v.inp, v.out)
  }

  function Self(s: State, side: Side): Endpoint { ViewOf(s, side).me }
  function Peer(s: State, side: Side): Endpoint { ViewOf(s, side).peer }
  function Out(s: State, side: Side): Ring { ViewOf(s, side).out }
  function Inp(s: State, side: Side): Ring { ViewOf(s, side).inp }

  /** The rings as libxenvchan_server_init and libxenvchan_client_init leave them: indices at
      zero, each side asking to be told of writes, no event latched. */
  function InitRing(order: nat): (q: Ring)
    requires 10 <= order <= 20
    ensures q.order == order && q.sent == [] && q.rcvd == [] && RingOk(q)
  {
    RingState(order, 0, 0, seq(Pow2(order), _ => 0), [], [])
  }

  function InitEndpoint(): Endpoint {
    Endpoint(Idle, Wait, true, 0, true, false, false)
  }

  function Init(rightOrder: nat, leftOrder: nat): State
    requires 10 <= rightOrder <= 20 && 10 <= leftOrder <= 20
  {
    State(InitEndpoint(), InitEndpoint(), InitRing(rightOrder), InitRing(leftOrder))
  }

  ghost predicate Inv(s: State) {
    Good(ViewOf(s, Server))
  }

  /** A schedule: which endpoint takes the next atomic step, and which call it starts if idle. */
  type Schedule = seq<(Side, Choice)>

  function Step(s: State, side: Side, c: Choice): State
    requires LocalShape(Self(s, side))
  {
    FromView(side, StepView(ViewOf(s, side), c))
  }

  lemma InvStep(s: State, side: Side, c: Choice)
    requires Inv(s)
    ensures LocalShape(Self(s, side)) && Inv(Step(s, side, c))
  {
    StepKeeps(ViewOf(s, side), c);
  }

  /** The state after a schedule. */
  ghost function Run(s: State, schedule: Schedule): (r: State)
    requires Inv(s)
    ensures Inv(r)
    decreases |schedule|
  {
    if schedule == [] then s
    else
      var last := schedule[|schedule| - 1];
      var before := Run(s, schedule[..|schedule| - 1]);
      InvStep(before, last.0, last.1);
      Step(before, last.0, last.1)
  }

  lemma InitInv(rightOrder: nat, leftOrder: nat)
    requires 10 <= rightOrder <= 20 && 10 <= leftOrder <= 20
    ensures Inv(Init(rightOrder, leftOrder))
  {
  }

  ghost predicate Reachable(s: State) {
    exists rightOrder, leftOrder, schedule ::
      ReachedBy(s, rightOrder, leftOrder, schedule)
  }

  ghost predicate ReachedBy(s: State, rightOrder: int, leftOrder: int, schedule: Schedule) {
    && 10 <= rightOrder <= 20 && 10 <= leftOrder <= 20
    && Inv(Init(rightOrder, leftOrder))
    && s == Run(Init(rightOrder, leftOrder), schedule)
  }

  /** Every reachable state satisfies the invariant, seen from either side. */
  lemma ReachableHalves(s: State, side: Side)
    requires Reachable(s)
    ensures LocalShape(Self(s, side)) && LocalShape(Peer(s, side))
    ensures Half(Self(s, side), Peer(s, side), Out(s, side))
    ensures Half(Peer(s, side), Self(s, side), Inp(s, side))
  {
  }

  // -------------------------------------------------------------- main results

  /** Stream safety: at every moment of every interleaving the 32-bit indices differ by the
      number of unread bytes, which the ring can hold; the bytes consumed are a prefix of the
      bytes published; and every unread byte is still in its place. */
  lemma StreamSafety(s: State, side: Side)
    requires Reachable(s)
    ensures var q := Out(s, side);
            && q.rcvd <= q.sent
            && (q.prod - q.cons) % TWO32 == |q.sent| - |q.rcvd| <= q.Size()
            && forall i :: |q.rcvd| <= i < |q.sent| ==> q.buf[i % q.Size()] == q.sent[i]
  {
    hide Reachable;
    ReachableHalves(s, side);
    UnreadCount(Out(s, side));
  }

  lemma UnreadCount(q: Ring)
    requires RingOk(q)
    ensures (q.prod - q.cons) % TWO32 == |q.sent| - |q.rcvd| <= q.Size()
  {
    SeenIsTrue(q);
  }

  /** A writer about to copy a byte never aims at an unread byte, nor outside the ring. */
  lemma NeverOverwritesUnread(s: State, side: Side)
    requires Reachable(s)
    requires Self(s, side).pc.Writing? && Self(s, side).pc.w.Filling?
    requires Self(s, side).pc.w.k < |Self(s, side).pc.w.chunk|
    ensures var q, p := Out(s, side), Self(s, side).pc.w;
            var slot := SlotOf(q.prod, q.Size(), |p.chunk|, p.k);
            && 0 <= slot < |q.buf|
            && forall i :: |q.rcvd| <= i < |q.sent| ==> i % q.Size() != slot
  {
    ReachableHalves(s, side);
    var slot := FillByte(Out(s, side), Self(s, side).pc.w.chunk, Self(s, side).pc.w.k);
  }

  /** The calls keep their word: a blocking send or write that returns has published exactly its
      data; a recv returns exactly the next `size` bytes its peer published, a read a non-empty
      run of them. */
  lemma CallResults(s: State, side: Side)
    requires Reachable(s) && Self(s, side).pc.Done?
    ensures var e, q := Self(s, side), Out(s, side);
            e.op.Writes() ==> WriteResult(e, q, e.pc.ret)
    ensures var e, q := Self(s, side), Inp(s, side);
            e.op.Reads() ==>
              && ReadResult(e, q, e.pc.ret, e.pc.got)
              && (e.pc.ret > 0 ==> e.start + e.pc.ret <= |q.sent| && e.pc.got == q.sent[e.start..e.start + e.pc.ret])
  {
    ReachableHalves(s, side);
    var e, q := Self(s, side), Inp(s, side);
    if e.op.Reads() && e.pc.ret > 0 {
      assert q.rcvd == q.sent[..|q.rcvd|];
    }
  }

  /** The endpoint sleeps in libxenvchan_wait on behalf of a data call, with no event latched. */
  predicate Asleep(e: Endpoint) {
    && !e.pending
    && ((e.pc.Writing? && e.pc.w.Blocked?) || (e.pc.Reading? && e.pc.r.BlockedRead?))
  }

  /** The endpoint is between publishing an index and finishing send_notify. */
  predicate Notifying(e: Endpoint) {
    || (e.pc.Writing? && (e.pc.w.ClearBit? || e.pc.w.Post?))
    || (e.pc.Reading? && (e.pc.r.ClearRead? || e.pc.r.PostRead?))
  }

  /** What the sleeper waits for has not come: the bit it set still stands, and the space or
      data its call needs in order to go on is not there. */
  predicate RightlyAsleep(s: State, side: Side)
    requires Asleep(Self(s, side))
  {
    var e := Self(s, side);
    match e.op
    case Send(data) => e.wantRead && Space(Out(s, side)) < |data|
    case Write(_) => e.wantRead && Space(Out(s, side)) == 0
    case Recv(size) => e.wantWrite && Ready(Inp(s, side)) < size
    case Read(_) => e.wantWrite && Ready(Inp(s, side)) == 0
    case _ => false
  }

  lemma SleepingWriter(w: Endpoint, r: Endpoint, q: Ring)
    requires LocalShape(w) && WriterWake(w, r, q)
    requires w.pc.Writing? && w.pc.w.Blocked? && !w.pending && !Notifying(r)
    ensures w.op.Writes() && w.wantRead
    ensures if w.op.Send? then Space(q) < |w.op.data| else Space(q) == 0
  {
  }

  lemma SleepingReader(w: Endpoint, r: Endpoint, q: Ring)
    requires LocalShape(r) && ReaderWake(w, r, q)
    requires r.pc.Reading? && r.pc.r.BlockedRead? && !r.pending && !Notifying(w)
    requires r.op != Read(0)
    ensures r.op.Reads() && r.wantWrite
    ensures if r.op.Recv? then Ready(q) < r.op.size else Ready(q) == 0
  {
  }

  /** No wakeup is ever lost by a call other than a read of zero bytes. */
  lemma NoLostWakeup(s: State, side: Side)
    requires Reachable(s)
    requires Asleep(Self(s, side)) && !Notifying(Peer(s, side))
    requires Self(s, side).op != Read(0)
    ensures RightlyAsleep(s, side)
  {
    ReachableHalves(s, side);
    if Self(s, side).pc.Writing? {
      SleepingWriter(Self(s, side), Peer(s, side), Out(s, side));
    } else {
      SleepingReader(Peer(s, side), Self(s, side), Inp(s, side));
    }
  }

  /** A call is never left asleep wrongly, in any reachable state. */
  ghost predicate NeverStranded(op: Op) {
    forall s, side ::
      Reachable(s) && Asleep(Self(s, side)) && !Notifying(Peer(s, side)) && Self(s, side).op == op
      ==> RightlyAsleep(s, side)
  }

  // --------------------------------------------- the call that can be stranded

  /** `t` is a state that some schedule takes `s` to. */
  ghost predicate Path(s: State, moves: Schedule, t: State)
    decreases |moves|
  {
    if moves == [] then s == t
    else
      && LocalShape(Self(s, moves[0].0))
      && Path(Step(s, moves[0].0, moves[0].1), moves[1..], t)
  }

  ghost predicate Leads(s: State, t: State) {
    exists moves :: Path(s, moves, t)
  }

  lemma {:induction false} PathExtends(s: State, moves: Schedule, t: State, side: Side, c: Choice)
    requires Path(s, moves, t) && LocalShape(Self(t, side))
    ensures Path(s, moves + [(side, c)], Step(t, side, c))
    decreases |moves|
  {
    var longer := moves + [(side, c)];
    if moves == [] {
      assert Path(Step(s, side, c), longer[1..], Step(t, side, c));
    } else {
      assert longer[1..] == moves[1..] + [(side, c)];
      PathExtends(Step(s, moves[0].0, moves[0].1), moves[1..], t, side, c);
    }
  }

  lemma Move(s: State, t: State, side: Side, c: Choice)
    requires Leads(s, t) && LocalShape(Self(t, side))
    ensures Leads(s, Step(t, side, c))
  {
    var moves :| Path(s, moves, t);
    PathExtends(s, moves, t, side, c);
  }

  lemma {:induction false} PathReaches(s: State, moves: Schedule, t: State)
    requires Reachable(s) && Path(s, moves, t)
    ensures Reachable(t)
    decreases |moves|
  {
    if moves != [] {
      ReachableStep(s, moves[0].0, moves[0].1);
      PathReaches(Step(s, moves[0].0, moves[0].1), moves[1..], t);
    }
  }

  lemma LeadsReaches(s: State, t: State)
    requires Reachable(s) && Leads(s, t)
    ensures Reachable(t)
  {
    var moves :| Path(s, moves, t);
    PathReaches(s, moves, t);
  }

  lemma ReachableStep(s: State, side: Side, c: Choice)
    requires Reachable(s)
    ensures LocalShape(Self(s, side)) && Reachable(Step(s, side, c))
  {
    ReachableHalves(s, side);
    var rightOrder, leftOrder, schedule :| ReachedBy(s, rightOrder, leftOrder, schedule);
    var longer := schedule + [(side, c)];
    assert longer[..|longer| - 1] == schedule;
    assert ReachedBy(Step(s, side, c), rightOrder, leftOrder, longer);
  }

  lemma SendBegins(s: State, b: Byte) returns (t: State)
    requires s.srv.pc.Idle? && RingOk(s.right) && Space(s.right) >= 1
    ensures Leads(s, t)
    ensures t == s.(srv := t.srv) && t.srv.op == Send([b]) && t.srv.wantRead == s.srv.wantRead
    ensures t.srv.pc == Writing(Filling(0, [b], 0, false, Space(s.right) - 1))
  {
    assert Leads(s, s) by {
      assert Path(s, [], s);
    }
    var u := SendEntered(s, b);
    Move(s, s, Server, Call(Send([b]), true));
    hide Leads, Path, RingOk;
    SeenIsTrue(s.right);
    Move(s, u, Server, Proceed);
    t := Step(u, Server, Proceed);
  }

  lemma SendEntered(s: State, b: Byte) returns (t: State)
    requires s.srv.pc.Idle?
    ensures t == Step(s, Server, Call(Send([b]), true)) && t == s.(srv := t.srv)
    ensures t.srv.op == Send([b]) && t.srv.wantRead == s.srv.wantRead && LocalShape(t.srv)
    ensures t.srv.pc == Writing(SpaceFirst(0)) && t.srv.blocking
  {
    t := Step(s, Server, Call(Send([b]), true));
  }

  lemma SendFills(s: State, b: Byte, left: nat) returns (t: State)
    requires s.srv.op == Send([b]) && s.srv.pc == Writing(Filling(0, [b], 0, false, left))
    requires RingOk(s.right) && Space(s.right) >= 1
    ensures Leads(s, t)
    ensures t == s.(srv := s.srv.(pc := Writing(ClearBit(1, false, left))), right := t.right)
    ensures t.right.sent == s.right.sent + [b] && t.right.rcvd == s.right.rcvd
  {
    SlotIsPosition(s.right, |s.right.sent|, 1, 0);
    assert Path(s, [], s);
    Move(s, s, Server, Proceed);
    t := Step(s, Server, Proceed);
    assert t.srv.pc == Writing(Filling(0, [b], 1, false, left));
    Move(s, t, Server, Proceed);
    t := Step(t, Server, Proceed);
  }

  lemma SendNotifies(s: State, b: Byte, left: nat) returns (t: State)
    requires s.srv.op == Send([b]) && s.srv.pc == Writing(ClearBit(1, false, left))
    ensures Leads(s, t)
    ensures t.srv.pc.Idle? && t.srv.wantRead == s.srv.wantRead && t.right == s.right
    ensures t.cli == s.cli.(wantWrite := false, pending := s.cli.pending || s.cli.wantWrite)
  {
    assert Path(s, [], s);
    hide Leads, Path, Pow2;
    Move(s, s, Server, Proceed);
    t := Step(s, Server, Proceed);
    if s.cli.wantWrite {
      Move(s, t, Server, Proceed);
      t := Step(t, Server, Proceed);
    }
    assert t.srv.pc == Done(1, []);
    Move(s, t, Server, Proceed);
    t := Step(t, Server, Proceed);
  }

  /** The server, idle, sends one byte into a ring with room and is idle again: the client's bit
      is cleared, and an event is latched for it exactly if the bit was set. */
  lemma ServerSendsByte(s: State, b: Byte) returns (t: State)
    requires Reachable(s) && s.srv.pc.Idle? && Space(s.right) >= 1
    ensures Reachable(t) && t.srv.pc.Idle? && t.srv.wantRead == s.srv.wantRead
    ensures t.right.sent == s.right.sent + [b] && t.right.rcvd == s.right.rcvd
    ensures t.cli == s.cli.(wantWrite := false, pending := s.cli.pending || s.cli.wantWrite)
  {
    hide Reachable, Leads, RingOk, WriterOk, ReaderOk, WriterWake, ReaderWake;
    ReachableHalves(s, Server);
    var s1 := SendBegins(s, b);
    var s2 := SendFills(s1, b, Space(s.right) - 1);
    t := SendNotifies(s2, b, Space(s.right) - 1);
    LeadsReaches(s, s1);
    LeadsReaches(s1, s2);
    LeadsReaches(s2, t);
  }

  lemma ReadBegins(s: State, size: nat) returns (t: State)
    requires s.cli.pc.Idle? && RingOk(s.right) && size == Ready(s.right)
    ensures Leads(s, t)
    ensures t == s.(cli := s.cli.(op := Read(size), blocking := true, start := |s.right.rcvd|, pc := t.cli.pc))
    ensures t.cli.pc == Reading(if size == 0 then BlockedRead(false, 0) else Draining(size, []))
  {
    SeenIsTrue(s.right);
    assert Path(s, [], s);
    hide Leads, Path, Pow2;
    Move(s, s, Client, Call(Read(size), true));
    t := Step(s, Client, Call(Read(size), true));
    Move(s, t, Client, Proceed);
    t := Step(t, Client, Proceed);
  }

  lemma ReadDrains(s: State) returns (t: State)
    requires s.cli.op == Read(1) && s.cli.pc == Reading(Draining(1, []))
    requires RingOk(s.right) && Ready(s.right) == 1 && !s.srv.wantRead
    ensures Leads(s, t)
    ensures t.srv == s.srv && t.cli == s.cli.(pc := Idle) && Ready(t.right) == 0
  {
    SlotIsPosition(s.right, |s.right.rcvd|, 1, 0);
    assert Path(s, [], s);
    hide Leads, Path, Pow2;
    Move(s, s, Client, Proceed);
    t := Step(s, Client, Proceed);
    assert t.cli.pc.Reading? && t.cli.pc.r.Draining? && |t.cli.pc.r.got| == 1;
    Move(s, t, Client, Proceed);
    t := Step(t, Client, Proceed);
    Move(s, t, Client, Proceed);
    t := Step(t, Client, Proceed);
    assert t.cli.pc.Done? && t.srv == s.srv;
    Move(s, t, Client, Proceed);
    t := Step(t, Client, Proceed);
  }

  /** The client, idle, reads the one byte there is; nobody asked to be told. */
  lemma ClientReadsByte(s: State) returns (t: State)
    requires Reachable(s) && s.cli.pc.Idle? && Ready(s.right) == 1 && !s.srv.wantRead
    ensures Reachable(t) && t.srv == s.srv && t.cli.pc.Idle?
    ensures t.cli.pending == s.cli.pending && t.cli.wantWrite == s.cli.wantWrite
    ensures Ready(t.right) == 0
  {
    ReachableHalves(s, Client);
    var s1 := ReadBegins(s, 1);
    t := ReadDrains(s1);
    LeadsReaches(s, s1);
    LeadsReaches(s1, t);
  }

  lemma EmptyReadWakes(s: State) returns (t: State)
    requires s.cli.op == Read(0) && s.cli.blocking && s.cli.pending && s.cli.pc == Reading(BlockedRead(false, 0))
    requires RingOk(s.right) && Ready(s.right) == 0
    ensures Leads(s, t) && t == s.(cli := s.cli.(pending := false))
  {
    SeenIsTrue(s.right);
    assert Path(s, [], s);
    Move(s, s, Client, Proceed);
    t := Step(s, Client, Proceed);
    Move(s, t, Client, Proceed);
    t := Step(t, Client, Proceed);
  }

  /** The client calls read with size zero on an empty ring: no bit is set, a stale event is
      used up, and it sleeps. */
  lemma ClientReadsNothing(s: State) returns (t: State)
    requires Reachable(s) && s.cli.pc.Idle? && s.cli.pending && Ready(s.right) == 0
    ensures Reachable(t) && t.srv == s.srv && t.right == s.right
    ensures t.cli.op == Read(0) && Asleep(t.cli) && t.cli.wantWrite == s.cli.wantWrite
  {
    ReachableHalves(s, Client);
    var s1 := ReadBegins(s, 0);
    t := EmptyReadWakes(s1);
    LeadsReaches(s, s1);
    LeadsReaches(s1, t);
  }

  /** A run in which a reader sleeps on data that is there, with its bit clear and no event
      on its way: it was called with size zero. */
  lemma EmptyReadStranded() returns (s: State)
    ensures Reachable(s) && Self(s, Client).op == Read(0)
    ensures Asleep(Self(s, Client)) && Peer(s, Client).pc.Idle? && !Self(s, Client).wantWrite
    ensures Ready(Inp(s, Client)) == 1
  {
    var s0 := Init(10, 11);
    InitInv(10, 11);
    assert ReachedBy(s0, 10, 11, []);
    RingSize(s0.right);
    var s1 := ServerSendsByte(s0, 7);
    var s2 := ClientReadsByte(s1);
    var s3 := ClientReadsNothing(s2);
    RingSize(s3.right);
    s := ServerSendsByte(s3, 7);
  }

  /** The exact condition: a call can never be stranded if and only if it is not a read of zero
      bytes. */
  lemma StrandedOnlyByEmptyRead(op: Op)
    ensures NeverStranded(op) <==> op != Read(0)
  {
    if op == Read(0) {
      var s := EmptyReadStranded();
      assert !RightlyAsleep(s, Client);
    } else {
      forall s, side | Reachable(s) && Asleep(Self(s, side)) && !Notifying(Peer(s, side))
                       && Self(s, side).op == op
        ensures RightlyAsleep(s, side)
      {
        NoLostWakeup(s, side);
      }
    }
  }

  /** No deadlock across one ring: a writer and the reader of the same ring do not both sleep
      when what one asks for and what the other asks for fit into the ring together. */
  lemma NeverBothAsleep(s: State, side: Side)
    requires Reachable(s)
    requires var w, r := Self(s, side), Peer(s, side);
             w.pc.Writing? && r.pc.Reading? && w.op.Writes() && r.op.Reads() && r.op != Read(0)
    requires var w, r := Self(s, side), Peer(s, side);
             Need(w.op) + Need(r.op) <= Out(s, side).Size() + 1
    ensures !(Asleep(Self(s, side)) && Asleep(Peer(s, side)))
  {
    var w, r, q := Self(s, side), Peer(s, side), Out(s, side);
    ReachableHalves(s, side);
    if Asleep(w) && Asleep(r) {
      SleepingWriter(w, r, q);
      SleepingReader(w, r, q);
    }
  }

  /** How much a blocked call needs before it can make progress. */
  function Need(op: Op): nat {
    match op
    case Send(data) => |data|
    case Recv(size) => size
    case _ => 1
  }
}
