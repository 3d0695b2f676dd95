/** The calls of tools/libvchan/io.c for applications that wait themselves: libxenvchan_data_ready or
libxenvchan_buffer_space, and then libxenvchan_wait. */
module VchanPolling {
  import opened Vchan
  import opened VchanInvariant
  import opened VchanTheorems

  // ---------------------------------------------------------------- the pattern

  /** What the application asked for before it waits. */
  datatype Query = ForData | ForSpace

  function Amount(s: State, side: Side, q: Query): int {
    if q.ForData? then Ready(Inp(s, side)) else Space(Out(s, side))
  }

  /** The notify bit the query sets. */
  function BitOf(e: Endpoint, q: Query): bool {
    if q.ForData? then e.wantWrite else e.wantRead
  }

  function CallOf(q: Query): Op {
    if q.ForData? then DataReady else BufferSpace
  }

  /** The query has set its bit and is about to read the indices. */
  predicate Asking(e: Endpoint, q: Query) {
    e.op == CallOf(q) && e.pc == Querying(if q.ForData? then ReadyTell else SpaceTell)
  }

  /** The query has returned, and nothing was called since but libxenvchan_wait, which has not returned. */
  predicate Told(e: Endpoint, q: Query) {
    || (e.op == CallOf(q) && (e.pc.Done? || e.pc.Idle?))
    || (e.op == Wait && e.pc == Querying(Waiting))
  }

  /** A stretch of an execution, from any reachable state. */
  ghost predicate Stretch(states: seq<State>, moves: Schedule) {
    && |states| == |moves| + 1 && Reachable(states[0])
    && forall i :: 0 <= i < |moves| ==>
         && LocalShape(Self(states[i], moves[i].0))
         && states[i + 1] == Step(states[i], moves[i].0, moves[i].1)
  }

  // ---------------------------------------------------------------- invariants

  /** The request is answered by its bit, by a latched event, or by a peer about to post one. */
  predicate Answered(e: Endpoint, peer: Endpoint, q: Query) {
    BitOf(e, q) || e.pending || if q.ForData? then PostingWrite(peer) else PostingRead(peer)
  }

  /** While the bit stands the amount is what was told, unless the peer has yet to look at the bit. */
  predicate AsTold(e: Endpoint, peer: Endpoint, q: Query, amount: int, told: int) {
    BitOf(e, q) && !(if q.ForData? then Publishing(peer) else Consuming(peer)) ==> amount == told
  }

  predicate Watched(s: State, side: Side, q: Query) {
    Answered(Self(s, side), Peer(s, side), q)
  }

  predicate Holds(s: State, side: Side, q: Query, told: int) {
    Watched(s, side, q) && AsTold(Self(s, side), Peer(s, side), q, Amount(s, side, q), told)
  }

  function Other(side: Side): Side {
    if side.Server? then Client else Server
  }

  /** Nothing the peer does loses the request, or changes the amount behind the bit. */
  lemma PeerKeeps(v: View, c: Choice, q: Query, told: int)
    requires LocalShape(v.me) && Answered(v.peer, v.me, q)
    ensures var v' := StepView(v, c);
            && v'.peer.pc == v.peer.pc && v'.peer.op == v.peer.op && Answered(v'.peer, v'.me, q)
            && (AsTold(v.peer, v.me, q, if q.ForData? then Ready(v.out) else Space(v.inp), told) ==>
                  AsTold(v'.peer, v'.me, q, if q.ForData? then Ready(v'.out) else Space(v'.inp), told))
  {
    hide SlotOf, SpaceSeen, ReadySeen;
    if c.Proceed? {
      match v.me.pc {
        case Writing(p) => WriterKeeps(v, p, q, told);
        case Reading(p) => ReaderKeeps(v, p, q, told);
        case _ =>
      }
    }
  }

  lemma WriterKeeps(v: View, p: WritePhase, q: Query, told: int)
    requires LocalShape(v.me) && v.me.pc == Writing(p) && Answered(v.peer, v.me, q)
    ensures var v' := WriteStep(v, p);
            && v'.peer.pc == v.peer.pc && v'.peer.op == v.peer.op && Answered(v'.peer, v'.me, q)
            && (AsTold(v.peer, v.me, q, if q.ForData? then Ready(v.out) else Space(v.inp), told) ==>
                  AsTold(v'.peer, v'.me, q, if q.ForData? then Ready(v'.out) else Space(v'.inp), told))
  {
    hide SlotOf, SpaceSeen, ToSize;
  }

  lemma ReaderKeeps(v: View, p: ReadPhase, q: Query, told: int)
    requires LocalShape(v.me) && v.me.pc == Reading(p) && Answered(v.peer, v.me, q)
    ensures var v' := ReadStep(v, p);
            && v'.peer.pc == v.peer.pc && v'.peer.op == v.peer.op && Answered(v'.peer, v'.me, q)
            && (AsTold(v.peer, v.me, q, if q.ForData? then Ready(v.out) else Space(v.inp), told) ==>
                  AsTold(v'.peer, v'.me, q, if q.ForData? then Ready(v'.out) else Space(v'.inp), told))
  {
    hide SlotOf, ReadySeen, ToSize;
  }

  lemma OtherView(s: State, side: Side, c: Choice)
    requires LocalShape(Peer(s, side))
    ensures var v, t := ViewOf(s, Other(side)), Step(s, Other(side), c);
            && v == View(Peer(s, side), Self(s, side), Inp(s, side), Out(s, side))
            && ViewOf(t, Other(side)) == StepView(v, c)
            && ViewOf(t, side) == View(StepView(v, c).peer, StepView(v, c).me, StepView(v, c).inp, StepView(v, c).out)
  {
    hide StepView;
  }

  /** The peer takes a step. */
  lemma OtherMoves(s: State, side: Side, c: Choice, q: Query, told: int)
    requires LocalShape(Peer(s, side)) && Watched(s, side, q)
    ensures var t := Step(s, Other(side), c);
            && Self(t, side).pc == Self(s, side).pc && Self(t, side).op == Self(s, side).op && Watched(t, side, q)
            && (Holds(s, side, q, told) ==> Holds(t, side, q, told))
  {
    hide StepView, Step, ViewOf, Answered, AsTold, LocalShape;
    OtherView(s, side, c);
    PeerKeeps(ViewOf(s, Other(side)), c, q, told);
  }

  lemma Asks(s: State, side: Side, q: Query)
    requires Self(s, side).pc == Querying(if q.ForData? then ReadyAsk else SpaceAsk) && LocalShape(Self(s, side))
    ensures Watched(Step(s, side, Proceed), side, q)
  {
  }

  /** The query reads the indices. */
  lemma Tells(s: State, side: Side, c: Choice, q: Query)
    requires RingOk(Inp(s, side)) && RingOk(Out(s, side)) && Asking(Self(s, side), q) && Watched(s, side, q)
    requires LocalShape(Self(s, side))
    ensures var t := Step(s, side, c);
            if c.Call? then t == s
            else Self(t, side).pc == Done(Amount(t, side, q), []) && Holds(t, side, q, Amount(t, side, q))
  {
    SeenIsTrue(Inp(s, side));
    SeenIsTrue(Out(s, side));
    hide RingOk;
  }

  lemma StaysTold(s: State, side: Side, c: Choice, q: Query, told: int)
    requires Told(Self(s, side), q) && LocalShape(Self(s, side)) && Told(Self(Step(s, side, c), side), q)
    requires Holds(s, side, q, told)
    ensures Holds(Step(s, side, c), side, q, told)
  {
  }

  // ---------------------------------------------------------------- the theorem

  /** In step `a` the endpoint sets the bit of its query, at `d` the query has just returned, and up to `k`
      the endpoint calls nothing but libxenvchan_wait, which has not returned. */
  ghost predicate Pattern(states: seq<State>, moves: Schedule, side: Side, q: Query, a: nat, d: nat, k: nat) {
    && Stretch(states, moves) && a + 1 < d <= k < |states| == |moves| + 1
    && Self(states[a], side).pc == Querying(if q.ForData? then ReadyAsk else SpaceAsk) && moves[a] == (side, Proceed)
    && (forall j :: a < j < d ==> Asking(Self(states[j], side), q))
    && Self(states[d], side).pc.Done?
    && forall j :: d <= j <= k ==> Told(Self(states[j], side), q)
  }

  lemma {:induction false} StretchReachable(states: seq<State>, moves: Schedule, k: nat)
    requires Stretch(states, moves) && k < |states|
    ensures Reachable(states[k])
  {
    hide Reachable, Step;
    if k > 0 {
      StretchReachable(states, moves, k - 1);
      ReachableStep(states[k - 1], moves[k - 1].0, moves[k - 1].1);
    }
  }

  lemma RingsOk(states: seq<State>, moves: Schedule, side: Side, k: nat)
    requires Stretch(states, moves) && k < |states|
    ensures RingOk(Inp(states[k], side)) && RingOk(Out(states[k], side))
    ensures LocalShape(Self(states[k], side)) && LocalShape(Peer(states[k], side))
  {
    hide Stretch, Reachable, RingOk, WriterOk, ReaderOk, WriterWake, ReaderWake, LocalShape;
    StretchReachable(states, moves, k);
    ReachableHalves(states[k], side);
  }

  lemma {:induction false} AskingWatched(states: seq<State>, moves: Schedule, side: Side, q: Query, a: nat, d: nat,
                                         k: nat, j: nat)
    requires Pattern(states, moves, side, q, a, d, k) && a < j < d
    ensures Watched(states[j], side, q)
    decreases j
  {
    hide RingOk, LocalShape, Reachable, StepView, Step, ViewOf, Answered;
    assert states[j] == Step(states[j - 1], moves[j - 1].0, moves[j - 1].1);
    if j == a + 1 {
      Asks(states[a], side, q);
    } else {
      AskingWatched(states, moves, side, q, a, d, k, j - 1);
      RingsOk(states, moves, side, j - 1);
      var m := moves[j - 1];
      if m.0 == side {
        Tells(states[j - 1], side, m.1, q);
      } else {
        OtherMoves(states[j - 1], side, m.1, q, 0);
      }
    }
  }

  lemma JustTold(states: seq<State>, moves: Schedule, side: Side, q: Query, a: nat, d: nat, k: nat)
    requires Pattern(states, moves, side, q, a, d, k)
    ensures Holds(states[d], side, q, Self(states[d], side).pc.ret)
  {
    hide Step, RingOk, Answered, AsTold, LocalShape, Reachable;
    AskingWatched(states, moves, side, q, a, d, k, d - 1);
    RingsOk(states, moves, side, d - 1);
    var m := moves[d - 1];
    if m.0 == side {
      Tells(states[d - 1], side, m.1, q);
    } else {
      OtherMoves(states[d - 1], side, m.1, q, 0);
    }
  }

  lemma {:induction false} StillHolds(states: seq<State>, moves: Schedule, side: Side, q: Query, a: nat, d: nat,
                                      k: nat, j: nat)
    requires Pattern(states, moves, side, q, a, d, k) && d <= j <= k
    ensures Holds(states[j], side, q, Self(states[d], side).pc.ret)
    decreases j
  {
    hide Step, RingOk, Holds, Answered, LocalShape, Reachable, Told, Asking, ViewOf;
    if j == d {
      JustTold(states, moves, side, q, a, d, k);
    } else {
      StillHolds(states, moves, side, q, a, d, k, j - 1);
      RingsOk(states, moves, side, j - 1);
      var m, told := moves[j - 1], Self(states[d], side).pc.ret;
      assert states[j] == Step(states[j - 1], m.0, m.1);
      if m.0 == side {
        assert Told(Self(states[j - 1], side), q) && Told(Self(states[j], side), q);
        StaysTold(states[j - 1], side, m.1, q, told);
      } else {
        HoldsWatched(states[j - 1], side, q, told);
        OtherMoves(states[j - 1], side, m.1, q, told);
      }
    }
  }

  lemma HoldsWatched(s: State, side: Side, q: Query, told: int)
    requires Holds(s, side, q, told)
    ensures Watched(s, side, q)
  {
  }

  /** The documented way to wait loses no wakeup: after the query returned an amount, an endpoint that
      waits with no event latched, while its peer is not about to notify it, has its bit set, and the
      amount is still what it was told. */
  lemma WaitsRightly(states: seq<State>, moves: Schedule, side: Side, q: Query, a: nat, d: nat, k: nat)
    requires Pattern(states, moves, side, q, a, d, k)
    requires Self(states[k], side).pc == Querying(Waiting) && !Self(states[k], side).pending
    requires !Notifying(Peer(states[k], side))
    ensures BitOf(Self(states[k], side), q) && Amount(states[k], side, q) == Self(states[d], side).pc.ret
  {
    hide Stretch, Amount;
    StillHolds(states, moves, side, q, a, d, k, k);
  }
}
