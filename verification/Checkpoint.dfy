/** A whole checkpoint batch of tools/libxc/xc_domain_save.c: queue the pages, then compress them into
buffers of whatever space there is until all are written. */
module Checkpoint {
  import opened Sequences
  import opened PageCodec
  import opened DeltaCache
  import opened DeltaBatches
  import opened DeltaExact
  import opened DeltaSpace
  import opened Transmission
  import opened Compression

  /** write_compressed: call the compressor with the space there is until nothing is left. */
  method WriteCompressed(ctx: Context, space: nat -> nat) returns (out: seq<Byte>)
    requires ctx.Valid() && Roomy(space)
    modifies ctx
    ensures ctx.Valid() && ctx.queue == [] && ctx.at == 0
    ensures out == Transmit(Where(old(ctx.Now()), 0, 0), old(ctx.Pending()), ctx.slots, space)
    ensures ctx.Now() == Final(old(ctx.Now()), old(ctx.Pending()), ctx.slots)
  {
    hide *;
    ghost var s0, items := ctx.Now(), ctx.Pending();
    ctx.PendingIs();
    LeftAll(s0, ctx.queue, ctx.at, ctx.slots, space);
    out := [];
    var calls: nat := 0;
    while true
      invariant ctx.Valid() && Left(s0, items, ctx.slots, space, out, ctx.Now(), ctx.queue, ctx.at, calls)
      decreases |ctx.queue| - ctx.at
    {
      ghost var s, queue, at := ctx.Now(), ctx.queue, ctx.at;
      ctx.PendingIs();
      var rc := ctx.CompressPages(space(calls));
      if rc == 0 {
        LeftNone(s0, items, ctx.slots, space, out, s, queue, at, calls);
        return;
      }
      LeftAfter(s0, items, ctx.slots, space, out, s, queue, at, calls);
      out := out + ctx.compbuf;
      calls := calls + 1;
    }
  }

  /** The bytes written and the bytes still to be written are those of the batch. */
  ghost predicate Left(s0: Slots, items: seq<Item>, slots: nat, space: nat -> nat, out: seq<Byte>, s: Slots,
                       queue: seq<Item>, at: nat, calls: nat)
    requires Ready(s0, items, slots)
  {
    && at <= |queue| && Ready(s, queue[at..], slots)
    && (Transmit(Where(s0, 0, 0), items, slots, space)
        == out + Transmit(Where(s, calls, 0), queue[at..], slots, space))
    && Final(s0, items, slots) == Final(s, queue[at..], slots)
  }

  lemma LeftAll(s: Slots, queue: seq<Item>, at: nat, slots: nat, space: nat -> nat)
    requires at <= |queue| && Ready(s, queue[at..], slots)
    ensures Left(s, queue[at..], slots, space, [], s, queue, at, 0)
  {
    hide Transmit, Final, Ready;
    var all := Transmit(Where(s, 0, 0), queue[at..], slots, space);
    assert [] + all == all;
  }

  lemma LeftNone(s0: Slots, items: seq<Item>, slots: nat, space: nat -> nat, out: seq<Byte>, s: Slots,
                 queue: seq<Item>, at: nat, calls: nat)
    requires Ready(s0, items, slots) && at == |queue| && Left(s0, items, slots, space, out, s, queue, at, calls)
    ensures out == Transmit(Where(s0, 0, 0), items, slots, space) && s == Final(s0, items, slots)
  {
    hide Ready;
    assert Transmit(Where(s, calls, 0), queue[at..], slots, space) == [];
  }

  lemma LeftAfter(s0: Slots, items: seq<Item>, slots: nat, space: nat -> nat, out: seq<Byte>, s: Slots,
                  queue: seq<Item>, at: nat, calls: nat)
    requires Ready(s0, items, slots) && Roomy(space) && Left(s0, items, slots, space, out, s, queue, at, calls)
    ensures at <= |queue| && Ready(s, queue[at..], slots)
    ensures var r := Call(s, queue[at..], slots, space(calls), 0);
            && Left(s0, items, slots, space, out + r.out, r.after, queue, at + r.sent, calls + 1)
            && (at < |queue| ==> r.sent > 0)
  {
    hide Transmit, Final, Call, Ready;
    var rest := queue[at..];
    var r := Call(s, rest, slots, space(calls), 0);
    TransmitCall(Where(s, calls, 0), rest, slots, space);
    if rest != [] {
      assert space(calls) >= WORST;
      CallMoves(s, rest, slots, space(calls));
    }
    assert rest[r.sent..] == queue[at + r.sent..];
    Regroup(out, r.out, Transmit(Where(r.after, calls + 1, 0), rest[r.sent..], slots, space));
  }

  /** Queue the pages of a batch one by one. */
  method QueueBatch(ctx: Context, items: seq<Item>)
    requires ctx.Valid() && ctx.queue == [] && ctx.at == 0 && |items| <= QUEUE && AllPages(items)
    requires forall i :: 0 <= i < |items| ==> items[i].pfn < ctx.size
    modifies ctx
    ensures ctx.Valid() && ctx.queue == items && ctx.at == 0
    ensures ctx.Now() == QueuedSlots(old(ctx.Now()), items)
  {
    ghost var s0 := ctx.Now();
    var i := 0;
    assert items[..0] == [];
    while i < |items|
      invariant 0 <= i <= |items| && ctx.Valid() && ctx.at == 0
      invariant ctx.queue == items[..i] && ctx.Now() == QueuedSlots(s0, items[..i])
    {
      hide Dropped, QueuedSlots;
      var it := items[i];
      var r := ctx.AddPage(it.pfn, it.page, it.raw);
      QueuedOneMore(s0, items[..i], it);
      assert items[..i] + [it] == items[..i + 1];
      i := i + 1;
    }
    assert items[..|items|] == items;
  }

  /** From the queue to the receiver. Whatever is refused on the way, the receiver decodes the whole batch,
      and the slots are left as the specification leaves them. If the cache agreed with the receiver's
      memory and the batch is in order, the cache agrees afterwards with what was queued; the receiver holds
      that as well whenever the retries are right and, if every page occurs once, only then. */
  method SendBatch(ctx: Context, items: seq<Item>, space: nat -> nat, ghost mem: seq<seq<Byte>>)
    returns (out: seq<Byte>)
    requires ctx.Valid() && ctx.queue == [] && ctx.at == 0 && |items| <= QUEUE && Fit(mem, items)
    requires forall i :: 0 <= i < |items| ==> items[i].pfn < ctx.size
    requires Roomy(space)
    modifies ctx
    ensures ctx.Valid() && ctx.queue == [] && ctx.at == 0
    ensures Ready(Start(old(ctx.Now()), items).slots, items, ctx.slots)
    ensures ctx.Now() == Final(Start(old(ctx.Now()), items).slots, items, ctx.slots)
    ensures var w := Start(old(ctx.Now()), items);
            && Receive(out, 0, Numbers(items), mem) == Got(|out|, Delivered(w, items, ctx.slots, space, mem))
            && (Coherent(old(ctx.View()), mem) && Ordered(items) ==>
                  && Coherent(ctx.View(), Written(mem, items))
                  && (RetriesRight(w, items, ctx.slots, space, mem) ==>
                        Receive(out, 0, Numbers(items), mem) == Got(|out|, Written(mem, items))))
            && (Coherent(old(ctx.View()), mem) && Once(items) ==>
                  (Receive(out, 0, Numbers(items), mem) == Got(|out|, Written(mem, items))
                   <==> RetriesRight(w, items, ctx.slots, space, mem)))
  {
    ghost var s := ctx.Now();
    QueueBatch(ctx, items);
    ghost var w := Where(ctx.Now(), 0, 0);
    assert ctx.Pending() == items;
    out := WriteCompressed(ctx, space);
    Outcome(s, w, items, ctx.slots, space, mem, out, ctx.Now());
  }

  /** What the transmission of a queued batch means for the receiver. */
  lemma Outcome(s: Slots, w: Where, items: seq<Item>, slots: nat, space: nat -> nat, mem: seq<seq<Byte>>,
                out: seq<Byte>, s': Slots)
    requires Wf(s.cache, slots) && w == Start(s, items) && Ready(w.slots, items, slots)
    requires Fit(mem, items) && out == Transmit(w, items, slots, space) && s' == Final(w.slots, items, slots)
    ensures Receive(out, 0, Numbers(items), mem) == Got(|out|, Delivered(w, items, slots, space, mem))
    ensures Coherent(s.cache, mem) && Ordered(items) ==> Coherent(s'.cache, Written(mem, items))
    ensures Coherent(s.cache, mem) && Ordered(items) && RetriesRight(w, items, slots, space, mem) ==>
              Right(w, items, slots, space, mem)
    ensures Coherent(s.cache, mem) && Once(items) ==>
              (Right(w, items, slots, space, mem) <==> RetriesRight(w, items, slots, space, mem))
  {
    hide Transmit, Delivered, RetriesRight, Receive, Final, QueuedSlots, Queued, Cached, Written;
    TransmitArrives(out, 0, |out|, w, items, slots, space, mem);
    QueuedCache(s, items);
    FinalCache(w.slots, items, slots);
    if Coherent(s.cache, mem) {
      QueuedKeeps(s.cache, items, slots, mem);
      QueuedClears(s.cache, items, slots, mem);
      if Ordered(items) {
        BatchAgrees(w.slots.cache, items, slots, mem);
        if RetriesRight(w, items, slots, space, mem) {
          RightIfRetriesAre(w, items, slots, space, mem);
        }
      }
      if Once(items) {
        RightExactly(w, items, slots, space, mem);
      }
    }
  }

  // ----------------------------------------------------------------- sessions

  /** The receiver, holding what the batches before `k` describe, gets exactly batch `k`. */
  predicate ReceivedAt(out: seq<Byte>, batches: seq<seq<Item>>, at: Point, slots: nat, k: nat)
    requires Session(batches, at, slots) && k < |batches|
  {
    var p, b := PointAt(batches, at, slots, k), batches[k];
    BatchReady(batches, p, slots, k);
    Receive(out, 0, Numbers(b), p.mem) == Got(|out|, Written(p.mem, b))
  }

  /** One batch of a session. */
  method SendNext(ctx: Context, batches: seq<seq<Item>>, k: nat, space: nat -> nat, ghost at: Point,
                  ghost spaces: nat -> (nat -> nat))
    returns (out: seq<Byte>)
    requires ctx.Valid() && ctx.queue == [] && ctx.at == 0 && k < |batches| && |batches[k]| <= QUEUE
    requires forall i :: 0 <= i < |batches[k]| ==> batches[k][i].pfn < ctx.size
    requires Session(batches, at, ctx.slots) && ctx.Now() == PointAt(batches, at, ctx.slots, k).slots
    requires Coherent(at.slots.cache, at.mem) && OnceEach(batches) && Roomy(space) && space == spaces(k)
    modifies ctx
    ensures ctx.Valid() && ctx.queue == [] && ctx.at == 0
    ensures ctx.Now() == PointAt(batches, at, ctx.slots, k + 1).slots
    ensures (ReceivedAt(out, batches, at, ctx.slots, k) <==> RetriesRightAt(batches, at, ctx.slots, spaces, k))
  {
    hide Session, Coherent, Final, QueuedSlots, RetriesRight, Receive, Written, Delivered, Once, Ordered;
    ghost var p := PointAt(batches, at, ctx.slots, k);
    SessionCoherent(batches, at, ctx.slots, k);
    BatchReady(batches, p, ctx.slots, k);
    out := SendBatch(ctx, batches[k], space, p.mem);
  }

  /** The checkpoints of a session, one batch each: the receiver follows every one of them if and only if
      every retry of every batch is right. */
  method SendSession(ctx: Context, batches: seq<seq<Item>>, spaces: nat -> (nat -> nat), ghost mem: seq<seq<Byte>>)
    returns (outs: seq<seq<Byte>>)
    requires ctx.Valid() && ctx.queue == [] && ctx.at == 0
    requires forall k :: 0 <= k < |batches| ==> |batches[k]| <= QUEUE
    requires forall k, i :: 0 <= k < |batches| && 0 <= i < |batches[k]| ==> batches[k][i].pfn < ctx.size
    requires Session(batches, Point(ctx.Now(), mem), ctx.slots) && Coherent(ctx.View(), mem) && OnceEach(batches)
    requires forall k :: Roomy(spaces(k))
    modifies ctx
    ensures ctx.Valid() && |outs| == |batches|
    ensures var at := Point(old(ctx.Now()), mem);
            && ctx.Now() == PointAt(batches, at, ctx.slots, |batches|).slots
            && ((forall k :: 0 <= k < |batches| ==> ReceivedAt(outs[k], batches, at, ctx.slots, k))
                <==> SessionRetriesRight(batches, at, ctx.slots, spaces))
  {
    hide *;
    ghost var at := Point(ctx.Now(), mem);
    PointAtStart(batches, at, ctx.slots);
    outs := [];
    for k := 0 to |batches|
      invariant ctx.Valid() && ctx.queue == [] && ctx.at == 0 && |outs| == k
      invariant ctx.Now() == PointAt(batches, at, ctx.slots, k).slots
      invariant forall j :: 0 <= j < k ==>
          (ReceivedAt(outs[j], batches, at, ctx.slots, j) <==> RetriesRightAt(batches, at, ctx.slots, spaces, j))
    {
      assert Roomy(spaces(k));
      var out := SendNext(ctx, batches, k, spaces(k), at, spaces);
      outs := outs + [out];
    }
    AllReceived(outs, batches, at, ctx.slots, spaces);
  }

  lemma PointAtStart(batches: seq<seq<Item>>, at: Point, slots: nat)
    requires Session(batches, at, slots)
    ensures PointAt(batches, at, slots, 0) == at
  {
  }

  lemma AllReceived(outs: seq<seq<Byte>>, batches: seq<seq<Item>>, at: Point, slots: nat, spaces: nat -> (nat -> nat))
    requires Session(batches, at, slots) && |outs| == |batches|
    requires forall k :: 0 <= k < |batches| ==>
               (ReceivedAt(outs[k], batches, at, slots, k) <==> RetriesRightAt(batches, at, slots, spaces, k))
    ensures (forall k :: 0 <= k < |batches| ==> ReceivedAt(outs[k], batches, at, slots, k))
            <==> SessionRetriesRight(batches, at, slots, spaces)
  {
    hide Session, ReceivedAt, RetriesRightAt;
  }
}
