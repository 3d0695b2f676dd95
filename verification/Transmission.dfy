/** A whole batch written in as many calls as it takes: write_compressed of
tools/libxc/xc_domain_save.c calls the compressor again whenever a page did not fit. What the receiver
then holds, and exactly when that is what was queued. */
module Transmission {
  import opened Sequences
  import opened PageCodec
  import opened DeltaCache
  import opened DeltaBatches
  import opened DeltaExact
  import opened DeltaSpace

  // ------------------------------------------------------------------- model

  /** How far the sender got: its slots, the number of the call and the bytes this call has written. */
  datatype Where = Where(slots: Slots, call: nat, used: nat)

  /** Every call has space for a page whatever it holds. */
  ghost predicate Roomy(space: nat -> nat) {
    forall k :: space(k) >= WORST
  }

  predicate Fits(w: Where, it: Item, space: nat -> nat) {
    w.used + Need(w.slots.cache, it) <= space(w.call)
  }

  /** The page finds its space, in this call or, after a refusal, in the next one. */
  function Settled(w: Where, it: Item, slots: nat, space: nat -> nat): Where {
    if Fits(w, it, space) then w else Where(Balked(w.slots, it, slots), w.call + 1, 0)
  }

  function Next(w: Where, it: Item, slots: nat): Where
    requires Pages(w.slots.cache) && IsPage(it.page)
  {
    Where(Took(w.slots, it, slots), w.call, w.used + |Message(w.slots.cache, it)|)
  }

  lemma Steps(w: Where, items: seq<Item>, slots: nat, space: nat -> nat)
    requires Ready(w.slots, items, slots) && items != []
    ensures var v := Settled(w, items[0], slots, space);
            && Ready(v.slots, items, slots) && Ready(Next(v, items[0], slots).slots, items[1..], slots)
            && Next(v, items[0], slots).slots == Took(w.slots, items[0], slots)
  {
    BalkedReady(w.slots, items, slots);
    BalkedThenTook(w.slots, items, slots);
    TookReady(w.slots, items, slots);
    hide Took, Balked, Message, Need;
  }

  /** The bytes of all calls together. */
  function Transmit(w: Where, items: seq<Item>, slots: nat, space: nat -> nat): seq<Byte>
    requires Ready(w.slots, items, slots)
    decreases |items|
  {
    if items == [] then []
    else
      Steps(w, items, slots, space);
      var v := Settled(w, items[0], slots, space);
      Message(v.slots.cache, items[0]) + Transmit(Next(v, items[0], slots), items[1..], slots, space)
  }

  /** What one message makes of the page the receiver holds. */
  function Result(c: Cache, it: Item, held: seq<Byte>): (r: seq<Byte>)
    requires Pages(c) && IsPage(it.page) && IsPage(held)
    ensures IsPage(r)
  {
    if !it.raw && Hit(c, it.pfn) then Overlay(it.page, c[IndexOf(c, it.pfn)].page, held) else it.page
  }

  /** The receiver's memory after the batch. */
  function Delivered(w: Where, items: seq<Item>, slots: nat, space: nat -> nat, mem: seq<seq<Byte>>): (r: seq<seq<Byte>>)
    requires Ready(w.slots, items, slots) && Fit(mem, items)
    ensures |r| == |mem|
    decreases |items|
  {
    if items == [] then mem
    else
      Steps(w, items, slots, space);
      var it, v := items[0], Settled(w, items[0], slots, space);
      Delivered(Next(v, it, slots), items[1..], slots, space,
                mem[it.pfn := Result(v.slots.cache, it, mem[it.pfn])])
  }

  /** A page that is not cached is refused, and will be compared with what its slot happens to hold. */
  predicate Lost(w: Where, it: Item, space: nat -> nat) {
    !Fits(w, it, space) && !it.raw && !Hit(w.slots.cache, it.pfn)
  }

  predicate MissRefused(w: Where, items: seq<Item>, slots: nat, space: nat -> nat)
    requires Ready(w.slots, items, slots)
    decreases |items|
  {
    items != [] &&
    (Steps(w, items, slots, space);
     || Lost(w, items[0], space)
     || MissRefused(Next(Settled(w, items[0], slots, space), items[0], slots), items[1..], slots, space))
  }

  /** Wherever that happens, each word the page has in common with what the slot held is also the
      receiver's. */
  predicate RetriesRight(w: Where, items: seq<Item>, slots: nat, space: nat -> nat, mem: seq<seq<Byte>>)
    requires Ready(w.slots, items, slots) && Fit(mem, items)
    decreases |items|
  {
    items == [] ||
    (Steps(w, items, slots, space);
     FitStep(mem, items);
     StaleIsPage(w.slots, slots);
     var it := items[0];
     && (Lost(w, it, space) ==> Keeps(it.page, Stale(w.slots.cache, w.slots.spare), mem[it.pfn]))
     && RetriesRight(Next(Settled(w, it, slots, space), it, slots), items[1..], slots, space, mem[it.pfn := it.page]))
  }

  /** The slots after a batch. */
  function Final(s: Slots, items: seq<Item>, slots: nat): Slots
    decreases |items|
  {
    if items == [] then s else Final(Took(s, items[0], slots), items[1..], slots)
  }

  lemma {:induction false} FinalCache(s: Slots, items: seq<Item>, slots: nat)
    ensures Final(s, items, slots).cache == Cached(s.cache, items, slots)
    decreases |items|
  {
    hide After, SpareAfter;
    if items != [] {
      FinalCache(Took(s, items[0], slots), items[1..], slots);
    }
  }

  // ---------------------------------------------------------- call after call

  lemma TransmitStep(w: Where, items: seq<Item>, slots: nat, space: nat -> nat, v: Where, u: Where, msg: seq<Byte>)
    requires Ready(w.slots, items, slots) && items != [] && v == Settled(w, items[0], slots, space)
    requires Ready(v.slots, items, slots) && u == Next(v, items[0], slots) && Ready(u.slots, items[1..], slots)
    requires msg == Message(v.slots.cache, items[0])
    ensures Transmit(w, items, slots, space) == msg + Transmit(u, items[1..], slots, space)
  {
    hide Message, Ready, Settled, Next;
  }

  /** A page is refused at most once. */
  lemma SettledOnce(w: Where, items: seq<Item>, slots: nat, space: nat -> nat)
    requires Ready(w.slots, items, slots) && items != [] && Roomy(space)
    ensures var v := Settled(w, items[0], slots, space);
            Settled(v, items[0], slots, space) == v
  {
    var v := Settled(w, items[0], slots, space);
    Steps(w, items, slots, space);
    MessageFits(v.slots.cache, items[0]);
    assert space(v.call) >= WORST;
    hide Need, Balked, Message, Took;
  }

  lemma TransmitBalked(w: Where, items: seq<Item>, slots: nat, space: nat -> nat, v: Where)
    requires Ready(w.slots, items, slots) && items != [] && Roomy(space) && v == Settled(w, items[0], slots, space)
    requires Ready(v.slots, items, slots)
    ensures Transmit(w, items, slots, space) == Transmit(v, items, slots, space)
  {
    SettledOnce(w, items, slots, space);
    Steps(w, items, slots, space);
    var u, msg := Next(v, items[0], slots), Message(v.slots.cache, items[0]);
    TransmitStep(w, items, slots, space, v, u, msg);
    TransmitStep(v, items, slots, space, v, u, msg);
    hide Message, Ready, Settled, Next, Transmit;
  }

  /** What one call wrote is the first part of the transmission, and the next call goes on behind it. */
  predicate Continues(w: Where, items: seq<Item>, slots: nat, space: nat -> nat, r: Called)
    requires Ready(w.slots, items, slots)
  {
    && r.sent <= |items| && Ready(r.after, items[r.sent..], slots)
    && (Transmit(w, items, slots, space)
        == r.out + Transmit(Where(r.after, w.call + 1, 0), items[r.sent..], slots, space))
    && Final(w.slots, items, slots) == Final(r.after, items[r.sent..], slots)
  }

  lemma ContinuesNone(w: Where, slots: nat, space: nat -> nat)
    requires Ready(w.slots, [], slots)
    ensures Continues(w, [], slots, space, Called([], 0, w.slots))
  {
    var items: seq<Item> := [];
    assert items[0..] == [];
  }

  lemma ContinuesBalked(w: Where, items: seq<Item>, slots: nat, space: nat -> nat, v: Where)
    requires Ready(w.slots, items, slots) && items != [] && Roomy(space) && !Fits(w, items[0], space)
    requires v == Settled(w, items[0], slots, space) && Ready(v.slots, items, slots)
    ensures Continues(w, items, slots, space, Called([], 0, v.slots))
  {
    TransmitBalked(w, items, slots, space, v);
    BalkedThenTook(w.slots, items, slots);
    hide Took, Balked, Ready, Transmit, Fits;
    assert items[0..] == items;
    assert [] + Transmit(v, items, slots, space) == Transmit(v, items, slots, space);
  }

  lemma ContinuesMore(w: Where, items: seq<Item>, slots: nat, space: nat -> nat, u: Where, q: Called, msg: seq<Byte>)
    requires Ready(w.slots, items, slots) && items != [] && Ready(u.slots, items[1..], slots) && u.call == w.call
    requires u.slots == Took(w.slots, items[0], slots)
    requires Transmit(w, items, slots, space) == msg + Transmit(u, items[1..], slots, space)
    requires Continues(u, items[1..], slots, space, q)
    ensures Continues(w, items, slots, space, Onto(msg, 1, q))
  {
    hide Took, Ready, Transmit;
    assert items[1..][q.sent..] == items[q.sent + 1..];
    Regroup(msg, q.out, Transmit(Where(q.after, w.call + 1, 0), items[q.sent + 1..], slots, space));
  }

  lemma {:induction false} TransmitCall(w: Where, items: seq<Item>, slots: nat, space: nat -> nat)
    requires Ready(w.slots, items, slots) && Roomy(space)
    ensures Continues(w, items, slots, space, Call(w.slots, items, slots, space(w.call), w.used))
    decreases |items|
  {
    hide Continues, Transmit, Took, Balked, Message, Need;
    if items == [] {
      ContinuesNone(w, slots, space);
    } else {
      Steps(w, items, slots, space);
      if !Fits(w, items[0], space) {
        ContinuesBalked(w, items, slots, space, Settled(w, items[0], slots, space));
      } else {
        var u, msg := Next(w, items[0], slots), Message(w.slots.cache, items[0]);
        var q := Call(u.slots, items[1..], slots, space(u.call), u.used);
        CallUnfold(w.slots, items, slots, space(w.call), w.used, u.slots, msg, q);
        TransmitStep(w, items, slots, space, w, u, msg);
        TransmitCall(u, items[1..], slots, space);
        ContinuesMore(w, items, slots, space, u, q, msg);
        hide Ready, Call;
      }
    }
  }

  // ------------------------------------------------------------- the receiver

  lemma ResultAt(c: Cache, it: Item, held: seq<Byte>, buf: seq<Byte>, pos: nat)
    requires Pages(c) && IsPage(it.page) && IsPage(held) && HoldsAt(buf, pos, Message(c, it))
    ensures Decode(buf, pos, held) == Ok(pos + |Message(c, it)|, Result(c, it, held))
  {
    var msg := Message(c, it);
    assert buf == buf[..pos] + msg + buf[pos + |msg|..];
    if !it.raw && Hit(c, it.pfn) {
      DecodeOver(it.page, c[IndexOf(c, it.pfn)].page, held, buf[..pos], buf[pos + |msg|..]);
    } else {
      RoundTripFull(it.page, held, buf[..pos], buf[pos + |msg|..]);
    }
    hide Decode, Encode, Overlay;
  }

  predicate TransmitAt(buf: seq<Byte>, pos: nat, end: nat, w: Where, items: seq<Item>, slots: nat, space: nat -> nat)
    requires Ready(w.slots, items, slots)
  {
    HoldsAt(buf, pos, Transmit(w, items, slots, space)) && end == pos + |Transmit(w, items, slots, space)|
  }

  /** The receiver gets through the batch, stops at `end` and holds what is called delivered. */
  predicate Arrived(buf: seq<Byte>, pos: nat, end: nat, w: Where, items: seq<Item>, slots: nat, space: nat -> nat,
                    mem: seq<seq<Byte>>)
    requires Ready(w.slots, items, slots) && Fit(mem, items)
  {
    Receive(buf, pos, Numbers(items), mem) == Got(end, Delivered(w, items, slots, space, mem))
  }

  lemma ArrivedNone(buf: seq<Byte>, pos: nat, end: nat, w: Where, slots: nat, space: nat -> nat, mem: seq<seq<Byte>>)
    requires Ready(w.slots, [], slots) && Fit(mem, []) && TransmitAt(buf, pos, end, w, [], slots, space)
    ensures Arrived(buf, pos, end, w, [], slots, space, mem)
  {
  }

  lemma ArrivedStep(buf: seq<Byte>, pos: nat, mid: nat, end: nat, w: Where, items: seq<Item>, slots: nat,
                    space: nat -> nat, mem: seq<seq<Byte>>, v: Where, u: Where, page: seq<Byte>,
                    mem': seq<seq<Byte>>)
    requires Ready(w.slots, items, slots) && items != [] && Fit(mem, items)
    requires v == Settled(w, items[0], slots, space) && Ready(v.slots, items, slots)
    requires u == Next(v, items[0], slots) && Ready(u.slots, items[1..], slots)
    requires page == Result(v.slots.cache, items[0], mem[items[0].pfn]) && mem' == mem[items[0].pfn := page]
    requires Decode(buf, pos, mem[items[0].pfn]) == Ok(mid, page)
    requires Fit(mem', items[1..]) && Arrived(buf, mid, end, u, items[1..], slots, space, mem')
    ensures Arrived(buf, pos, end, w, items, slots, space, mem)
  {
    hide Decode, Ready, Settled, Next, Result;
    assert Numbers(items)[1..] == Numbers(items[1..]);
  }

  lemma FirstArrives(buf: seq<Byte>, pos: nat, end: nat, w: Where, items: seq<Item>, slots: nat, space: nat -> nat,
                     held: seq<Byte>, v: Where, u: Where) returns (mid: nat)
    requires Ready(w.slots, items, slots) && items != [] && IsPage(held)
    requires v == Settled(w, items[0], slots, space) && Ready(v.slots, items, slots)
    requires u == Next(v, items[0], slots) && Ready(u.slots, items[1..], slots)
    requires TransmitAt(buf, pos, end, w, items, slots, space)
    ensures Decode(buf, pos, held) == Ok(mid, Result(v.slots.cache, items[0], held))
    ensures TransmitAt(buf, mid, end, u, items[1..], slots, space)
  {
    hide Decode, Result, HoldsAt, Transmit, Settled, Next, Encode, EncodeFull;
    var msg := Message(v.slots.cache, items[0]);
    hide Message;
    TransmitStep(w, items, slots, space, v, u, msg);
    HoldsParts(buf, pos, Transmit(w, items, slots, space), msg, Transmit(u, items[1..], slots, space));
    ResultAt(v.slots.cache, items[0], held, buf, pos);
    mid := pos + |msg|;
  }

  /** Whatever was refused on the way, the receiver decodes every page and stops at the end. */
  lemma {:induction false} TransmitArrives(buf: seq<Byte>, pos: nat, end: nat, w: Where, items: seq<Item>, slots: nat,
                                           space: nat -> nat, mem: seq<seq<Byte>>)
    requires Ready(w.slots, items, slots) && Fit(mem, items) && TransmitAt(buf, pos, end, w, items, slots, space)
    ensures Arrived(buf, pos, end, w, items, slots, space, mem)
    decreases |items|
  {
    hide Arrived, TransmitAt, Settled, Next, Decode, Result;
    if items == [] {
      ArrivedNone(buf, pos, end, w, slots, space, mem);
    } else {
      Steps(w, items, slots, space);
      var v := Settled(w, items[0], slots, space);
      var u, page := Next(v, items[0], slots), Result(v.slots.cache, items[0], mem[items[0].pfn]);
      var mem' := mem[items[0].pfn := page];
      assert Fit(mem', items[1..]);
      var mid := FirstArrives(buf, pos, end, w, items, slots, space, mem[items[0].pfn], v, u);
      TransmitArrives(buf, mid, end, u, items[1..], slots, space, mem');
      ArrivedStep(buf, pos, mid, end, w, items, slots, space, mem, v, u, page, mem');
    }
  }

  // --------------------------------------------------------------- exactness

  /** While the cache agrees with the receiver, a page arrives as it was queued unless it was refused
      without being cached, and then exactly if the words it shares with the slot are the receiver's. */
  lemma ResultExact(w: Where, items: seq<Item>, slots: nat, space: nat -> nat, mem: seq<seq<Byte>>)
    requires Ready(w.slots, items, slots) && items != [] && Fit(mem, items) && Coherent(w.slots.cache, mem)
    ensures IsPage(Stale(w.slots.cache, w.slots.spare))
    ensures var it, v := items[0], Settled(w, items[0], slots, space);
            && Ready(v.slots, items, slots)
            && (Result(v.slots.cache, it, mem[it.pfn]) == it.page
                <==> Lost(w, it, space) ==> Keeps(it.page, Stale(w.slots.cache, w.slots.spare), mem[it.pfn]))
  {
    var it := items[0];
    StaleIsPage(w.slots, slots);
    Steps(w, items, slots, space);
    BalkedThenTook(w.slots, items, slots);
    hide Balked, Took, Need, Overlay, Keeps, Message;
    if !it.raw && Hit(w.slots.cache, it.pfn) {
      assert w.slots.cache[IndexOf(w.slots.cache, it.pfn)].page == mem[it.pfn];
      OverlayOwn(it.page, mem[it.pfn]);
    } else if Lost(w, it, space) {
      OverlayIsNew(it.page, Stale(w.slots.cache, w.slots.spare), mem[it.pfn]);
    }
  }

  lemma DeliveredStep(w: Where, items: seq<Item>, slots: nat, space: nat -> nat, mem: seq<seq<Byte>>, v: Where,
                      u: Where, page: seq<Byte>)
    requires Ready(w.slots, items, slots) && items != [] && Fit(mem, items)
    requires v == Settled(w, items[0], slots, space) && Ready(v.slots, items, slots)
    requires u == Next(v, items[0], slots) && Ready(u.slots, items[1..], slots)
    requires page == Result(v.slots.cache, items[0], mem[items[0].pfn])
    ensures Fit(mem[items[0].pfn := page], items[1..])
    ensures (Delivered(w, items, slots, space, mem)
             == Delivered(u, items[1..], slots, space, mem[items[0].pfn := page]))
  {
    hide Ready, Settled, Next, Result;
  }

  lemma RetriesStep(w: Where, items: seq<Item>, slots: nat, space: nat -> nat, mem: seq<seq<Byte>>, u: Where,
                    stale: seq<Byte>)
    requires Ready(w.slots, items, slots) && items != [] && Fit(mem, items)
    requires Ready(Settled(w, items[0], slots, space).slots, items, slots)
    requires u == Next(Settled(w, items[0], slots, space), items[0], slots) && Ready(u.slots, items[1..], slots)
    requires stale == Stale(w.slots.cache, w.slots.spare) && IsPage(stale)
    requires Fit(mem[items[0].pfn := items[0].page], items[1..])
    ensures (RetriesRight(w, items, slots, space, mem)
             <==> (Lost(w, items[0], space) ==> Keeps(items[0].page, stale, mem[items[0].pfn]))
                  && RetriesRight(u, items[1..], slots, space, mem[items[0].pfn := items[0].page]))
  {
    hide Ready, Settled, Next, Lost, Keeps, Stale;
  }

  predicate Right(w: Where, items: seq<Item>, slots: nat, space: nat -> nat, mem: seq<seq<Byte>>)
    requires Ready(w.slots, items, slots) && Fit(mem, items)
  {
    Delivered(w, items, slots, space, mem) == Written(mem, items)
  }

  /** One page of the batch, in a state where cache and receiver agree. */
  lemma RightStep(w: Where, items: seq<Item>, slots: nat, space: nat -> nat, mem: seq<seq<Byte>>)
    returns (u: Where, mem': seq<seq<Byte>>, page: seq<Byte>)
    requires Ready(w.slots, items, slots) && items != [] && Fit(mem, items) && Coherent(w.slots.cache, mem)
    requires Clear(w.slots.cache, items) && Ordered(items)
    ensures mem' == mem[items[0].pfn := items[0].page] && Fit(mem', items[1..]) && Ready(u.slots, items[1..], slots)
    ensures Coherent(u.slots.cache, mem') && Clear(u.slots.cache, items[1..]) && Ordered(items[1..])
    ensures (RetriesRight(w, items, slots, space, mem)
             <==> page == items[0].page && RetriesRight(u, items[1..], slots, space, mem'))
    ensures Fit(mem[items[0].pfn := page], items[1..])
    ensures (Delivered(w, items, slots, space, mem)
             == Delivered(u, items[1..], slots, space, mem[items[0].pfn := page]))
  {
    var it, stale := items[0], Stale(w.slots.cache, w.slots.spare);
    Steps(w, items, slots, space);
    FitStep(mem, items);
    StepCoherent(w.slots.cache, mem, it, slots);
    ClearStep(w.slots.cache, items, slots);
    ResultExact(w, items, slots, space, mem);
    var v := Settled(w, it, slots, space);
    page := Result(v.slots.cache, it, mem[it.pfn]);
    u, mem' := Next(v, it, slots), mem[it.pfn := it.page];
    DeliveredStep(w, items, slots, space, mem, v, u, page);
    RetriesStep(w, items, slots, space, mem, u, stale);
    hide Settled, Result, Message, Keeps, Need, After, RetriesRight, Delivered, Clear, Ordered, Coherent, Ready;
  }

  /** A batch in order arrives as it was queued whenever the retries are right. */
  lemma {:induction false} RightIfRetriesAre(w: Where, items: seq<Item>, slots: nat, space: nat -> nat,
                                             mem: seq<seq<Byte>>)
    requires Ready(w.slots, items, slots) && Fit(mem, items) && Coherent(w.slots.cache, mem)
    requires Clear(w.slots.cache, items) && Ordered(items) && RetriesRight(w, items, slots, space, mem)
    ensures Right(w, items, slots, space, mem)
    decreases |items|
  {
    hide Ready, Fit, Coherent, Clear, Ordered, RetriesRight;
    if items != [] {
      var u, mem', page := RightStep(w, items, slots, space, mem);
      RightIfRetriesAre(u, items[1..], slots, space, mem');
    }
  }

  /** No page number occurs twice: what the saver queues in one pass over the memory. */
  predicate Once(items: seq<Item>) {
    forall i, k :: 0 <= i < k < |items| ==> items[i].pfn != items[k].pfn
  }

  /** Neither what arrives nor what was queued changes a page of another number. */
  lemma {:induction false} Untouched(w: Where, items: seq<Item>, slots: nat, space: nat -> nat, mem: seq<seq<Byte>>,
                                     p: nat)
    requires Ready(w.slots, items, slots) && Fit(mem, items) && p < |mem|
    requires forall i :: 0 <= i < |items| ==> items[i].pfn != p
    ensures Delivered(w, items, slots, space, mem)[p] == mem[p]
    decreases |items|
  {
    if items != [] {
      Steps(w, items, slots, space);
      var it, v := items[0], Settled(w, items[0], slots, space);
      var page := Result(v.slots.cache, it, mem[it.pfn]);
      DeliveredStep(w, items, slots, space, mem, v, Next(v, it, slots), page);
      Untouched(Next(v, it, slots), items[1..], slots, space, mem[it.pfn := page], p);
      hide Settled, Next, Result, Ready, Delivered;
    }
  }

  /** A batch of distinct pages arrives as it was queued if and only if the retries are right. */
  lemma {:induction false} RightExactly(w: Where, items: seq<Item>, slots: nat, space: nat -> nat,
                                        mem: seq<seq<Byte>>)
    requires Ready(w.slots, items, slots) && Fit(mem, items) && Coherent(w.slots.cache, mem)
    requires Clear(w.slots.cache, items) && Once(items)
    ensures Right(w, items, slots, space, mem) <==> RetriesRight(w, items, slots, space, mem)
    decreases |items|
  {
    if items != [] {
      hide Ready, Coherent, Clear, RetriesRight;
      var it := items[0];
      var u, mem', page := RightStep(w, items, slots, space, mem);
      RightExactly(u, items[1..], slots, space, mem');
      if page != it.page {
        Untouched(u, items[1..], slots, space, mem[it.pfn := page], it.pfn);
        WrittenIsLast(mem, items, it.pfn, 0);
        hide Delivered, Written, Fit, Once;
      }
    }
  }

  // ---------------------------------------------------- when nothing is lost

  /** Without a refusal of a page that is not cached there is nothing to get right. */
  lemma {:induction false} NothingLost(w: Where, items: seq<Item>, slots: nat, space: nat -> nat,
                                       mem: seq<seq<Byte>>)
    requires Ready(w.slots, items, slots) && Fit(mem, items) && !MissRefused(w, items, slots, space)
    ensures RetriesRight(w, items, slots, space, mem)
    decreases |items|
  {
    if items != [] {
      hide RetriesRight, Settled, Message, Took;
      Steps(w, items, slots, space);
      var u := Next(Settled(w, items[0], slots, space), items[0], slots);
      FitStep(mem, items);
      StaleIsPage(w.slots, slots);
      RetriesStep(w, items, slots, space, mem, u, Stale(w.slots.cache, w.slots.spare));
      NothingLost(u, items[1..], slots, space, mem[items[0].pfn := items[0].page]);
    }
  }

  /** The refusal of a page that was raw or cached changes nothing that will be sent. */
  lemma RefusalInvisible(w: Where, items: seq<Item>, slots: nat, space: nat -> nat)
    requires Ready(w.slots, items, slots) && items != [] && !Lost(w, items[0], space)
    ensures var v := Settled(w, items[0], slots, space);
            Ready(v.slots, items, slots) && Message(v.slots.cache, items[0]) == Message(w.slots.cache, items[0])
  {
    Steps(w, items, slots, space);
    BalkedThenTook(w.slots, items, slots);
    hide Balked, Took, Need, Encode, EncodeFull;
  }

  /** Then the pieces make up the stream of the batch, however it was cut. */
  lemma {:induction false} PiecesMakeStream(w: Where, items: seq<Item>, slots: nat, space: nat -> nat)
    requires Ready(w.slots, items, slots) && !MissRefused(w, items, slots, space)
    ensures Transmit(w, items, slots, space) == Stream(w.slots.cache, items, slots)
    decreases |items|
  {
    if items != [] {
      Steps(w, items, slots, space);
      RefusalInvisible(w, items, slots, space);
      var v := Settled(w, items[0], slots, space);
      var u, msg := Next(v, items[0], slots), Message(v.slots.cache, items[0]);
      TransmitStep(w, items, slots, space, v, u, msg);
      PiecesMakeStream(u, items[1..], slots, space);
      hide Settled, Message, Transmit, Lost, After;
    }
  }

  predicate AllCached(c: Cache, items: seq<Item>) {
    forall i :: 0 <= i < |items| ==> items[i].raw || Hit(c, items[i].pfn)
  }

  lemma StaysCached(c: Cache, it: Item, slots: nat, q: nat)
    requires Wf(c, slots) && slots > 0 && (it.raw || Hit(c, it.pfn)) && Hit(c, q)
    ensures Hit(After(c, it, slots), q)
  {
    if !it.raw {
      WithoutHas(c, it.pfn);
      var w, e, c' := Without(c, it.pfn), c[IndexOf(c, q)], After(c, it, slots);
      if q == it.pfn {
        HitAt(c', q, 0);
      } else {
        assert e in w;
        var k :| 0 <= k < |w| && w[k] == e;
        HitAt(c', q, k + 1);
      }
    }
  }

  /** Enough for that: every page of the batch that is not raw is cached once it is queued, */
  lemma {:induction false} CachedIsEnough(w: Where, items: seq<Item>, slots: nat, space: nat -> nat)
    requires Ready(w.slots, items, slots) && AllCached(w.slots.cache, items)
    ensures !MissRefused(w, items, slots, space)
    decreases |items|
  {
    if items != [] {
      Steps(w, items, slots, space);
      var u := Next(Settled(w, items[0], slots, space), items[0], slots);
      forall i | 0 <= i < |items[1..]|
        ensures items[1..][i].raw || Hit(u.slots.cache, items[1..][i].pfn)
      {
        if !items[i + 1].raw {
          StaysCached(w.slots.cache, items[0], slots, items[i + 1].pfn);
        }
      }
      CachedIsEnough(u, items[1..], slots, space);
      hide Settled, Next, Ready;
    }
  }

  lemma MissStep(w: Where, items: seq<Item>, slots: nat, space: nat -> nat, v: Where, u: Where)
    requires Ready(w.slots, items, slots) && items != [] && v == Settled(w, items[0], slots, space)
    requires Ready(v.slots, items, slots) && u == Next(v, items[0], slots) && Ready(u.slots, items[1..], slots)
    ensures (MissRefused(w, items, slots, space)
             <==> Lost(w, items[0], space) || MissRefused(u, items[1..], slots, space))
  {
    hide Ready, Settled, Next, Lost;
  }

  lemma FirstFits(w: Where, items: seq<Item>, slots: nat, space: nat -> nat) returns (u: Where)
    requires Ready(w.slots, items, slots) && items != [] && w.used + |items| * WORST <= space(w.call)
    ensures Settled(w, items[0], slots, space) == w && !Lost(w, items[0], space) && u == Next(w, items[0], slots)
    ensures u.used + |items[1..]| * WORST <= space(u.call) && Ready(u.slots, items[1..], slots)
  {
    hide Need, Message, Took, Balked;
    Steps(w, items, slots, space);
    MessageFits(w.slots.cache, items[0]);
    u := Next(w, items[0], slots);
    hide Ready;
    assert |items| * WORST == WORST + |items[1..]| * WORST;
  }

  /** or the first call has space for the whole batch. */
  lemma {:induction false} SpaceIsEnough(w: Where, items: seq<Item>, slots: nat, space: nat -> nat)
    requires Ready(w.slots, items, slots) && w.used + |items| * WORST <= space(w.call)
    ensures !MissRefused(w, items, slots, space)
    decreases |items|
  {
    if items != [] {
      hide MissRefused, Settled, Next, Lost, Ready;
      var u := FirstFits(w, items, slots, space);
      MissStep(w, items, slots, space, w, u);
      SpaceIsEnough(u, items[1..], slots, space);
    }
  }

  // ----------------------------------------------------------------- sessions

  lemma DroppedReady(s: Slots, it: Item, slots: nat)
    requires Ready(s, [], slots)
    ensures Ready(Dropped(s, it), [], slots)
  {
    hide IndexOf;
    WithoutHas(s.cache, it.pfn);
    var w := Without(s.cache, it.pfn);
    assert forall k :: 0 <= k < |w| ==> w[k] in w;
  }

  lemma {:induction false} QueuedReady(s: Slots, items: seq<Item>, slots: nat)
    requires Ready(s, [], slots)
    ensures Ready(QueuedSlots(s, items), [], slots)
    decreases |items|
  {
    hide Ready, Dropped;
    if items != [] {
      DroppedReady(s, items[0], slots);
      QueuedReady(Dropped(s, items[0]), items[1..], slots);
    }
  }

  lemma {:induction false} FinalReady(s: Slots, items: seq<Item>, slots: nat)
    requires Ready(s, items, slots)
    ensures Ready(Final(s, items, slots), [], slots)
    decreases |items|
  {
    hide Took;
    if items != [] {
      TookReady(s, items, slots);
      FinalReady(Took(s, items[0], slots), items[1..], slots);
    }
  }

  /** Where the sender is with a batch queued. */
  function Start(s: Slots, items: seq<Item>): Where {
    Where(QueuedSlots(s, items), 0, 0)
  }

  /** Between two batches: the slots, and the memory that the batches so far describe. */
  datatype Point = Point(slots: Slots, mem: seq<seq<Byte>>)

  /** The batches can be sent from here to a receiver of this size. */
  predicate Session(batches: seq<seq<Item>>, at: Point, slots: nat) {
    Ready(at.slots, [], slots) && Memory(at.mem) && SessionFit(batches, |at.mem|)
  }

  function Advanced(at: Point, b: seq<Item>, slots: nat): Point
    requires Fit(at.mem, b)
  {
    Point(Final(Start(at.slots, b).slots, b, slots), Written(at.mem, b))
  }

  lemma BatchReady(batches: seq<seq<Item>>, at: Point, slots: nat, k: nat)
    requires Session(batches, at, slots) && k < |batches|
    ensures var b := batches[k];
            && Ready(Start(at.slots, b).slots, b, slots) && Fit(at.mem, b) && Session(batches, Advanced(at, b, slots), slots)
  {
    var b := batches[k];
    assert forall i :: 0 <= i < |b| ==> Fine(b[i], at.mem);
    QueuedReady(at.slots, b, slots);
    FinalReady(Start(at.slots, b).slots, b, slots);
    WrittenMemory(at.mem, b);
  }

  /** The point in front of batch `k`. */
  function PointAt(batches: seq<seq<Item>>, at: Point, slots: nat, k: nat): (r: Point)
    requires Session(batches, at, slots) && k <= |batches|
    ensures Session(batches, r, slots)
    decreases k
  {
    if k == 0 then at
    else
      var p := PointAt(batches, at, slots, k - 1);
      BatchReady(batches, p, slots, k - 1);
      Advanced(p, batches[k - 1], slots)
  }

  /** Batch `k` of the session arrives as it was queued; it is written to the buffers of `spaces(k)`. */
  predicate RightAt(batches: seq<seq<Item>>, at: Point, slots: nat, spaces: nat -> (nat -> nat), k: nat)
    requires Session(batches, at, slots) && k < |batches|
  {
    var p, b := PointAt(batches, at, slots, k), batches[k];
    BatchReady(batches, p, slots, k);
    Right(Start(p.slots, b), b, slots, spaces(k), p.mem)
  }

  predicate RetriesRightAt(batches: seq<seq<Item>>, at: Point, slots: nat, spaces: nat -> (nat -> nat), k: nat)
    requires Session(batches, at, slots) && k < |batches|
  {
    var p, b := PointAt(batches, at, slots, k), batches[k];
    BatchReady(batches, p, slots, k);
    RetriesRight(Start(p.slots, b), b, slots, spaces(k), p.mem)
  }

  predicate SessionRight(batches: seq<seq<Item>>, at: Point, slots: nat, spaces: nat -> (nat -> nat))
    requires Session(batches, at, slots)
  {
    forall k :: 0 <= k < |batches| ==> RightAt(batches, at, slots, spaces, k)
  }

  predicate SessionRetriesRight(batches: seq<seq<Item>>, at: Point, slots: nat, spaces: nat -> (nat -> nat))
    requires Session(batches, at, slots)
  {
    forall k :: 0 <= k < |batches| ==> RetriesRightAt(batches, at, slots, spaces, k)
  }

  predicate OnceEach(batches: seq<seq<Item>>) {
    forall k :: 0 <= k < |batches| ==> Once(batches[k])
  }

  lemma OnceOrdered(items: seq<Item>)
    requires Once(items)
    ensures Ordered(items)
  {
  }

  /** One batch of a session: exact, and the cache agrees with what was queued. */
  lemma SessionStep(s: Slots, b: seq<Item>, slots: nat, space: nat -> nat, mem: seq<seq<Byte>>)
    requires Ready(s, [], slots) && Ready(Start(s, b).slots, b, slots) && Fit(mem, b) && Coherent(s.cache, mem) && Once(b)
    ensures Right(Start(s, b), b, slots, space, mem) <==> RetriesRight(Start(s, b), b, slots, space, mem)
    ensures Coherent(Final(Start(s, b).slots, b, slots).cache, Written(mem, b))
  {
    hide Right, RetriesRight, Once, Ordered, Coherent, Fit, QueuedSlots, Final;
    QueuedCache(s, b);
    QueuedKeeps(s.cache, b, slots, mem);
    QueuedClears(s.cache, b, slots, mem);
    OnceOrdered(b);
    RightExactly(Start(s, b), b, slots, space, mem);
    BatchAgrees(Start(s, b).slots.cache, b, slots, mem);
    FinalCache(Start(s, b).slots, b, slots);
  }

  /** In front of every batch the cache agrees with what was queued before. */
  lemma {:induction false} SessionCoherent(batches: seq<seq<Item>>, at: Point, slots: nat, k: nat)
    requires Session(batches, at, slots) && Coherent(at.slots.cache, at.mem) && OnceEach(batches) && k <= |batches|
    ensures var p := PointAt(batches, at, slots, k);
            Coherent(p.slots.cache, p.mem)
  {
    hide Session, Once, Coherent, Final, QueuedSlots;
    if k > 0 {
      SessionCoherent(batches, at, slots, k - 1);
      var p := PointAt(batches, at, slots, k - 1);
      BatchReady(batches, p, slots, k - 1);
      PointReady(batches, p, slots);
      SessionStep(p.slots, batches[k - 1], slots, _ => 0, p.mem);
    }
  }

  lemma PointReady(batches: seq<seq<Item>>, at: Point, slots: nat)
    requires Session(batches, at, slots)
    ensures Ready(at.slots, [], slots)
  {
  }

  /** Over whole sessions, the cache and its stale slots carrying over: every batch arrives as it was
      queued if and only if every retry of every batch is right. */
  lemma SessionRightExactly(batches: seq<seq<Item>>, at: Point, slots: nat, spaces: nat -> (nat -> nat))
    requires Session(batches, at, slots) && Coherent(at.slots.cache, at.mem) && OnceEach(batches)
    ensures SessionRight(batches, at, slots, spaces) <==> SessionRetriesRight(batches, at, slots, spaces)
  {
    hide Session, Once, Coherent, Right, RetriesRight, PointAt, QueuedSlots;
    forall k | 0 <= k < |batches|
      ensures RightAt(batches, at, slots, spaces, k) <==> RetriesRightAt(batches, at, slots, spaces, k)
    {
      var p := PointAt(batches, at, slots, k);
      SessionCoherent(batches, at, slots, k);
      BatchReady(batches, p, slots, k);
      PointReady(batches, p, slots);
      SessionStep(p.slots, batches[k], slots, spaces(k), p.mem);
    }
  }

  // ------------------------------------------------------------- a wrong page

  /** Every slot holds a page of ones. */
  predicate Ones(s: Slots, slots: nat) {
    |s.cache| == slots && s.spare == [] && forall i :: 0 <= i < |s.cache| ==> s.cache[i].page == Blank(1)
  }

  /** Pages of ones that are not cached and that the receiver does not have yet. */
  predicate News(s: Slots, items: seq<Item>, mem: seq<seq<Byte>>) {
    && Once(items)
    && forall i :: 0 <= i < |items| ==>
         && items[i] == Item(items[i].pfn, Blank(1), false) && items[i].pfn < |mem| && mem[items[i].pfn] == Blank(0)
         && !Hit(s.cache, items[i].pfn)
  }

  lemma OnesStep(s: Slots, items: seq<Item>, mem: seq<seq<Byte>>, slots: nat)
    requires Ready(s, items, slots) && items != [] && Ones(s, slots) && News(s, items, mem)
    ensures var s', mem' := Took(s, items[0], slots), mem[items[0].pfn := Blank(1)];
            Ones(s', slots) && News(s', items[1..], mem')
  {
    var it, s' := items[0], Took(s, items[0], slots);
    PlaceWf(s.cache, it.pfn, it.page, slots);
    PlaceSize(s.cache, it.pfn, it.page, slots);
    hide Place;
    forall i | 0 <= i < |s'.cache|
      ensures s'.cache[i].page == Blank(1)
    {
      assert s'.cache[i] in s'.cache;
    }
    forall i | 0 <= i < |items[1..]|
      ensures !Hit(s'.cache, items[1..][i].pfn)
    {
      StillMissing(s.cache, it, items[i + 1].pfn, slots);
    }
  }

  /** The page that is refused is compared with a page of ones, so nothing of it is sent. */
  lemma LastIsLost(w: Where, items: seq<Item>, slots: nat, space: nat -> nat, mem: seq<seq<Byte>>)
    requires Ready(w.slots, items, slots) && Fit(mem, items) && Ones(w.slots, slots) && News(w.slots, items, mem)
    requires |items| == 1 && w.used + PAGE + 1 > space(w.call)
    ensures Delivered(w, items, slots, space, mem)[items[0].pfn] == Blank(0)
  {
    var it, v := items[0], Settled(w, items[0], slots, space);
    Steps(w, items, slots, space);
    BalkedThenTook(w.slots, items, slots);
    OverlayNothing(Blank(1), Blank(0));
    hide Overlay, Balked, Took, Blank;
    assert Result(v.slots.cache, it, mem[it.pfn]) == Blank(0);
    DeliveredStep(w, items, slots, space, mem, v, Next(v, it, slots), Blank(0));
  }

  lemma OthersArrive(w: Where, items: seq<Item>, slots: nat, space: nat -> nat, mem: seq<seq<Byte>>)
    returns (u: Where, mem': seq<seq<Byte>>)
    requires Ready(w.slots, items, slots) && Fit(mem, items) && Ones(w.slots, slots) && News(w.slots, items, mem)
    requires items != [] && w.used + PAGE + 1 <= space(w.call)
    ensures u.call == w.call && u.used == w.used + PAGE + 1 && Ready(u.slots, items[1..], slots)
    ensures Fit(mem', items[1..]) && Ones(u.slots, slots) && News(u.slots, items[1..], mem')
    ensures Delivered(w, items, slots, space, mem) == Delivered(u, items[1..], slots, space, mem')
  {
    var it := items[0];
    Steps(w, items, slots, space);
    FitStep(mem, items);
    OnesStep(w.slots, items, mem, slots);
    u, mem' := Next(w, it, slots), mem[it.pfn := Blank(1)];
    hide Overlay, Balked, Took, Blank, Ones;
    DeliveredStep(w, items, slots, space, mem, w, u, Blank(1));
  }

  lemma {:induction false} LastIsWrong(w: Where, items: seq<Item>, slots: nat, space: nat -> nat,
                                       mem: seq<seq<Byte>>)
    requires Ready(w.slots, items, slots) && Fit(mem, items) && Ones(w.slots, slots) && News(w.slots, items, mem)
    requires items != []
    requires w.used + (|items| - 1) * (PAGE + 1) <= space(w.call) < w.used + |items| * (PAGE + 1)
    ensures Delivered(w, items, slots, space, mem)[items[|items| - 1].pfn] == Blank(0)
    decreases |items|
  {
    hide Ready, Fit, Ones, News, Delivered;
    if |items| == 1 {
      LastIsLost(w, items, slots, space, mem);
    } else {
      assert PAGE + 1 <= (|items| - 1) * (PAGE + 1);
      var u, mem' := OthersArrive(w, items, slots, space, mem);
      LastIsWrong(u, items[1..], slots, space, mem');
    }
  }

  function Batch(n: nat): (r: seq<Item>)
    ensures |r| == n && forall i :: 0 <= i < n ==> r[i] == Item(i, Blank(1), false)
  {
    seq(n, i requires 0 <= i < n => Item(i, Blank(1), false))
  }

  function Others(n: nat, slots: nat): (c: Cache)
    ensures |c| == slots && forall i :: 0 <= i < slots ==> c[i] == Entry(n + i, Blank(1))
  {
    seq(slots, i requires 0 <= i < slots => Entry(n + i, Blank(1)))
  }

  function Before(n: nat, slots: nat): (mem: seq<seq<Byte>>)
    ensures |mem| == n + slots && forall p :: 0 <= p < n + slots ==> mem[p] == Blank(if p < n then 0 else 1)
  {
    seq(n + slots, p => Blank(if p < n then 0 else 1))
  }

  /** Whatever the space, one page more than fits is too many when none is cached: the context's cache is
      full and agrees with the receiver, every page number occurs once, and still the last page arrives
      blank. */
  lemma RefusedPageArrivesWrong(slots: nat, space: nat -> nat, n: nat)
    requires slots > 0 && Roomy(space) && n == space(0) / (PAGE + 1) + 1
    ensures var s, items, mem := Slots(Others(n, slots), []), Batch(n), Before(n, slots);
            && Ready(s, items, slots) && QueuedSlots(s, items) == s
            && Fit(mem, items) && Coherent(s.cache, mem) && Once(items)
            && Delivered(Where(s, 0, 0), items, slots, space, mem)[n - 1] == Blank(0) != items[n - 1].page
  {
    hide Blank, Batch, Others, Before, QueuedSlots, Delivered, Ones, News, Ready, Fit, Coherent, Once;
    var s, items, mem := Slots(Others(n, slots), []), Batch(n), Before(n, slots);
    QueuedRawless(s, items);
    WrongSetting(n, slots, s, items, mem);
    assert (n - 1) * (PAGE + 1) <= space(0) < n * (PAGE + 1);
    LastIsWrong(Where(s, 0, 0), items, slots, space, mem);
  }

  lemma WrongSetting(n: nat, slots: nat, s: Slots, items: seq<Item>, mem: seq<seq<Byte>>)
    requires slots > 0 && s == Slots(Others(n, slots), []) && items == Batch(n) && mem == Before(n, slots)
    ensures Ready(s, items, slots) && Ones(s, slots) && News(s, items, mem)
    ensures Fit(mem, items) && Coherent(s.cache, mem) && Once(items) && Blank(0) != Blank(1)
  {
    hide Batch, Others, Before;
    assert Blank(0)[0] != Blank(1)[0];
    assert forall p :: 0 <= p < |mem| ==> IsPage(mem[p]);
  }

  lemma {:induction false} QueuedRawless(s: Slots, items: seq<Item>)
    requires forall i :: 0 <= i < |items| ==> !items[i].raw
    ensures QueuedSlots(s, items) == s
    decreases |items|
  {
    if items != [] {
      QueuedRawless(s, items[1..]);
    }
  }
}
