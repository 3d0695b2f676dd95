/** Batches and the space they are written to: xc_compression_compress_pages stops at the first page
that does not fit, and write_compressed of tools/libxc/xc_domain_save.c calls it again. */
module DeltaSpace {
  import opened Sequences
  import opened PageCodec
  import opened DeltaCache
  import opened DeltaBatches
  import opened DeltaExact
  import opened CacheHistory

  // ------------------------------------------------------------------- slots

  /** All slots of a context: the pages in the cache and what the free slots still hold. */
  datatype Slots = Slots(cache: Cache, spare: Spare)

  predicate Ready(s: Slots, items: seq<Item>, slots: nat) {
    Sendable(s.cache, items, slots) && AllSlots(s.cache, s.spare, slots)
  }

  /** The space a page must find before it is written. */
  function Need(c: Cache, it: Item): nat {
    if !it.raw && Hit(c, it.pfn) then WORST else PAGE + 1
  }

  /** A page was written. */
  function Took(s: Slots, it: Item, slots: nat): Slots {
    Slots(After(s.cache, it, slots), SpareAfter(s.cache, s.spare, it))
  }

  /** A page found no space: its slot was taken and moved to the front, but nothing was copied into it. */
  function Balked(s: Slots, it: Item, slots: nat): Slots {
    Slots(Refused(s.cache, it, Stale(s.cache, s.spare), slots), SpareAfter(s.cache, s.spare, it))
  }

  /** A page was queued. */
  function Dropped(s: Slots, it: Item): Slots {
    if it.raw then Slots(Without(s.cache, it.pfn), SpareWithout(s.cache, s.spare, it.pfn)) else s
  }

  function QueuedSlots(s: Slots, items: seq<Item>): Slots
    decreases |items|
  {
    if items == [] then s else QueuedSlots(Dropped(s, items[0]), items[1..])
  }

  lemma {:induction false} QueuedCache(s: Slots, items: seq<Item>)
    ensures QueuedSlots(s, items).cache == Queued(s.cache, items)
    decreases |items|
  {
    if items != [] {
      QueuedCache(Dropped(s, items[0]), items[1..]);
    }
  }

  lemma {:induction false} QueuedOneMore(s: Slots, items: seq<Item>, it: Item)
    ensures QueuedSlots(s, items + [it]) == Dropped(QueuedSlots(s, items), it)
    decreases |items|
  {
    hide Dropped;
    if items == [] {
      assert (items + [it])[1..] == [];
    } else {
      assert (items + [it])[1..] == items[1..] + [it];
      QueuedOneMore(Dropped(s, items[0]), items[1..], it);
    }
  }

  lemma MessageFits(c: Cache, it: Item)
    requires Pages(c) && IsPage(it.page)
    ensures |Message(c, it)| <= Need(c, it) <= WORST
  {
    if !it.raw && Hit(c, it.pfn) {
      WorstCase(it.page, c[IndexOf(c, it.pfn)].page);
      hide Encode;
    }
  }

  lemma PlaceSize(c: Cache, p: nat, page: seq<Byte>, slots: nat)
    requires Wf(c, slots) && slots > 0
    ensures |Place(c, p, page, slots)| == if Hit(c, p) || |c| == slots then |c| else |c| + 1
  {
    WithoutHas(c, p);
  }

  lemma StaleIsPage(s: Slots, slots: nat)
    requires Wf(s.cache, slots) && AllSlots(s.cache, s.spare, slots) && slots > 0
    ensures IsPage(Stale(s.cache, s.spare))
  {
  }

  lemma TookReady(s: Slots, items: seq<Item>, slots: nat)
    requires Ready(s, items, slots) && items != []
    ensures Ready(Took(s, items[0], slots), items[1..], slots)
  {
    SendableStep(s.cache, items, slots);
    PlaceSize(s.cache, items[0].pfn, items[0].page, slots);
    hide Place, Hit;
  }

  lemma BalkedReady(s: Slots, items: seq<Item>, slots: nat)
    requires Ready(s, items, slots) && items != []
    ensures Ready(Balked(s, items[0], slots), items, slots)
  {
    var it := items[0];
    StaleIsPage(s, slots);
    if !it.raw {
      var page := if Hit(s.cache, it.pfn) then s.cache[IndexOf(s.cache, it.pfn)].page else Stale(s.cache, s.spare);
      PlaceWf(s.cache, it.pfn, page, slots);
      PlaceSize(s.cache, it.pfn, page, slots);
      hide Place, IndexOf;
    }
  }

  lemma PlaceTwice(c: Cache, p: nat, slots: nat, one: seq<Byte>, two: seq<Byte>)
    requires Wf(c, slots) && slots > 0 && IsPage(one)
    ensures var c' := Place(c, p, one, slots);
            && IndexOf(c', p) == 0 && c'[0] == Entry(p, one) && Place(c', p, two, slots) == Place(c, p, two, slots)
  {
    var c' := Place(c, p, one, slots);
    PlaceWf(c, p, one, slots);
    HitAt(c', p, 0);
    WithoutHas(c, p);
    assert Without(c', p) == c'[..0] + c'[1..];
  }

  /** After a refusal the page is cached, with the page it was compared with before or, if it was not
      cached, with what its slot happened to hold. Once it is written, the refusal cannot be told. */
  lemma BalkedThenTook(s: Slots, items: seq<Item>, slots: nat)
    requires Ready(s, items, slots) && items != []
    ensures var it, s' := items[0], Balked(s, items[0], slots);
            && Took(s', it, slots) == Took(s, it, slots)
            && (!it.raw ==> Hit(s'.cache, it.pfn))
            && (!it.raw ==> s'.cache[IndexOf(s'.cache, it.pfn)].page
                            == if Hit(s.cache, it.pfn) then s.cache[IndexOf(s.cache, it.pfn)].page
                               else Stale(s.cache, s.spare))
  {
    var it := items[0];
    if !it.raw {
      StaleIsPage(s, slots);
      var page := if Hit(s.cache, it.pfn) then s.cache[IndexOf(s.cache, it.pfn)].page else Stale(s.cache, s.spare);
      PlaceTwice(s.cache, it.pfn, slots, page, it.page);
      hide Place, IndexOf;
    }
  }

  // ----------------------------------------------------------------- histories

  /** Everything a context does to its slots: a page is queued, written or refused. */
  datatype Move = Queues(it: Item) | Writes(it: Item) | Refuses(it: Item)

  function Moved(s: Slots, m: Move, slots: nat): Slots {
    match m
    case Queues(it) => Dropped(s, it)
    case Writes(it) => Took(s, it, slots)
    case Refuses(it) => Balked(s, it, slots)
  }

  function AfterMoves(s: Slots, moves: seq<Move>, slots: nat): Slots {
    if moves == [] then s else Moved(AfterMoves(s, moves[..|moves| - 1], slots), moves[|moves| - 1], slots)
  }

  /** The events of a move: a raw page is dropped when it is queued, and any other page used when it is
      written or refused, in the latter case holding what its slot holds. */
  function EventsOf(s: Slots, m: Move): seq<Event> {
    if m.Queues? then if m.it.raw then [Drop(m.it.pfn)] else []
    else if m.it.raw then []
    else if m.Writes? then [Use(Entry(m.it.pfn, m.it.page))]
    else [Use(Entry(m.it.pfn, if Hit(s.cache, m.it.pfn) then s.cache[IndexOf(s.cache, m.it.pfn)].page
                              else Stale(s.cache, s.spare)))]
  }

  lemma MoveIsEvents(h: seq<Event>, s: Slots, m: Move, slots: nat)
    requires s.cache == AfterEvents(h, slots)
    ensures Moved(s, m, slots).cache == AfterEvents(h + EventsOf(s, m), slots)
  {
    if EventsOf(s, m) == [] {
      assert h + EventsOf(s, m) == h;
    } else {
      OneMore(h, EventsOf(s, m)[0], slots, 0);
    }
    hide AfterEvents, Place, Without, IndexOf;
  }

  /** The cache of a context, whatever was queued, written and refused, is that of a history of uses and
      drops. */
  lemma {:induction false} ContextHasHistory(base: Spare, moves: seq<Move>, slots: nat) returns (h: seq<Event>)
    ensures AfterMoves(Slots([], base), moves, slots).cache == AfterEvents(h, slots)
    decreases |moves|
  {
    if moves == [] {
      h := [];
    } else {
      var before := AfterMoves(Slots([], base), moves[..|moves| - 1], slots);
      h := ContextHasHistory(base, moves[..|moves| - 1], slots);
      MoveIsEvents(h, before, moves[|moves| - 1], slots);
      h := h + EventsOf(before, moves[|moves| - 1]);
    }
  }

  // ----------------------------------------------------------------- one call

  /** What one call of xc_compression_compress_pages writes, how many pages it accepts, and the slots
      it leaves. */
  datatype Called = Called(out: seq<Byte>, sent: nat, after: Slots)

  function Call(s: Slots, items: seq<Item>, slots: nat, size: nat, used: nat): (r: Called)
    requires Ready(s, items, slots)
    ensures r.sent <= |items|
    decreases |items|
  {
    if items == [] then Called([], 0, s)
    else if used + Need(s.cache, items[0]) > size then Called([], 0, Balked(s, items[0], slots))
    else
      TookReady(s, items, slots);
      var msg := Message(s.cache, items[0]);
      var r := Call(Took(s, items[0], slots), items[1..], slots, size, used + |msg|);
      Called(msg + r.out, 1 + r.sent, r.after)
  }

  /** What was written before a call goes on. */
  function Onto(out: seq<Byte>, sent: nat, r: Called): Called {
    Called(out + r.out, sent + r.sent, r.after)
  }

  lemma OntoNothing(r: Called)
    ensures Onto([], 0, r) == r
  {
  }

  lemma CallNext(s: Slots, items: seq<Item>, slots: nat, size: nat, out: seq<Byte>, sent: nat, s': Slots, out': seq<Byte>)
    requires Ready(s, items, slots) && items != []
    requires |out| + Need(s.cache, items[0]) <= size
    requires s' == Took(s, items[0], slots) && out' == out + Message(s.cache, items[0])
    requires Ready(s', items[1..], slots)
    ensures (Onto(out, sent, Call(s, items, slots, size, |out|))
             == Onto(out', sent + 1, Call(s', items[1..], slots, size, |out'|)))
  {
    hide Need, Message, Took, Call, AllSlots, IndexOf;
    var msg := Message(s.cache, items[0]);
    hide Ready;
    var r := Call(s', items[1..], slots, size, |out'|);
    CallUnfold(s, items, slots, size, |out|, s', msg, r);
    Regroup(out, msg, r.out);
  }

  lemma CallStops(s: Slots, items: seq<Item>, slots: nat, size: nat, out: seq<Byte>, sent: nat)
    requires Ready(s, items, slots)
    requires items != [] ==> |out| + Need(s.cache, items[0]) > size
    ensures (Onto(out, sent, Call(s, items, slots, size, |out|))
             == Called(out, sent, if items == [] then s else Balked(s, items[0], slots)))
  {
    hide Need, Balked, Ready;
    assert out + [] == out;
  }

  lemma CallUnfold(s: Slots, items: seq<Item>, slots: nat, size: nat, used: nat, s': Slots, msg: seq<Byte>, r: Called)
    requires Ready(s, items, slots) && items != [] && used + Need(s.cache, items[0]) <= size
    requires s' == Took(s, items[0], slots) && msg == Message(s.cache, items[0])
    requires Ready(s', items[1..], slots) && r == Call(s', items[1..], slots, size, used + |msg|)
    ensures Call(s, items, slots, size, used) == Onto(msg, 1, r)
  {
    hide Need, Message, Took, Ready;
  }

  /** A call writes the stream of the longest part of the batch of which every page finds its space. */
  predicate Longest(s: Slots, items: seq<Item>, slots: nat, size: nat, used: nat, r: Called)
    requires Ready(s, items, slots)
  {
    && r.sent <= |items| && r.out == Stream(s.cache, items[..r.sent], slots)
    && (r.sent > 0 ==> used + |r.out| <= size)
    && (r.sent < |items| ==> used + |r.out| + Need(Cached(s.cache, items[..r.sent], slots), items[r.sent]) > size)
  }

  lemma LongestMore(s: Slots, items: seq<Item>, slots: nat, size: nat, used: nat, s': Slots, msg: seq<Byte>, q: Called)
    requires Ready(s, items, slots) && items != [] && used + |msg| <= size
    requires s' == Took(s, items[0], slots) && msg == Message(s.cache, items[0]) && Ready(s', items[1..], slots)
    requires Longest(s', items[1..], slots, size, used + |msg|, q)
    ensures Longest(s, items, slots, size, used, Onto(msg, 1, q))
  {
    hide Message, Need, After, SpareAfter;
    var part := items[..q.sent + 1];
    assert part[1..] == items[1..][..q.sent] && part[0] == items[0];
    assert Sendable(s.cache, part, slots);
    SendableStep(s.cache, part, slots);
  }

  lemma {:induction false} CallIsLongest(s: Slots, items: seq<Item>, slots: nat, size: nat, used: nat)
    requires Ready(s, items, slots)
    ensures Longest(s, items, slots, size, used, Call(s, items, slots, size, used))
    decreases |items|
  {
    hide Message, Need, Took, Balked;
    if items != [] && used + Need(s.cache, items[0]) <= size {
      TookReady(s, items, slots);
      MessageFits(s.cache, items[0]);
      var s', msg := Took(s, items[0], slots), Message(s.cache, items[0]);
      var q := Call(s', items[1..], slots, size, used + |msg|);
      CallUnfold(s, items, slots, size, used, s', msg, q);
      CallIsLongest(s', items[1..], slots, size, used + |msg|);
      LongestMore(s, items, slots, size, used, s', msg, q);
      hide Longest, Ready, Call;
    } else {
      assert items[..0] == [];
    }
  }

  lemma CallMoves(s: Slots, items: seq<Item>, slots: nat, size: nat)
    requires Ready(s, items, slots) && items != [] && size >= WORST
    ensures Call(s, items, slots, size, 0).sent > 0
  {
    MessageFits(s.cache, items[0]);
    hide Message, Took, Balked, Need;
  }
}
