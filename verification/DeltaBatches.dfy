/** Whole batches of xc_compression_add_page and xc_compression_compress_pages: what the receiver
ends up with, and exactly which batches keep the cache and the receiver in agreement. */
module DeltaBatches {
  import opened Sequences
  import opened PageCodec
  import opened DeltaCache

  // ------------------------------------------------------------------ model

  /** The cache once a batch is queued: a raw page drops its cached copy while it is queued, before
      anything of the batch is compressed. */
  function Queued(c: Cache, items: seq<Item>): Cache {
    if items == [] then c
    else Queued(if items[0].raw then Without(c, items[0].pfn) else c, items[1..])
  }

  predicate AllPages(items: seq<Item>) {
    forall i :: 0 <= i < |items| ==> IsPage(items[i].page)
  }

  predicate Sendable(c: Cache, items: seq<Item>, slots: nat) {
    Wf(c, slots) && slots > 0 && AllPages(items)
  }

  lemma SendableStep(c: Cache, items: seq<Item>, slots: nat)
    requires Sendable(c, items, slots) && items != []
    ensures Sendable(After(c, items[0], slots), items[1..], slots)
  {
    if !items[0].raw {
      PlaceWf(c, items[0].pfn, items[0].page, slots);
    }
  }

  /** What compressing the batch emits. */
  function Stream(c: Cache, items: seq<Item>, slots: nat): seq<Byte>
    requires Sendable(c, items, slots)
    decreases |items|
  {
    if items == [] then []
    else
      SendableStep(c, items, slots);
      Message(c, items[0]) + Stream(After(c, items[0], slots), items[1..], slots)
  }

  /** What it leaves in the cache. */
  function Cached(c: Cache, items: seq<Item>, slots: nat): Cache
    decreases |items|
  {
    if items == [] then c else Cached(After(c, items[0], slots), items[1..], slots)
  }

  /** The memory the batch describes. */
  function Written(mem: seq<seq<Byte>>, items: seq<Item>): (r: seq<seq<Byte>>)
    requires Fit(mem, items)
    ensures |r| == |mem|
    decreases |items|
  {
    if items == [] then mem else Written(mem[items[0].pfn := items[0].page], items[1..])
  }

  predicate Fit(mem: seq<seq<Byte>>, items: seq<Item>) {
    Memory(mem) && forall i :: 0 <= i < |items| ==> Fine(items[i], mem)
  }

  datatype Received = Got(pos: nat, mem: seq<seq<Byte>>) | Failed

  /** The receiver knows the page numbers of the batch and decodes one page after the other. */
  function Receive(buf: seq<Byte>, pos: nat, pfns: seq<nat>, mem: seq<seq<Byte>>): Received
    requires Memory(mem) && forall i :: 0 <= i < |pfns| ==> pfns[i] < |mem|
    decreases |pfns|
  {
    if pfns == [] then Got(pos, mem)
    else
      match Decode(buf, pos, mem[pfns[0]])
      case Bad => Failed
      case Ok(pos', page) => if IsPage(page) then Receive(buf, pos', pfns[1..], mem[pfns[0] := page]) else Failed
  }

  function Numbers(items: seq<Item>): (r: seq<nat>)
    ensures |r| == |items| && forall i :: 0 <= i < |r| ==> r[i] == items[i].pfn
  {
    seq(|items|, i requires 0 <= i < |items| => items[i].pfn)
  }

  /** What a caller knows about a queued page without looking into it. */
  datatype Kind = Kind(pfn: nat, raw: bool)

  function Kinds(items: seq<Item>): (r: seq<Kind>)
    ensures |r| == |items| && forall i :: 0 <= i < |r| ==> r[i] == Kind(items[i].pfn, items[i].raw)
  {
    seq(|items|, i requires 0 <= i < |items| => Kind(items[i].pfn, items[i].raw))
  }

  /** No raw page comes, within its batch, behind a page of the same number that is not raw. */
  predicate InOrder(shape: seq<Kind>) {
    forall i, k :: 0 <= i < k < |shape| && shape[k].raw && !shape[i].raw ==> shape[i].pfn != shape[k].pfn
  }

  predicate Ordered(items: seq<Item>) {
    InOrder(Kinds(items))
  }

  lemma OrderedRest(items: seq<Item>)
    requires Ordered(items) && items != []
    ensures Ordered(items[1..])
    ensures forall k :: 0 < k < |items| && items[k].raw && !items[0].raw ==> items[0].pfn != items[k].pfn
  {
    hide Kinds;
    var s, t := Kinds(items), Kinds(items[1..]);
    assert forall k :: 0 <= k < |t| ==> t[k] == s[k + 1];
    assert forall k :: 0 < k < |items| && items[k].raw && !items[0].raw ==> s[0].pfn != s[k].pfn;
  }

  // ------------------------------------------------------------- sufficiency

  /** No raw page still to be sent is cached. */
  predicate Clear(c: Cache, items: seq<Item>) {
    forall k :: 0 <= k < |items| && items[k].raw ==> !Hit(c, items[k].pfn)
  }

  predicate StreamAt(buf: seq<Byte>, pos: nat, end: nat, c: Cache, items: seq<Item>, slots: nat)
    requires Sendable(c, items, slots)
  {
    HoldsAt(buf, pos, Stream(c, items, slots)) && end == pos + |Stream(c, items, slots)|
  }

  /** The receiver gets through the batch, stops at `end` and holds the memory it describes. */
  predicate Arrives(buf: seq<Byte>, pos: nat, end: nat, items: seq<Item>, mem: seq<seq<Byte>>)
    requires Fit(mem, items)
  {
    Receive(buf, pos, Numbers(items), mem) == Got(end, Written(mem, items))
  }

  /** After the batch the cache agrees with that memory. */
  predicate Agrees(c: Cache, items: seq<Item>, slots: nat, mem: seq<seq<Byte>>)
    requires Fit(mem, items)
  {
    Wf(Cached(c, items, slots), slots) && Coherent(Cached(c, items, slots), Written(mem, items))
  }

  lemma SplitStream(buf: seq<Byte>, pos: nat, end: nat, c: Cache, items: seq<Item>, slots: nat, c': Cache)
    requires Sendable(c, items, slots) && items != [] && StreamAt(buf, pos, end, c, items, slots)
    requires c' == After(c, items[0], slots) && Sendable(c', items[1..], slots)
    ensures HoldsAt(buf, pos, Message(c, items[0]))
    ensures StreamAt(buf, pos + |Message(c, items[0])|, end, c', items[1..], slots)
  {
    hide Message, After, HoldsAt;
    HoldsParts(buf, pos, Stream(c, items, slots), Message(c, items[0]), Stream(c', items[1..], slots));
  }

  lemma ArrivesStep(buf: seq<Byte>, pos: nat, mid: nat, end: nat, items: seq<Item>, mem: seq<seq<Byte>>,
                    mem': seq<seq<Byte>>)
    requires Fit(mem, items) && items != [] && mem' == mem[items[0].pfn := items[0].page]
    requires Decode(buf, pos, mem[items[0].pfn]) == Ok(mid, items[0].page)
    requires Fit(mem', items[1..]) && Arrives(buf, mid, end, items[1..], mem')
    ensures Arrives(buf, pos, end, items, mem)
  {
    assert Numbers(items)[1..] == Numbers(items[1..]);
  }

  lemma ArrivesNone(buf: seq<Byte>, pos: nat, end: nat, c: Cache, slots: nat, mem: seq<seq<Byte>>)
    requires Sendable(c, [], slots) && Fit(mem, []) && StreamAt(buf, pos, end, c, [], slots)
    ensures Arrives(buf, pos, end, [], mem)
  {
  }

  /** The receiver takes the first message of the stream for the first page of the batch. */
  lemma FirstMessage(buf: seq<Byte>, pos: nat, end: nat, c: Cache, items: seq<Item>, slots: nat,
                     mem: seq<seq<Byte>>, c': Cache) returns (mid: nat)
    requires Sendable(c, items, slots) && items != [] && Fit(mem, items) && Coherent(c, mem)
    requires StreamAt(buf, pos, end, c, items, slots)
    requires c' == After(c, items[0], slots) && Sendable(c', items[1..], slots)
    ensures Decode(buf, pos, mem[items[0].pfn]) == Ok(mid, items[0].page)
    ensures StreamAt(buf, mid, end, c', items[1..], slots)
  {
    hide Message, After, HoldsAt, StreamAt, Decode, Coherent;
    SplitStream(buf, pos, end, c, items, slots, c');
    MessageAt(c, mem, items[0], buf, pos);
    mid := pos + |Message(c, items[0])|;
  }

  lemma AgreesStep(c: Cache, items: seq<Item>, slots: nat, mem: seq<seq<Byte>>)
    requires Fit(mem, items) && items != [] && Fit(mem[items[0].pfn := items[0].page], items[1..])
    requires Agrees(After(c, items[0], slots), items[1..], slots, mem[items[0].pfn := items[0].page])
    ensures Agrees(c, items, slots, mem)
  {
  }

  lemma FitStep(mem: seq<seq<Byte>>, items: seq<Item>)
    requires Fit(mem, items) && items != []
    ensures Fit(mem[items[0].pfn := items[0].page], items[1..])
  {
  }

  lemma ClearStep(c: Cache, items: seq<Item>, slots: nat)
    requires Sendable(c, items, slots) && items != [] && Clear(c, items) && Ordered(items)
    ensures Clear(After(c, items[0], slots), items[1..]) && Ordered(items[1..])
  {
    var it, c' := items[0], After(c, items[0], slots);
    OrderedRest(items);
    if !it.raw {
      PlaceWf(c, it.pfn, it.page, slots);
      forall k | 0 <= k < |items[1..]| && items[1..][k].raw
        ensures !Hit(c', items[1..][k].pfn)
      {
        StillMissing(c, it, items[1 + k].pfn, slots);
      }
    }
  }

  lemma StillMissing(c: Cache, it: Item, p: nat, slots: nat)
    requires Wf(c, slots) && slots > 0 && IsPage(it.page) && !it.raw && it.pfn != p && !Hit(c, p)
    ensures !Hit(After(c, it, slots), p)
  {
    PlaceWf(c, it.pfn, it.page, slots);
    var c' := After(c, it, slots);
    assert forall i :: 0 <= i < |c'| ==> c'[i] in c';
  }

  /** A batch in order leaves the cache in agreement with the memory it describes. */
  lemma {:induction false} BatchAgrees(c: Cache, items: seq<Item>, slots: nat, mem: seq<seq<Byte>>)
    requires Sendable(c, items, slots) && Fit(mem, items) && Coherent(c, mem)
    requires Clear(c, items) && Ordered(items)
    ensures Agrees(c, items, slots, mem)
    decreases |items|
  {
    if items != [] {
      SendableStep(c, items, slots);
      FitStep(mem, items);
      StepCoherent(c, mem, items[0], slots);
      ClearStep(c, items, slots);
      BatchAgrees(After(c, items[0], slots), items[1..], slots, mem[items[0].pfn := items[0].page]);
      AgreesStep(c, items, slots, mem);
    }
  }

  /** A batch in order reaches the receiver complete. */
  lemma {:induction false} BatchArrives(buf: seq<Byte>, pos: nat, end: nat, c: Cache, items: seq<Item>,
                                        slots: nat, mem: seq<seq<Byte>>)
    requires Sendable(c, items, slots) && Fit(mem, items) && Coherent(c, mem)
    requires Clear(c, items) && Ordered(items) && StreamAt(buf, pos, end, c, items, slots)
    ensures Arrives(buf, pos, end, items, mem)
    decreases |items|
  {
    if items == [] {
      ArrivesNone(buf, pos, end, c, slots, mem);
    } else {
      var c', mem' := After(c, items[0], slots), mem[items[0].pfn := items[0].page];
      SendableStep(c, items, slots);
      FitStep(mem, items);
      var mid := FirstMessage(buf, pos, end, c, items, slots, mem, c');
      StepCoherent(c, mem, items[0], slots);
      ClearStep(c, items, slots);
      BatchArrives(buf, mid, end, c', items[1..], slots, mem');
      ArrivesStep(buf, pos, mid, end, items, mem, mem');
    }
  }

  lemma WithoutKeeps(c: Cache, p: nat, q: nat, slots: nat, mem: seq<seq<Byte>>)
    requires Wf(c, slots) && Coherent(c, mem)
    ensures Wf(Without(c, p), slots) && Coherent(Without(c, p), mem)
    ensures !Hit(Without(c, p), p) && (!Hit(c, q) ==> !Hit(Without(c, p), q))
  {
    WithoutHas(c, p);
    var w := Without(c, p);
    assert forall i :: 0 <= i < |w| ==> w[i] in w;
  }

  /** Queueing drops cached pages only, and afterwards no raw page of the batch is cached. */
  lemma {:induction false} QueuedKeeps(c: Cache, items: seq<Item>, slots: nat, mem: seq<seq<Byte>>)
    requires Wf(c, slots) && Coherent(c, mem)
    ensures Wf(Queued(c, items), slots) && Coherent(Queued(c, items), mem)
    decreases |items|
  {
    if items != [] {
      WithoutKeeps(c, items[0].pfn, 0, slots, mem);
      QueuedKeeps(if items[0].raw then Without(c, items[0].pfn) else c, items[1..], slots, mem);
    }
  }

  lemma {:induction false} QueuedMisses(c: Cache, items: seq<Item>, slots: nat, mem: seq<seq<Byte>>, q: nat)
    requires Wf(c, slots) && Coherent(c, mem)
    requires !Hit(c, q) || exists k :: 0 <= k < |items| && items[k] == Item(q, items[k].page, true)
    ensures !Hit(Queued(c, items), q)
    decreases |items|
  {
    if items != [] {
      var it, rest := items[0], items[1..];
      WithoutKeeps(c, it.pfn, q, slots, mem);
      var c' := if it.raw then Without(c, it.pfn) else c;
      if Hit(c', q) {
        var k :| 0 <= k < |items| && items[k] == Item(q, items[k].page, true);
        assert rest[k - 1] == items[k];
      }
      QueuedMisses(c', rest, slots, mem, q);
    }
  }

  lemma QueuedClears(c: Cache, items: seq<Item>, slots: nat, mem: seq<seq<Byte>>)
    requires Wf(c, slots) && Coherent(c, mem)
    ensures Clear(Queued(c, items), items)
  {
    forall k | 0 <= k < |items| && items[k].raw
      ensures !Hit(Queued(c, items), items[k].pfn)
    {
      assert items[k] == Item(items[k].pfn, items[k].page, true);
      QueuedMisses(c, items, slots, mem, items[k].pfn);
    }
  }
}
