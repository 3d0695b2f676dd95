/** Exactly which batches are safe whatever the pages hold, and whole sessions of safe batches. */
module DeltaExact {
  import opened Sequences
  import opened PageCodec
  import opened DeltaCache
  import opened DeltaBatches

  predicate Legal(c: Cache, mem: seq<seq<Byte>>, items: seq<Item>, slots: nat) {
    Sendable(c, items, slots) && Fit(mem, items) && Coherent(c, mem)
  }

  /** The receiver gets exactly the memory of the batch, and the cache agrees with it again. */
  predicate Safe(c: Cache, mem: seq<seq<Byte>>, items: seq<Item>, slots: nat)
    requires Legal(c, mem, items, slots)
  {
    var q := Queued(c, items);
    QueuedKeeps(c, items, slots, mem);
    var s := Stream(q, items, slots);
    Arrives(s, 0, |s|, items, mem) && Agrees(q, items, slots, mem)
  }

  lemma OrderedIsSafe(c: Cache, mem: seq<seq<Byte>>, items: seq<Item>, slots: nat)
    requires Legal(c, mem, items, slots) && Ordered(items)
    ensures Safe(c, mem, items, slots)
  {
    var q := Queued(c, items);
    QueuedKeeps(c, items, slots, mem);
    QueuedClears(c, items, slots, mem);
    var s := Stream(q, items, slots);
    BatchArrives(s, 0, |s|, q, items, slots, mem);
    BatchAgrees(q, items, slots, mem);
  }

  // ---------------------------------------------------------------- necessity

  function Blank(b: Byte): (r: seq<Byte>)
    ensures IsPage(r) && forall i :: 0 <= i < PAGE ==> r[i] == b
  {
    seq(PAGE, i => b)
  }

  predicate AllBlank(c: Cache) {
    forall i :: 0 <= i < |c| ==> c[i].page == Blank(0)
  }

  /** Over a cache of blank pages a blank page is sent in a way every receiver takes. */
  lemma BlankMessage(c: Cache, it: Item, buf: seq<Byte>, pos: nat, held: seq<Byte>)
    requires Pages(c) && AllBlank(c) && IsPage(it.page) && (it.raw || it.page == Blank(0))
    requires HoldsAt(buf, pos, Message(c, it)) && IsPage(held)
    ensures (Decode(buf, pos, held)
             == Ok(pos + |Message(c, it)|, if !it.raw && Hit(c, it.pfn) then held else it.page))
  {
    var msg := Message(c, it);
    HoldsHead(buf, pos, msg);
    if it.raw || !Hit(c, it.pfn) {
      RoundTripFull(it.page, held, buf[..pos], buf[pos + |msg|..]);
      assert buf == buf[..pos] + msg + buf[pos + |msg|..];
    }
  }

  lemma WithoutAt(c: Cache, q: nat, j: nat)
    requires j < |c| && c[j].pfn != q
    ensures var at: nat := if IndexOf(c, q) < j then j - 1 else j;
            at < |Without(c, q)| && Without(c, q)[at] == c[j]
  {
    hide IndexOf;
  }

  /** Placing another page moves a cached one back by at most one. */
  lemma PlaceMoves(c: Cache, p: nat, q: nat, page: seq<Byte>, slots: nat)
    requires Wf(c, slots) && IsPage(page) && Hit(c, p) && q != p && IndexOf(c, p) + 1 < slots
    ensures var c' := Place(c, q, page, slots);
            Hit(c', p) && IndexOf(c', p) <= IndexOf(c, p) + 1
  {
    hide IndexOf, Without;
    var j := IndexOf(c, p);
    PlaceWf(c, q, page, slots);
    WithoutAt(c, q, j);
    HitAt(Place(c, q, page, slots), p, if IndexOf(c, q) < j then j else j + 1);
  }

  predicate BlankAfter(items: seq<Item>, p: nat, k: int) {
    && (forall j :: 0 <= j < |items| && j != k ==> items[j].page == Blank(0))
    && (forall j :: 0 <= j < |items| && k < j && items[j].raw ==> items[j].pfn != p)
  }

  /** The run of the counterexample: page `p` is sent blank at `i`, sent raw and inked at `k`, and
      from then on never raw again; every other page is blank. Indices count from here, so a
      negative one is in the past. */
  predicate Doomed(c: Cache, mem: seq<seq<Byte>>, items: seq<Item>, p: nat, i: int, k: int, slots: nat) {
    && Sendable(c, items, slots) && Fit(mem, items) && AllBlank(c) && p < |mem|
    && i < k < |items| && BlankAfter(items, p, k)
    && (if i < 0 then Hit(c, p) && IndexOf(c, p) + |items| < slots
        else |items| <= slots && !items[i].raw && items[i].pfn == p)
    && (if k < 0 then mem[p] == Blank(1)
        else items[k] == Item(p, Blank(1), true))
  }

  function Taken(c: Cache, mem: seq<seq<Byte>>, it: Item): (r: seq<seq<Byte>>)
    requires Memory(mem) && Fine(it, mem)
    ensures |r| == |mem| && Memory(r)
  {
    if !it.raw && Hit(c, it.pfn) then mem else mem[it.pfn := it.page]
  }

  lemma CachedStep(c: Cache, it: Item, p: nat, n: nat, slots: nat)
    requires Wf(c, slots) && IsPage(it.page)
    requires Hit(c, p) && IndexOf(c, p) + n + 1 < slots
    ensures Hit(After(c, it, slots), p) && IndexOf(After(c, it, slots), p) + n < slots
  {
    if !it.raw {
      if it.pfn == p {
        HitAt(After(c, it, slots), p, 0);
      } else {
        PlaceMoves(c, p, it.pfn, it.page, slots);
      }
    }
  }

  lemma BlankStep(c: Cache, it: Item, slots: nat)
    requires Wf(c, slots) && slots > 0 && AllBlank(c) && (it.raw || it.page == Blank(0))
    ensures AllBlank(After(c, it, slots))
  {
    if !it.raw {
      PlaceWf(c, it.pfn, it.page, slots);
      var c' := After(c, it, slots);
      assert forall i :: 0 <= i < |c'| ==> c'[i] in c';
    }
  }

  lemma DoomedStep(c: Cache, mem: seq<seq<Byte>>, items: seq<Item>, p: nat, i: int, k: int, slots: nat)
    requires Doomed(c, mem, items, p, i, k, slots) && items != []
    ensures Doomed(After(c, items[0], slots), Taken(c, mem, items[0]), items[1..], p, i - 1, k - 1, slots)
  {
    var it, rest := items[0], items[1..];
    var c' := After(c, it, slots);
    SendableStep(c, items, slots);
    BlankStep(c, it, slots);
    if i < 0 {
      CachedStep(c, it, p, |rest|, slots);
    } else if i == 0 {
      HitAt(c', p, 0);
    }
  }

  /** If the receiver gets through at all, it holds the inked page. */
  predicate Ruined(buf: seq<Byte>, pos: nat, items: seq<Item>, mem: seq<seq<Byte>>, p: nat)
    requires Fit(mem, items)
  {
    var r := Receive(buf, pos, Numbers(items), mem);
    r.Got? ==> p < |r.mem| && r.mem[p] == Blank(1)
  }

  /** The cache still holds the blank one. */
  predicate Lingers(c: Cache, items: seq<Item>, slots: nat, p: nat) {
    var f := Cached(c, items, slots);
    Hit(f, p) && f[IndexOf(f, p)].page == Blank(0)
  }

  lemma RuinedStep(buf: seq<Byte>, pos: nat, mid: nat, items: seq<Item>, mem: seq<seq<Byte>>, page: seq<Byte>, p: nat)
    requires Fit(mem, items) && items != [] && IsPage(page)
    requires Decode(buf, pos, mem[items[0].pfn]) == Ok(mid, page)
    requires Fit(mem[items[0].pfn := page], items[1..])
    requires Ruined(buf, mid, items[1..], mem[items[0].pfn := page], p)
    ensures Ruined(buf, pos, items, mem, p)
  {
    assert Numbers(items)[1..] == Numbers(items[1..]);
  }

  lemma FirstBlank(buf: seq<Byte>, pos: nat, end: nat, c: Cache, mem: seq<seq<Byte>>, items: seq<Item>,
                   slots: nat, c': Cache, mem': seq<seq<Byte>>) returns (mid: nat)
    requires Sendable(c, items, slots) && Fit(mem, items) && AllBlank(c) && items != []
    requires items[0].raw || items[0].page == Blank(0)
    requires c' == After(c, items[0], slots) && Sendable(c', items[1..], slots)
    requires mem' == Taken(c, mem, items[0]) && StreamAt(buf, pos, end, c, items, slots)
    ensures StreamAt(buf, mid, end, c', items[1..], slots)
    ensures Decode(buf, pos, mem[items[0].pfn]) == Ok(mid, mem'[items[0].pfn])
  {
    hide Message, After, HoldsAt, StreamAt, Decode;
    SplitStream(buf, pos, end, c, items, slots, c');
    BlankMessage(c, items[0], buf, pos, mem[items[0].pfn]);
    mid := pos + |Message(c, items[0])|;
  }

  lemma LingersStep(c: Cache, items: seq<Item>, slots: nat, p: nat)
    requires items != [] && Lingers(After(c, items[0], slots), items[1..], slots, p)
    ensures Lingers(c, items, slots, p)
  {
  }

  lemma {:induction false} DoomedLingers(c: Cache, mem: seq<seq<Byte>>, items: seq<Item>, p: nat, i: int, k: int,
                                         slots: nat)
    requires Doomed(c, mem, items, p, i, k, slots)
    ensures Lingers(c, items, slots, p)
    decreases |items|
  {
    if items != [] {
      DoomedStep(c, mem, items, p, i, k, slots);
      DoomedLingers(After(c, items[0], slots), Taken(c, mem, items[0]), items[1..], p, i - 1, k - 1, slots);
      LingersStep(c, items, slots, p);
    }
  }

  lemma RuinedNone(buf: seq<Byte>, pos: nat, c: Cache, mem: seq<seq<Byte>>, p: nat, i: int, k: int, slots: nat)
    requires Doomed(c, mem, [], p, i, k, slots)
    ensures Ruined(buf, pos, [], mem, p)
  {
  }

  lemma RuinedTaken(buf: seq<Byte>, pos: nat, mid: nat, c: Cache, items: seq<Item>, mem: seq<seq<Byte>>,
                    mem': seq<seq<Byte>>, p: nat)
    requires Fit(mem, items) && items != [] && mem' == Taken(c, mem, items[0])
    requires Decode(buf, pos, mem[items[0].pfn]) == Ok(mid, mem'[items[0].pfn])
    requires Fit(mem', items[1..]) && Ruined(buf, mid, items[1..], mem', p)
    ensures Ruined(buf, pos, items, mem, p)
  {
    assert mem' == mem[items[0].pfn := mem'[items[0].pfn]];
    RuinedStep(buf, pos, mid, items, mem, mem'[items[0].pfn], p);
  }

  /** A doomed run ends with the receiver holding the inked page, if it ends at all. */
  lemma {:induction false} DoomedRuins(buf: seq<Byte>, pos: nat, end: nat, c: Cache, mem: seq<seq<Byte>>,
                                       items: seq<Item>, p: nat, i: int, k: int, slots: nat)
    requires Doomed(c, mem, items, p, i, k, slots) && StreamAt(buf, pos, end, c, items, slots)
    ensures Ruined(buf, pos, items, mem, p)
    decreases |items|
  {
    if items == [] {
      RuinedNone(buf, pos, c, mem, p, i, k, slots);
    } else {
      var c', mem' := After(c, items[0], slots), Taken(c, mem, items[0]);
      DoomedStep(c, mem, items, p, i, k, slots);
      var mid := FirstBlank(buf, pos, end, c, mem, items, slots, c', mem');
      DoomedRuins(buf, mid, end, c', mem', items[1..], p, i - 1, k - 1, slots);
      RuinedTaken(buf, pos, mid, c, items, mem, mem', p);
    }
  }

  lemma {:induction false} QueuedNothing(items: seq<Item>)
    ensures Queued([], items) == []
    decreases |items|
  {
    if items != [] {
      QueuedNothing(items[1..]);
    }
  }

  /** The last raw page with the number of the one at `k`. */
  lemma LastRaw(shape: seq<Kind>, k: nat) returns (last: nat)
    requires k < |shape| && shape[k].raw
    ensures k <= last < |shape| && shape[last] == shape[k]
    ensures forall j :: last < j < |shape| && shape[j].raw ==> shape[j].pfn != shape[k].pfn
  {
    last := k;
    for j := k + 1 to |shape|
      invariant k <= last < j && shape[last] == shape[k]
      invariant forall m :: last < m < j && shape[m].raw ==> shape[m].pfn != shape[k].pfn
    {
      if shape[j] == shape[k] {
        last := j;
      }
    }
  }

  /** Blank pages of the given shape, the one at `k` inked. */
  function Inked(shape: seq<Kind>, k: nat): (r: seq<Item>)
    ensures Kinds(r) == shape
    ensures forall j :: 0 <= j < |r| ==> r[j].page == Blank(if j == k then 1 else 0)
  {
    seq(|shape|, j requires 0 <= j < |shape| =>
          Item(shape[j].pfn, Blank(if j == k then 1 else 0), shape[j].raw))
  }

  function BlankMemory(size: nat): (r: seq<seq<Byte>>)
    ensures |r| == size && Memory(r)
  {
    seq(size, _ => Blank(0))
  }

  /** Numbers within the receiver's memory, and no more pages than the cache has slots. */
  predicate Sized(shape: seq<Kind>, size: nat, slots: nat) {
    0 < slots && |shape| <= slots && forall i :: 0 <= i < |shape| ==> shape[i].pfn < size
  }

  lemma AtOdds(c: Cache, mem: seq<seq<Byte>>, items: seq<Item>, slots: nat, p: nat, s: seq<Byte>)
    requires Fit(mem, items) && Ruined(s, 0, items, mem, p) && Lingers(c, items, slots, p)
    ensures !(Arrives(s, 0, |s|, items, mem) && Agrees(c, items, slots, mem))
  {
    assert Blank(0)[0] != Blank(1)[0];
    var f := Cached(c, items, slots);
    assert f[IndexOf(f, p)].page == Blank(0);
  }

  /** Any batch out of order fails for some pages, even from an empty cache. */
  lemma OutOfOrderFails(shape: seq<Kind>, size: nat, slots: nat, i: nat, k: nat)
    requires Sized(shape, size, slots)
    requires i < k < |shape| && shape[k].raw && !shape[i].raw && shape[i].pfn == shape[k].pfn
    requires forall j :: k < j < |shape| && shape[j].raw ==> shape[j].pfn != shape[k].pfn
    ensures Legal([], BlankMemory(size), Inked(shape, k), slots)
    ensures !Safe([], BlankMemory(size), Inked(shape, k), slots)
  {
    var items, mem, p := Inked(shape, k), BlankMemory(size), shape[k].pfn;
    QueuedNothing(items);
    assert Doomed([], mem, items, p, i, k, slots);
    var s := Stream([], items, slots);
    DoomedLingers([], mem, items, p, i, k, slots);
    DoomedRuins(s, 0, |s|, [], mem, items, p, i, k, slots);
    AtOdds([], mem, items, slots, p, s);
  }

  /** Safe whatever the pages, the coherent cache and the memory hold. */
  ghost predicate AlwaysSafe(shape: seq<Kind>, size: nat, slots: nat) {
    forall c: Cache, mem: seq<seq<Byte>>, items: seq<Item> | Legal(c, mem, items, slots) ::
      Kinds(items) == shape && |mem| == size ==> Safe(c, mem, items, slots)
  }

  /** The exact condition, over the numbers and kinds of a batch alone: compressing it delivers its
      memory and keeps cache and receiver in agreement for all contents if and only if no raw page
      comes behind a page of the same number that is not raw. */
  lemma SafeExactlyInOrder(shape: seq<Kind>, size: nat, slots: nat)
    requires Sized(shape, size, slots)
    ensures AlwaysSafe(shape, size, slots) <==> InOrder(shape)
  {
    if InOrder(shape) {
      forall c: Cache, mem: seq<seq<Byte>>, items: seq<Item> |
        Legal(c, mem, items, slots) && Kinds(items) == shape && |mem| == size
        ensures Safe(c, mem, items, slots)
      {
        OrderedIsSafe(c, mem, items, slots);
      }
    } else {
      var i, k0 :| 0 <= i < k0 < |shape| && shape[k0].raw && !shape[i].raw && shape[i].pfn == shape[k0].pfn;
      var k := LastRaw(shape, k0);
      OutOfOrderFails(shape, size, slots, i, k);
      assert Kinds(Inked(shape, k)) == shape;
    }
  }

  // ----------------------------------------------------------------- refusals

  /** The cache after xc_compression_compress_pages ran out of space on a page: the slot was
      already taken and moved to the front, but nothing was copied into it. */
  function Refused(c: Cache, it: Item, stale: seq<Byte>, slots: nat): Cache {
    if it.raw then c
    else Place(c, it.pfn, if Hit(c, it.pfn) then c[IndexOf(c, it.pfn)].page else stale, slots)
  }

  /** A refusal leaves cache and receiver in agreement exactly when the page was raw, was cached
      before, or the slot it took happens to hold the receiver's page. */
  lemma RefusalExact(c: Cache, mem: seq<seq<Byte>>, it: Item, stale: seq<Byte>, slots: nat)
    requires Wf(c, slots) && slots > 0 && Coherent(c, mem) && Fine(it, mem) && IsPage(stale)
    ensures (Coherent(Refused(c, it, stale, slots), mem)
             <==> it.raw || Hit(c, it.pfn) || stale == mem[it.pfn])
  {
    if !it.raw {
      var page := if Hit(c, it.pfn) then c[IndexOf(c, it.pfn)].page else stale;
      var c' := Refused(c, it, stale, slots);
      PlaceWf(c, it.pfn, page, slots);
      assert c'[0] == Entry(it.pfn, page);
      assert forall i :: 0 <= i < |c'| ==> c'[i] in c';
    }
  }

  /** So whatever the reused slot holds, only a page that was raw or cached may be refused. */
  lemma RefusalAlways(c: Cache, mem: seq<seq<Byte>>, it: Item, slots: nat)
    requires Wf(c, slots) && slots > 0 && Coherent(c, mem) && Memory(mem) && Fine(it, mem)
    ensures (forall stale :: IsPage(stale) ==> Coherent(Refused(c, it, stale, slots), mem))
            <==> it.raw || Hit(c, it.pfn)
  {
    forall stale | IsPage(stale)
      ensures (Coherent(Refused(c, it, stale, slots), mem)
               <==> it.raw || Hit(c, it.pfn) || stale == mem[it.pfn])
    {
      RefusalExact(c, mem, it, stale, slots);
    }
    var other := Blank(if mem[it.pfn][0] == 0 then 1 else 0);
    assert other[0] != mem[it.pfn][0];
  }

  // ----------------------------------------------------------------- sessions

  /** Every batch of the session is delivered, the cache carrying over from one to the next. */
  predicate SessionSafe(batches: seq<seq<Item>>, c: Cache, mem: seq<seq<Byte>>, slots: nat)
    decreases |batches|
  {
    batches == [] ||
    var b := batches[0];
    && Legal(c, mem, b, slots)
    && Safe(c, mem, b, slots)
    && SessionSafe(batches[1..], Cached(Queued(c, b), b, slots), Written(mem, b), slots)
  }

  predicate SessionFit(batches: seq<seq<Item>>, size: nat) {
    forall b, i :: 0 <= b < |batches| && 0 <= i < |batches[b]| ==>
      batches[b][i].pfn < size && IsPage(batches[b][i].page)
  }

  lemma {:induction false} WrittenMemory(mem: seq<seq<Byte>>, items: seq<Item>)
    requires Fit(mem, items)
    ensures Memory(Written(mem, items))
    decreases |items|
  {
    if items != [] {
      WrittenMemory(mem[items[0].pfn := items[0].page], items[1..]);
    }
  }

  /** Safety over whole sessions of batches in order, from any coherent start. */
  lemma {:induction false} SessionInOrder(batches: seq<seq<Item>>, c: Cache, mem: seq<seq<Byte>>, slots: nat)
    requires Wf(c, slots) && slots > 0 && Memory(mem) && Coherent(c, mem) && SessionFit(batches, |mem|)
    requires forall b :: 0 <= b < |batches| ==> Ordered(batches[b])
    ensures SessionSafe(batches, c, mem, slots)
    decreases |batches|
  {
    if batches != [] {
      var b := batches[0];
      assert forall i :: 0 <= i < |b| ==> Fine(b[i], mem);
      OrderedIsSafe(c, mem, b, slots);
      WrittenMemory(mem, b);
      SessionInOrder(batches[1..], Cached(Queued(c, b), b, slots), Written(mem, b), slots);
    }
  }

  /** The memory a batch describes holds, for each page, the last one queued for it. */
  lemma {:induction false} WrittenIsLast(mem: seq<seq<Byte>>, items: seq<Item>, p: nat, last: int)
    requires Fit(mem, items) && p < |mem| && -1 <= last < |items|
    requires last >= 0 ==> items[last].pfn == p
    requires forall j :: last < j < |items| ==> items[j].pfn != p
    ensures Written(mem, items)[p] == if last < 0 then mem[p] else items[last].page
    decreases |items|
  {
    if items != [] {
      var mem' := mem[items[0].pfn := items[0].page];
      WrittenIsLast(mem', items[1..], p, if last <= 0 then -1 else last - 1);
    }
  }
}
