/** The delta cache of tools/libxc/xc_compression.c as its callers see it: a bounded list of pages,
most recently used first, that must always agree with what the receiver holds. */
module DeltaCache {
  import opened Sequences
  import opened PageCodec

  datatype Entry = Entry(pfn: nat, page: seq<Byte>)

  type Cache = seq<Entry>

  /** One page queued by xc_compression_add_page; page tables are queued raw. */
  datatype Item = Item(pfn: nat, page: seq<Byte>, raw: bool)

  predicate Distinct(c: Cache) {
    forall i, j :: 0 <= i < j < |c| ==> c[i].pfn != c[j].pfn
  }

  predicate Pages(c: Cache) {
    forall i :: 0 <= i < |c| ==> IsPage(c[i].page)
  }

  predicate Wf(c: Cache, slots: nat) {
    Distinct(c) && Pages(c) && |c| <= slots
  }

  /** The position of the page, or the length when it is not cached. */
  function IndexOf(c: Cache, p: nat): (i: nat)
    ensures i <= |c| && (i < |c| ==> c[i].pfn == p)
    ensures forall j :: 0 <= j < i ==> c[j].pfn != p
  {
    if c == [] || c[0].pfn == p then 0 else 1 + IndexOf(c[1..], p)
  }

  predicate Hit(c: Cache, p: nat) {
    IndexOf(c, p) < |c|
  }

  /** invalidate_cache_page. */
  function Without(c: Cache, p: nat): Cache {
    var i := IndexOf(c, p);
    if i < |c| then c[..i] + c[i + 1..] else c
  }

  /** get_cache_page followed by the copy into the slot: the page moves to the front, and when it
      is new and every slot is taken the last page of the list makes room. */
  function Place(c: Cache, p: nat, page: seq<Byte>, slots: nat): Cache {
    var rest := Without(c, p);
    [Entry(p, page)] + if |rest| >= slots > 0 then rest[..slots - 1] else rest
  }

  /** What one queued page adds to the stream. */
  function Message(c: Cache, it: Item): seq<Byte>
    requires Pages(c) && IsPage(it.page)
  {
    if !it.raw && Hit(c, it.pfn) then Encode(it.page, c[IndexOf(c, it.pfn)].page) else EncodeFull(it.page)
  }

  function After(c: Cache, it: Item, slots: nat): Cache {
    if it.raw then c else Place(c, it.pfn, it.page, slots)
  }

  // ------------------------------------------------------------- spare slots

  /** What the slots without a page still hold, the next to be taken last. */
  type Spare = seq<seq<Byte>>

  function Popped(spare: Spare): Spare {
    if spare == [] then [] else spare[..|spare| - 1]
  }

  /** What the slot holds that the next new page takes: the last spare one or, when there is none, that
      of the page that makes room. */
  function Stale(c: Cache, spare: Spare): seq<Byte> {
    if spare != [] then spare[|spare| - 1] else if c != [] then c[|c| - 1].page else []
  }

  /** The spare slots after a page was given a slot. */
  function SpareAfter(c: Cache, spare: Spare, it: Item): Spare {
    if it.raw || Hit(c, it.pfn) then spare else Popped(spare)
  }

  /** The spare slots after a page was invalidated. */
  function SpareWithout(c: Cache, spare: Spare, p: nat): Spare {
    if Hit(c, p) then spare + [c[IndexOf(c, p)].page] else spare
  }

  /** Every slot is in the cache or spare. */
  predicate AllSlots(c: Cache, spare: Spare, slots: nat) {
    |c| + |spare| == slots && forall i :: 0 <= i < |spare| ==> IsPage(spare[i])
  }

  // -------------------------------------------------------------- list facts

  lemma HitAt(c: Cache, p: nat, i: nat)
    requires i < |c| && c[i].pfn == p
    ensures Hit(c, p)
    ensures Distinct(c) ==> IndexOf(c, p) == i
  {
  }

  lemma WithoutHas(c: Cache, p: nat)
    requires Distinct(c)
    ensures Distinct(Without(c, p)) && !Hit(Without(c, p), p)
    ensures forall e :: e in Without(c, p) <==> e in c && e.pfn != p
    ensures |Without(c, p)| == if Hit(c, p) then |c| - 1 else |c|
  {
    var i, w := IndexOf(c, p), Without(c, p);
    if i < |c| {
      assert forall k :: 0 <= k < |w| ==> w[k] == if k < i then c[k] else c[k + 1];
      assert forall k :: 0 <= k < |c| && k != i ==> c[k] == if k < i then w[k] else w[k - 1];
    }
  }

  lemma PlaceHit(c: Cache, p: nat, slots: nat)
    requires Hit(c, p) && |c| <= slots
    ensures var i := IndexOf(c, p);
            Place(c, p, c[i].page, slots) == [c[i]] + (c[..i] + c[i + 1..])
  {
  }

  lemma PlaceWf(c: Cache, p: nat, page: seq<Byte>, slots: nat)
    requires Wf(c, slots) && IsPage(page) && slots > 0
    ensures Wf(Place(c, p, page, slots), slots)
    ensures forall e :: e in Place(c, p, page, slots) ==> e == Entry(p, page) || (e in c && e.pfn != p)
  {
    WithoutHas(c, p);
    var rest := Without(c, p);
    assert forall k :: 0 <= k < |rest| ==> rest[k] in c;
  }

  // --------------------------------------------------------------- coherence

  predicate Memory(mem: seq<seq<Byte>>) {
    forall p :: 0 <= p < |mem| ==> IsPage(mem[p])
  }

  /** Every cached page is what the receiver holds. */
  predicate Coherent(c: Cache, mem: seq<seq<Byte>>) {
    forall i :: 0 <= i < |c| ==> c[i].pfn < |mem| && mem[c[i].pfn] == c[i].page
  }

  predicate Fine(it: Item, mem: seq<seq<Byte>>) {
    it.pfn < |mem| && IsPage(it.page)
  }

  /** In a coherent state one message gives the receiver the page that was queued. */
  lemma MessageDelivers(c: Cache, mem: seq<seq<Byte>>, it: Item, pre: seq<Byte>, suf: seq<Byte>)
    requires Pages(c) && Memory(mem) && Fine(it, mem)
    requires it.raw || Coherent(c, mem)
    ensures (Decode(pre + Message(c, it) + suf, |pre|, mem[it.pfn])
             == Ok(|pre| + |Message(c, it)|, it.page))
  {
    if !it.raw && Hit(c, it.pfn) {
      var i := IndexOf(c, it.pfn);
      assert mem[c[i].pfn] == c[i].page;
      RoundTrip(it.page, c[i].page, pre, suf);
    } else {
      RoundTripFull(it.page, mem[it.pfn], pre, suf);
    }
  }

  lemma MessageAt(c: Cache, mem: seq<seq<Byte>>, it: Item, buf: seq<Byte>, pos: nat)
    requires Pages(c) && Memory(mem) && Fine(it, mem)
    requires it.raw || Coherent(c, mem)
    requires HoldsAt(buf, pos, Message(c, it))
    ensures Decode(buf, pos, mem[it.pfn]) == Ok(pos + |Message(c, it)|, it.page)
  {
    var msg := Message(c, it);
    MessageDelivers(c, mem, it, buf[..pos], buf[pos + |msg|..]);
    assert buf == buf[..pos] + msg + buf[pos + |msg|..];
  }

  lemma StepCoherent(c: Cache, mem: seq<seq<Byte>>, it: Item, slots: nat)
    requires Wf(c, slots) && slots > 0 && Coherent(c, mem) && Fine(it, mem)
    requires it.raw ==> !Hit(c, it.pfn)
    ensures Wf(After(c, it, slots), slots) && Coherent(After(c, it, slots), mem[it.pfn := it.page])
  {
    if it.raw {
      assert forall i :: 0 <= i < |c| ==> c[i].pfn != it.pfn;
    } else {
      PlaceWf(c, it.pfn, it.page, slots);
      var c' := After(c, it, slots);
      forall i | 0 <= i < |c'|
        ensures c'[i].pfn < |mem| && mem[it.pfn := it.page][c'[i].pfn] == c'[i].page
      {
        assert c'[i] in c';
      }
    }
  }

  /** A cached page that differs from the receiver's is not just untidy: queueing that very page
      next sends nothing, and the receiver keeps the wrong one. */
  lemma IncoherentDiverges(c: Cache, mem: seq<seq<Byte>>, i: nat)
    requires Distinct(c) && Pages(c) && Memory(mem)
    requires i < |c| && c[i].pfn < |mem| && mem[c[i].pfn] != c[i].page
    ensures var it := Item(c[i].pfn, c[i].page, false);
            && Decode(Message(c, it), 0, mem[it.pfn]) == Ok(|Message(c, it)|, mem[it.pfn])
            && mem[it.pfn] != it.page
  {
    HitAt(c, c[i].pfn, i);
  }
}
