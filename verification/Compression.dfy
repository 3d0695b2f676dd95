/** The compression context of tools/libxc/xc_compression.c, proved against the cache and batch
specifications. */
module Compression {
  import opened Sequences
  import opened PageCodec
  import opened DeltaCache
  import opened DeltaBatches
  import opened DeltaExact
  import opened DeltaSpace
  import opened LruList
  import opened PageCompressor

  const QUEUE: nat := 8192        // pages of PAGE_BUFFER_SIZE

  /** What queueing a page comes to: a return value, or an index one past the end of pfn2cache. */
  datatype Added = Returned(rc: int) | PastTheEnd

  class Context {
    const size: nat               // dom_pfnlist_size
    const slots: nat              // pages of DELTA_CACHE_SIZE

    var index: seq<int>           // pfn2cache
    var pfn: seq<int>
    var page: seq<seq<Byte>>      // cache_base, one page per slot
    var prev: seq<int>
    var next: seq<int>
    var head: int                 // page_list_head
    var tail: int                 // page_list_tail

    var inputbuf: seq<seq<Byte>>
    var sendbuf: seq<int>         // sendbuf_pfns, NONE for a raw page
    var at: nat                   // pfns_index

    var compbuf: seq<Byte>        // what has been written, up to compbuf_pos
    var compbufSize: nat

    ghost var order: seq<nat>     // the slots from head to tail
    ghost var used: nat           // how many of them hold a page
    ghost var queue: seq<Item>    // what was queued, with the numbers of the raw pages

    ghost predicate Listed()
      reads `index, `pfn, `page, `prev, `next, `head, `tail, `order, `used
    {
      && Chain(order, prev, next, head, tail) && |prev| == slots
      && Lru(order, used, pfn, index, page) && |order| == slots && |index| == size
    }

    ghost predicate Valid()
      reads `index, `pfn, `page, `prev, `next, `head, `tail, `order, `used, `queue, `inputbuf, `sendbuf, `at
      ensures Valid() ==> Listed() && at <= |queue| == |sendbuf|
    {
      Listed() && Queueing(queue, inputbuf, sendbuf, size) && at <= |queue|
    }

    ghost function View(): (c: Cache)
      requires Listed()
      reads `index, `pfn, `page, `prev, `next, `head, `tail, `order, `used
      ensures Wf(c, slots)
    {
      LruList.View(order, used, pfn, index, page)
    }

    /** What the free slots still hold. */
    ghost function Unused(): (s: Spare)
      requires Listed()
      reads `index, `pfn, `page, `prev, `next, `head, `tail, `order, `used
      ensures AllSlots(View(), s, slots)
    {
      SpareFull(order, used, pfn, index, page);
      SpareOf(order, used, page)
    }

    /** All slots, and what is queued and not yet sent. */
    ghost function Now(): (s: Slots)
      requires Listed()
      reads `index, `pfn, `page, `prev, `next, `head, `tail, `order, `used
      ensures s == Slots(View(), Unused()) && AllSlots(s.cache, s.spare, slots)
    {
      Slots(View(), Unused())
    }

    ghost function Pending(): (items: seq<Item>)
      requires Valid()
      reads `index, `pfn, `page, `prev, `next, `head, `tail, `order, `used, `queue, `inputbuf, `sendbuf, `at
      ensures Ready(Now(), items, slots) && |items| == |queue| - at && (items != [] ==> items[0] == queue[at])
    {
      queue[at..]
    }

    lemma PendingIs()
      requires Valid()
      ensures Pending() == queue[at..]
    {
    }

    /** xc_compression_create_context: every slot is free; what the fresh pages hold is unknown. */
    constructor (size: nat, slots: nat, base: seq<seq<Byte>>)
      requires slots > 0 && |base| == slots && forall s :: 0 <= s < slots ==> IsPage(base[s])
      ensures Valid() && this.size == size && this.slots == slots
      ensures View() == [] && Unused() == base && queue == [] && at == 0
    {
      this.size, this.slots := size, slots;
      index := seq(size, _ => NONE);
      pfn := seq(slots, _ => NONE);
      page := base;
      prev := seq(slots, i => i - 1);
      next := seq(slots, i => if i + 1 == slots then NONE else i + 1);
      head, tail := 0, slots - 1;
      inputbuf, sendbuf, at, compbuf, compbufSize := [], [], 0, [], 0;
      order, used, queue := seq(slots, i => i), 0, [];
      new;
      assert forall i :: 0 <= i < slots ==> LinkAt(order, prev, next, i);
      assert forall i :: 0 <= i < slots ==> SlotAt(order, used, pfn, index, i);
    }

    /** Unlink the slot from the middle or the tail and put it in front. */
    method MoveToHead(item: nat, ghost i: nat)
      requires Chain(order, prev, next, head, tail) && i < |order| && order[i] == item
      modifies `prev, `next, `head, `tail
      ensures |prev| == old(|prev|) && head == item
      ensures Chain(Front(order, i), prev, next, head, tail)
    {
      if item != head {
        ghost var rest := Removed(order, i);
        RemovedDistinct(order, i, |prev|);
        if item == tail {
          UnlinkTail(order, prev, next, head, tail);
          tail := prev[item];
          next := next[tail := NONE];
        } else {
          UnlinkMiddle(order, prev, next, head, tail, i);
          var before, behind := prev[item], next[item];
          next := next[before := behind];
          prev := prev[behind := before];
        }
        PushFront(rest, prev, next, head, tail, item);
        prev := prev[item := NONE];
        next := next[item := head];
        prev := prev[head := item];
        head := item;
      } else {
        assert Front(order, i) == order;
      }
    }

    /** Unlink the slot from the head or the middle and put it last. */
    method MoveToTail(item: nat, ghost i: nat)
      requires Chain(order, prev, next, head, tail) && i < |order| && order[i] == item
      modifies `prev, `next, `head, `tail
      ensures |prev| == old(|prev|) && tail == item
      ensures Chain(Back(order, i), prev, next, head, tail)
    {
      if item != tail {
        ghost var rest := Removed(order, i);
        RemovedDistinct(order, i, |prev|);
        if item == head {
          UnlinkHead(order, prev, next, head, tail);
          head := next[item];
          prev := prev[head := NONE];
        } else {
          UnlinkMiddle(order, prev, next, head, tail, i);
          var before, behind := prev[item], next[item];
          next := next[before := behind];
          prev := prev[behind := before];
        }
        PushBack(rest, prev, next, head, tail, item);
        next := next[item := NONE];
        prev := prev[item := tail];
        next := next[tail := item];
        tail := item;
      } else {
        assert Back(order, i) == order;
      }
    }

    /** A page that is not cached takes the slot at the tail from the page that has it, if any. */
    method TakeTail(p: nat) returns (slot: nat, ghost used': nat)
      requires Listed() && p < size && index[p] == NONE
      modifies `index, `pfn
      ensures slot == order[slots - 1] && slot < slots && |index| == size
      ensures Lru(Front(order, slots - 1), used', pfn, index, page)
      ensures (LruList.View(Front(order, slots - 1), used', pfn, index, page)
               == Place(old(View()), p, page[slot], slots))
      ensures used' == if used < |order| then used + 1 else used
    {
      ghost var index0, pfn0 := index, pfn;
      assert SlotAt(order, used, pfn, index, slots - 1);
      hide Indexed, NoRepeat, Place, LruList.View, Front;
      slot := tail;
      if pfn[slot] != NONE {
        index := index[pfn[slot] := NONE];
      }
      pfn := pfn[slot := p];
      index := index[p := slot];
      used' := if used < |order| then used + 1 else used;
      TailIsPlace(order, used, pfn0, index0, page, p, index, pfn);
    }

    /** The first half of get_cache_page: the slot the page has, or the one at the tail. */
    method TakeSlot(p: nat) returns (slot: nat, israw: bool, ghost i: nat, ghost used': nat)
      requires Listed() && p < size
      modifies `index, `pfn
      ensures i < |order| && order[i] == slot && slot < slots && |index| == size
      ensures Lru(Front(order, i), used', pfn, index, page)
      ensures (LruList.View(Front(order, i), used', pfn, index, page)
               == Place(old(View()), p, page[slot], slots))
      ensures israw <==> !Hit(old(View()), p)
      ensures SpareOf(Front(order, i), used', page) == if israw then Popped(old(Unused())) else old(Unused())
      ensures page[slot] == if israw then Stale(old(View()), old(Unused())) else old(View())[IndexOf(old(View()), p)].page
    {
      ViewOk(order, used, pfn, index, page);
      HitIsIndexed(order, used, pfn, index, page, p);
      TailIsStale(order, used, pfn, index, page);
      hide Indexed, NoRepeat, Place, Front, Chain, Entries;
      israw := index[p] == NONE;
      if israw {
        i := |order| - 1;
        slot, used' := TakeTail(p);
      } else {
        slot, i, used' := index[p], IndexOf(View(), p), used;
        FrontIsPlace(order, used, pfn, index, page, p, i);
        FrontSpare(order, used, page, i);
      }
    }

    /** get_cache_page: the slot for the page, moved to the front, and whether the page is new. */
    method GetCachePage(p: nat) returns (slot: nat, israw: bool)
      requires Listed() && p < size
      modifies `index, `pfn, `prev, `next, `head, `tail, `order, `used
      ensures Listed() && slot == head && slot < slots && slot == order[0]
      ensures israw <==> !Hit(old(View()), p)
      ensures View() == Place(old(View()), p, page[slot], slots)
      ensures Unused() == if israw then Popped(old(Unused())) else old(Unused())
      ensures page[slot] == if israw then Stale(old(View()), old(Unused())) else old(View())[IndexOf(old(View()), p)].page
    {
      hide Chain, Lru, Place, Without, LruList.View, Front, Wf;
      ghost var i, used';
      slot, israw, i, used' := TakeSlot(p);
      MoveToHead(slot, i);
      order, used := Front(order, i), used';
    }

    /** The page leaves its slot, which goes to the tail as a free one. */
    method Free(p: nat, item: nat, ghost i: nat)
      requires Listed() && p < size && index[p] == item && i == IndexOf(View(), p)
      modifies `index, `pfn, `prev, `next, `head, `tail, `order, `used
      ensures Listed() && View() == Without(old(View()), p)
      ensures Unused() == SpareWithout(old(View()), old(Unused()), p)
    {
      hide Chain, Indexed, Back, Entries, LruList.View, Without, SpareOf, SpareWithout, AllSlots, NoRepeat, Wf;
      BackIsWithout(order, used, pfn, index, page, p, i);
      BackSpare(order, used, pfn, index, page, p, i);
      MoveToTail(item, i);
      index := index[p := NONE];
      pfn := pfn[tail := NONE];
      order, used := Back(order, i), used - 1;
    }

    /** invalidate_cache_page. */
    method InvalidateCachePage(p: nat)
      requires Listed() && p < size
      modifies `index, `pfn, `prev, `next, `head, `tail, `order, `used
      ensures Listed() && View() == Without(old(View()), p)
      ensures Unused() == SpareWithout(old(View()), old(Unused()), p)
    {
      ViewOk(order, used, pfn, index, page);
      HitIsIndexed(order, used, pfn, index, page, p);
      hide Chain, Indexed, Entries;
      var item := index[p];
      if item != NONE {
        Free(p, item, IndexOf(View(), p));
      }
    }

    /** Append to the two queue buffers. */
    method Enqueue(p: nat, pg: seq<Byte>, israw: bool)
      requires Queueing(queue, inputbuf, sendbuf, size) && |queue| < QUEUE && IsPage(pg) && p < size
      modifies `queue, `inputbuf, `sendbuf
      ensures Queueing(queue, inputbuf, sendbuf, size) && queue == old(queue) + [Item(p, pg, israw)]
    {
      inputbuf := inputbuf + [pg];
      sendbuf := sendbuf + [if israw then NONE else p];
      queue := queue + [Item(p, pg, israw)];
    }

    /** xc_compression_add_page. A number that passes the range test is used as an index of pfn2cache, at
        once for a raw page and when it is compressed for any other; it has an entry there unless it is the
        size itself. */
    method AddPage(p: nat, pg: seq<Byte>, israw: bool) returns (r: Added)
      requires Valid() && IsPage(pg) && |queue| < QUEUE
      modifies `index, `pfn, `prev, `next, `head, `tail, `order, `used, `queue, `inputbuf, `sendbuf
      ensures Valid() && (r.PastTheEnd? <==> p == size)
      ensures r == Returned(-2) <==> p > size
      ensures p >= size ==> queue == old(queue) && Now() == old(Now())
      ensures p < size ==> r == Returned(if |queue| == QUEUE then -1 else 0)
      ensures p < size ==> queue == old(queue) + [Item(p, pg, israw)]
      ensures p < size ==> Now() == Dropped(old(Now()), Item(p, pg, israw))
    {
      hide Chain, Lru, LruList.View, Without, SpareWithout, SpareOf, AllSlots, Wf, Queueing, AllPages;
      if p > size {
        return Returned(-2);
      }
      if p >= |index| {
        return PastTheEnd;
      }
      if israw {
        InvalidateCachePage(p);
      }
      Enqueue(p, pg, israw);
      return Returned(if |sendbuf| == QUEUE then -1 else 0);
    }

    /** add_full_page: the page behind its marker, copied into its slot if it has one. */
    method AddFullPage(src: seq<Byte>, slot: int) returns (ok: bool)
      requires IsPage(src) && NONE <= slot < |page|
      modifies `page, `compbuf
      ensures ok <==> |old(compbuf)| + PAGE + 1 <= compbufSize
      ensures compbuf == if ok then old(compbuf) + EncodeFull(src) else old(compbuf)
      ensures ok ==> |compbuf| <= compbufSize
      ensures page == if ok && slot != NONE then old(page)[slot := src] else old(page)
    {
      if |compbuf| + PAGE + 1 > compbufSize {
        return false;
      }
      if slot != NONE {
        page := page[slot := src];
      }
      compbuf := compbuf + ([FULL] + src);
      return true;
    }

    /** compress_page on the slot of a cached page. */
    method AddDelta(src: seq<Byte>, slot: nat) returns (ok: bool)
      requires IsPage(src) && slot < |page| && IsPage(page[slot])
      modifies `page, `compbuf
      ensures ok <==> |old(compbuf)| + WORST <= compbufSize
      ensures compbuf == if ok then old(compbuf) + Encode(src, old(page)[slot]) else old(compbuf)
      ensures ok ==> |compbuf| <= compbufSize
      ensures page == if ok then old(page)[slot := src] else old(page)
    {
      if |compbuf| + WORST > compbufSize {
        return false;
      }
      var code, cache;
      ok, code, cache := CompressPage(src, page[slot], compbufSize - |compbuf|);
      compbuf := compbuf + code;
      page := page[slot := cache];
    }

    /** The turn for a page that is not raw. A page that finds no space has already taken its slot. */
    method SendCached(p: nat, src: seq<Byte>) returns (ok: bool)
      requires Listed() && p < size && IsPage(src)
      modifies `index, `pfn, `prev, `next, `head, `tail, `order, `used, `page, `compbuf
      ensures Listed() && (ok <==> |old(compbuf)| + Need(old(View()), Item(p, src, false)) <= compbufSize)
      ensures compbuf == if ok then old(compbuf) + Message(old(View()), Item(p, src, false)) else old(compbuf)
      ensures (Now() == if ok then Took(old(Now()), Item(p, src, false), slots)
                        else Balked(old(Now()), Item(p, src, false), slots))
    {
      hide Chain, Indexed, Entries, LruList.View, Without, Encode, EncodeFull;
      ghost var c := View();
      var slot, israw := GetCachePage(p);
      HeadWrite(order, used, pfn, index, page, c, p, src);
      HeadSpare(order, used, pfn, index, page, c, p, src);
      if israw {
        ok := AddFullPage(src, slot);
      } else {
        ok := AddDelta(src, slot);
      }
    }

    /** One turn of the loop of xc_compression_compress_pages. */
    method SendPage() returns (ok: bool)
      requires Valid() && at < |queue|
      modifies `index, `pfn, `prev, `next, `head, `tail, `order, `used, `page, `compbuf
      ensures Valid() && (ok <==> |old(compbuf)| + Need(old(View()), queue[at]) <= compbufSize)
      ensures compbuf == if ok then old(compbuf) + Message(old(View()), queue[at]) else old(compbuf)
      ensures Now() == if ok then Took(old(Now()), queue[at], slots) else Balked(old(Now()), queue[at], slots)
      ensures Pending() == old(Pending())
    {
      hide Chain, Lru, LruList.View, Place, Without, Encode, EncodeFull;
      var src := inputbuf[at];
      if sendbuf[at] == NONE {
        ok := AddFullPage(src, NONE);
      } else {
        assert queue[at] == Item(sendbuf[at], src, false);
        ok := SendCached(sendbuf[at], src);
      }
    }

    /** The next page of the queue, */
    method Advance()
      requires Valid() && at < |queue|
      modifies `at
      ensures Valid() && Pending() == old(Pending())[1..] && at == old(at) + 1
    {
      hide Chain, Lru, LruList.View;
      at := at + 1;
    }

    /** and an empty queue. */
    method Restart()
      requires Listed()
      modifies `inputbuf, `sendbuf, `at, `queue
      ensures Valid() && queue == [] && at == 0
    {
      hide Chain, Lru, LruList.View;
      inputbuf, sendbuf, at, queue := [], [], 0, [];
    }

    /** The loop of xc_compression_compress_pages: it accepts pages as long as they fit. */
    method SendAll() returns (ok: bool)
      requires Valid() && compbuf == []
      modifies `index, `pfn, `prev, `next, `head, `tail, `order, `used, `page, `compbuf, `at
      ensures Valid() && (ok <==> at == |queue|) && at >= old(at)
      ensures (Called(compbuf, at - old(at), Now())
               == Call(old(Now()), old(Pending()), slots, compbufSize, 0))
    {
      hide *;
      ghost var all, a := Call(Now(), Pending(), slots, compbufSize, 0), at;
      OntoNothing(all);
      while at < |sendbuf|
        invariant Valid() && a <= at
        invariant all == Onto(compbuf, at - a, Call(Now(), Pending(), slots, compbufSize, |compbuf|))
        decreases |sendbuf| - at
      {
        ghost var s, items, out := Now(), Pending(), compbuf;
        ok := SendPage();
        if !ok {
          CallStops(s, items, slots, compbufSize, out, at - a);
          return;
        }
        Advance();
        CallNext(s, items, slots, compbufSize, out, at - 1 - a, Now(), compbuf);
      }
      CallStops(Now(), Pending(), slots, compbufSize, compbuf, at - a);
      ok := true;
    }

    /** xc_compression_compress_pages: the queued pages from where the last call stopped, as many as the
        buffer holds. */
    method CompressPages(bufSize: nat) returns (rc: int)
      requires Valid()
      modifies this
      ensures Valid() && rc == if old(at) == |old(queue)| then 0 else if at == |queue| then 1 else -1
      ensures rc == 0 ==> queue == [] && at == 0 && Now() == old(Now())
      ensures rc != 0 ==> queue == old(queue) && at >= old(at)
      ensures rc != 0 ==> (Called(compbuf, at - old(at), Now())
                           == Call(old(Now()), old(Pending()), slots, bufSize, 0))
    {
      hide *;
      if |sendbuf| == 0 || at == |sendbuf| {
        Restart();
        return 0;
      }
      compbuf, compbufSize := [], bufSize;
      var ok := SendAll();
      rc := if ok then 1 else -1;
    }
  }

  /** The two queue buffers hold the queued pages. */
  ghost predicate Queueing(queue: seq<Item>, inputbuf: seq<seq<Byte>>, sendbuf: seq<int>, size: nat) {
    && |queue| == |inputbuf| == |sendbuf| <= QUEUE && AllPages(queue)
    && forall i :: 0 <= i < |queue| ==>
         && inputbuf[i] == queue[i].page && queue[i].pfn < size
         && sendbuf[i] == if queue[i].raw then NONE else queue[i].pfn
  }
}
