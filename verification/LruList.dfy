/** The list of cache pages of tools/libxc/xc_compression.c: doubly linked through `prev` and `next`
(slot numbers here, pointers there), most recently used first, and indexed by page number. */
module LruList {
  import opened Sequences
  import opened PageCodec
  import opened DeltaCache

  const NONE: int := -1      // a null pointer, or INVALID_P2M_ENTRY

  // ------------------------------------------------------------------- links

  predicate AllBelow(o: seq<nat>, n: nat) {
    forall i :: 0 <= i < |o| ==> o[i] < n
  }

  /** The pointers of the slot at position `i` of `o` lead to its neighbours. */
  predicate LinkAt(o: seq<nat>, prev: seq<int>, next: seq<int>, i: nat)
    requires i < |o| && o[i] < |prev| && o[i] < |next|
  {
    && next[o[i]] == (if i + 1 < |o| then o[i + 1] else NONE)
    && prev[o[i]] == (if i > 0 then o[i - 1] else NONE)
  }

  /** The slots of `o`, in this order, are what the pointers describe. */
  predicate Chain(o: seq<nat>, prev: seq<int>, next: seq<int>, head: int, tail: int) {
    && |prev| == |next| && o != [] && AllBelow(o, |prev|) && NoRepeat(o)
    && head == o[0] && tail == o[|o| - 1]
    && forall i :: 0 <= i < |o| ==> LinkAt(o, prev, next, i)
  }

  function Removed(o: seq<nat>, i: nat): (r: seq<nat>)
    requires i < |o|
    ensures |r| == |o| - 1
    ensures forall k :: 0 <= k < |r| ==> r[k] == if k < i then o[k] else o[k + 1]
  {
    o[..i] + o[i + 1..]
  }

  lemma RemovedDistinct(o: seq<nat>, i: nat, n: nat)
    requires i < |o| && NoRepeat(o) && AllBelow(o, n)
    ensures NoRepeat(Removed(o, i)) && AllBelow(Removed(o, i), n) && o[i] !in Removed(o, i)
  {
  }

  lemma UnlinkTail(o: seq<nat>, prev: seq<int>, next: seq<int>, head: int, tail: int)
    requires Chain(o, prev, next, head, tail) && |o| >= 2
    ensures 0 <= prev[tail] < |next|
    ensures Chain(Removed(o, |o| - 1), prev, next[prev[tail] := NONE], head, prev[tail])
  {
    var n := |o| - 1;
    assert LinkAt(o, prev, next, n);
    RemovedDistinct(o, n, |prev|);
    var r, next' := Removed(o, n), next[prev[tail] := NONE];
    forall k | 0 <= k < n
      ensures LinkAt(r, prev, next', k)
    {
      assert LinkAt(o, prev, next, k);
    }
  }

  lemma UnlinkHead(o: seq<nat>, prev: seq<int>, next: seq<int>, head: int, tail: int)
    requires Chain(o, prev, next, head, tail) && |o| >= 2
    ensures 0 <= next[head] < |prev|
    ensures Chain(Removed(o, 0), prev[next[head] := NONE], next, next[head], tail)
  {
    assert LinkAt(o, prev, next, 0);
    RemovedDistinct(o, 0, |prev|);
    var r, prev' := Removed(o, 0), prev[next[head] := NONE];
    forall k | 0 <= k < |r|
      ensures LinkAt(r, prev', next, k)
    {
      assert LinkAt(o, prev, next, k + 1);
    }
  }

  lemma UnlinkMiddle(o: seq<nat>, prev: seq<int>, next: seq<int>, head: int, tail: int, i: nat)
    requires Chain(o, prev, next, head, tail) && 0 < i < |o| - 1
    ensures 0 <= prev[o[i]] < |next| && 0 <= next[o[i]] < |prev|
    ensures Chain(Removed(o, i), prev[next[o[i]] := prev[o[i]]], next[prev[o[i]] := next[o[i]]], head, tail)
  {
    assert LinkAt(o, prev, next, i);
    RemovedDistinct(o, i, |prev|);
    var r, prev', next' := Removed(o, i), prev[o[i + 1] := o[i - 1]], next[o[i - 1] := o[i + 1]];
    forall k | 0 <= k < |r|
      ensures LinkAt(r, prev', next', k)
    {
      assert LinkAt(o, prev, next, if k < i then k else k + 1);
    }
  }

  lemma PushFront(o: seq<nat>, prev: seq<int>, next: seq<int>, head: int, tail: int, x: nat)
    requires Chain(o, prev, next, head, tail) && x < |prev| && x !in o
    ensures Chain([x] + o, prev[x := NONE][head := x], next[x := head], x, tail)
  {
    var r, prev', next' := [x] + o, prev[x := NONE][head := x], next[x := head];
    forall k | 0 <= k < |r|
      ensures LinkAt(r, prev', next', k)
    {
      assert k > 0 ==> LinkAt(o, prev, next, k - 1);
    }
  }

  lemma PushBack(o: seq<nat>, prev: seq<int>, next: seq<int>, head: int, tail: int, x: nat)
    requires Chain(o, prev, next, head, tail) && x < |prev| && x !in o
    ensures Chain(o + [x], prev[x := tail], next[x := NONE][tail := x], head, x)
  {
    var r, prev', next' := o + [x], prev[x := tail], next[x := NONE][tail := x];
    forall k | 0 <= k < |r|
      ensures LinkAt(r, prev', next', k)
    {
      assert k < |o| ==> LinkAt(o, prev, next, k);
    }
  }

  // ------------------------------------------------------------------- index

  /** What the slot at position `i` says about itself: its page number and the way back to it, or
      that it is free. */
  predicate SlotAt(o: seq<nat>, used: nat, pfn: seq<int>, index: seq<int>, i: nat)
    requires i < |o| && o[i] < |pfn|
  {
    if i < used then 0 <= pfn[o[i]] < |index| && index[pfn[o[i]]] == o[i] else pfn[o[i]] == NONE
  }

  predicate Leads(o: seq<nat>, used: nat, index: seq<int>, pfn: seq<int>, p: nat)
    requires used <= |o| && AllBelow(o, |pfn|) && p < |index|
  {
    exists i :: 0 <= i < used && o[i] == index[p] && pfn[o[i]] == p
  }

  /** The first `used` slots of the list hold a page, the others are free, and `index` leads from
      page numbers to their slots and nowhere else. */
  predicate Indexed(o: seq<nat>, used: nat, pfn: seq<int>, index: seq<int>) {
    && used <= |o| && AllBelow(o, |pfn|)
    && (forall i :: 0 <= i < |o| ==> SlotAt(o, used, pfn, index, i))
    && (forall p :: 0 <= p < |index| && index[p] != NONE ==> Leads(o, used, index, pfn, p))
  }

  /** The list as its callers see it. */
  function Entries(o: seq<nat>, used: nat, pfn: seq<int>, page: seq<seq<Byte>>): (r: Cache)
    requires |page| == |pfn| && used <= |o| && AllBelow(o, |pfn|)
    requires forall i :: 0 <= i < used ==> pfn[o[i]] >= 0
    ensures |r| == used && forall i :: 0 <= i < used ==> r[i] == Entry(pfn[o[i]], page[o[i]])
  {
    seq(used, i requires 0 <= i < used => Entry(pfn[o[i]], page[o[i]]))
  }

  ghost predicate Lru(o: seq<nat>, used: nat, pfn: seq<int>, index: seq<int>, page: seq<seq<Byte>>) {
    && Indexed(o, used, pfn, index) && NoRepeat(o) && |o| == |pfn| == |page| && o != []
    && forall s :: 0 <= s < |page| ==> IsPage(page[s])
  }

  lemma UsedSlots(o: seq<nat>, used: nat, pfn: seq<int>, index: seq<int>)
    requires Indexed(o, used, pfn, index)
    ensures forall i :: 0 <= i < used ==> 0 <= pfn[o[i]] < |index| && index[pfn[o[i]]] == o[i]
  {
    forall i | 0 <= i < used
      ensures 0 <= pfn[o[i]] < |index| && index[pfn[o[i]]] == o[i]
    {
      assert SlotAt(o, used, pfn, index, i);
    }
  }

  /** The cache view of a well-formed list is well-formed, and the index answers for it. */
  lemma ViewOk(o: seq<nat>, used: nat, pfn: seq<int>, index: seq<int>, page: seq<seq<Byte>>)
    requires Lru(o, used, pfn, index, page)
    ensures forall i :: 0 <= i < used ==> pfn[o[i]] >= 0
    ensures Wf(Entries(o, used, pfn, page), |o|)
  {
    UsedSlots(o, used, pfn, index);
  }

  lemma HitIsIndexed(o: seq<nat>, used: nat, pfn: seq<int>, index: seq<int>, page: seq<seq<Byte>>, p: nat)
    requires Lru(o, used, pfn, index, page) && p < |index|
    requires forall i :: 0 <= i < used ==> pfn[o[i]] >= 0
    ensures var c := Entries(o, used, pfn, page);
            && (Hit(c, p) <==> index[p] != NONE)
            && (Hit(c, p) ==> o[IndexOf(c, p)] == index[p])
  {
    var c := Entries(o, used, pfn, page);
    ViewOk(o, used, pfn, index, page);
    UsedSlots(o, used, pfn, index);
    if index[p] != NONE {
      assert Leads(o, used, index, pfn, p);
      var i :| 0 <= i < used && o[i] == index[p] && pfn[o[i]] == p;
      HitAt(c, p, i);
    }
  }

  ghost function View(o: seq<nat>, used: nat, pfn: seq<int>, index: seq<int>, page: seq<seq<Byte>>): (c: Cache)
    requires Lru(o, used, pfn, index, page)
    ensures Wf(c, |o|) && |c| == used
  {
    ViewOk(o, used, pfn, index, page);
    Entries(o, used, pfn, page)
  }

  function Front(o: seq<nat>, i: nat): (r: seq<nat>)
    requires i < |o|
    ensures |r| == |o| && r[0] == o[i]
    ensures forall k :: 0 < k < |r| ==> r[k] == if k - 1 < i then o[k - 1] else o[k]
  {
    [o[i]] + Removed(o, i)
  }

  function Back(o: seq<nat>, i: nat): (r: seq<nat>)
    requires i < |o|
    ensures |r| == |o| && r[|o| - 1] == o[i]
    ensures forall k :: 0 <= k < |r| - 1 ==> r[k] == if k < i then o[k] else o[k + 1]
  {
    Removed(o, i) + [o[i]]
  }

  /** The place of position `k` after the slot at `i` has moved to the front. */
  function FrontPlace(i: nat, k: nat): nat {
    if k == i then 0 else if k < i then k + 1 else k
  }

  lemma FrontLeads(o: seq<nat>, used: nat, pfn: seq<int>, index: seq<int>, i: nat, p: nat)
    requires Indexed(o, used, pfn, index) && i < used && p < |index| && index[p] != NONE
    ensures AllBelow(Front(o, i), |pfn|) && Leads(Front(o, i), used, index, pfn, p)
  {
    assert Leads(o, used, index, pfn, p);
    var j :| 0 <= j < used && o[j] == index[p] && pfn[o[j]] == p;
    assert Front(o, i)[FrontPlace(i, j)] == o[j];
  }

  lemma FrontIndexed(o: seq<nat>, used: nat, pfn: seq<int>, index: seq<int>, i: nat)
    requires Indexed(o, used, pfn, index) && NoRepeat(o) && i < used
    ensures Indexed(Front(o, i), used, pfn, index) && NoRepeat(Front(o, i))
  {
    var r := Front(o, i);
    forall k | 0 <= k < |r|
      ensures SlotAt(r, used, pfn, index, k)
    {
      assert SlotAt(o, used, pfn, index, if k == 0 then i else if k <= i then k - 1 else k);
    }
    forall p | 0 <= p < |index| && index[p] != NONE
      ensures Leads(r, used, index, pfn, p)
    {
      FrontLeads(o, used, pfn, index, i, p);
    }
  }

  lemma FrontView(o: seq<nat>, used: nat, pfn: seq<int>, index: seq<int>, page: seq<seq<Byte>>, i: nat)
    requires Lru(o, used, pfn, index, page) && i < used && Lru(Front(o, i), used, pfn, index, page)
    ensures var c := View(o, used, pfn, index, page);
            View(Front(o, i), used, pfn, index, page) == [c[i]] + (c[..i] + c[i + 1..])
  {
    ViewOk(o, used, pfn, index, page);
    ViewOk(Front(o, i), used, pfn, index, page);
  }

  lemma BackView(o: seq<nat>, used: nat, pfn: seq<int>, index: seq<int>, page: seq<seq<Byte>>, i: nat,
                 used': nat, pfn': seq<int>, index': seq<int>)
    requires Lru(o, used, pfn, index, page) && i < used
    requires used' == used - 1 && pfn' == pfn[o[i] := NONE] && Lru(Back(o, i), used', pfn', index', page)
    ensures var c := View(o, used, pfn, index, page);
            View(Back(o, i), used', pfn', index', page) == c[..i] + c[i + 1..]
  {
    ViewOk(o, used, pfn, index, page);
    ViewOk(Back(o, i), used', pfn', index', page);
    hide Indexed;
  }

  /** Moving the slot of a cached page to the front is a use of the page. */
  lemma FrontIsPlace(o: seq<nat>, used: nat, pfn: seq<int>, index: seq<int>, page: seq<seq<Byte>>, p: nat, i: nat)
    requires Lru(o, used, pfn, index, page) && p < |index| && index[p] != NONE
    requires i == IndexOf(View(o, used, pfn, index, page), p)
    ensures i < used && o[i] == index[p] && Lru(Front(o, i), used, pfn, index, page)
    ensures View(o, used, pfn, index, page)[i].page == page[index[p]]
    ensures (View(Front(o, i), used, pfn, index, page)
             == Place(View(o, used, pfn, index, page), p, page[index[p]], |o|))
  {
    ViewOk(o, used, pfn, index, page);
    HitIsIndexed(o, used, pfn, index, page, p);
    hide Indexed, AllBelow, NoRepeat, Front, Place, Without;
    assert View(o, used, pfn, index, page)[i].page == page[index[p]];
    hide Entries, View;
    FrontIndexed(o, used, pfn, index, i);
    FrontView(o, used, pfn, index, page, i);
    PlaceHit(View(o, used, pfn, index, page), p, |o|);
  }

  // Taking the slot at the tail for page p: its old page number leaves the index.
  function Evict(pfn: seq<int>, index: seq<int>, t: nat): seq<int>
    requires t < |pfn| && pfn[t] < |index|
  {
    if pfn[t] >= 0 then index[pfn[t] := NONE] else index
  }

  lemma TailIndexed(o: seq<nat>, used: nat, pfn: seq<int>, index: seq<int>, p: nat, index': seq<int>, pfn': seq<int>)
    requires Indexed(o, used, pfn, index) && NoRepeat(o) && o != [] && p < |index| && index[p] == NONE
    requires pfn[o[|o| - 1]] < |index|
    requires index' == Evict(pfn, index, o[|o| - 1])[p := o[|o| - 1]] && pfn' == pfn[o[|o| - 1] := p]
    ensures var used' := if used < |o| then used + 1 else used;
            Indexed(Front(o, |o| - 1), used', pfn', index') && NoRepeat(Front(o, |o| - 1))
  {
    var n, t := |o| - 1, o[|o| - 1];
    var r, used' := Front(o, n), if used < |o| then used + 1 else used;
    assert SlotAt(o, used, pfn, index, n);
    forall k | 0 <= k < |r|
      ensures SlotAt(r, used', pfn', index', k)
    {
      assert k > 0 ==> SlotAt(o, used, pfn, index, k - 1);
    }
    forall q | 0 <= q < |index'| && index'[q] != NONE
      ensures Leads(r, used', index', pfn', q)
    {
      if q == p {
        assert r[0] == t;
      } else {
        assert Leads(o, used, index, pfn, q);
        var j :| 0 <= j < used && o[j] == index[q] && pfn[o[j]] == q;
        assert r[j + 1] == o[j];
      }
    }
  }

  /** Taking the tail for a page that is not cached fills a free slot while there is one and makes
      the least recently used page leave otherwise. */
  lemma TailIsPlace(o: seq<nat>, used: nat, pfn: seq<int>, index: seq<int>, page: seq<seq<Byte>>, p: nat,
                    index': seq<int>, pfn': seq<int>)
    requires Lru(o, used, pfn, index, page) && p < |index| && index[p] == NONE
    requires pfn[o[|o| - 1]] < |index|
    requires index' == Evict(pfn, index, o[|o| - 1])[p := o[|o| - 1]] && pfn' == pfn[o[|o| - 1] := p]
    ensures var used' := if used < |o| then used + 1 else used;
            && Lru(Front(o, |o| - 1), used', pfn', index', page)
            && (View(Front(o, |o| - 1), used', pfn', index', page)
                == Place(View(o, used, pfn, index, page), p, page[o[|o| - 1]], |o|))
  {
    ViewOk(o, used, pfn, index, page);
    HitIsIndexed(o, used, pfn, index, page, p);
    TailIndexed(o, used, pfn, index, p, index', pfn');
    var used' := if used < |o| then used + 1 else used;
    var c, c' := View(o, used, pfn, index, page), View(Front(o, |o| - 1), used', pfn', index', page);
    assert c' == [Entry(p, page[o[|o| - 1]])] + c[..used' - 1];
    assert c[..used] == c;
  }

  lemma BackLeads(o: seq<nat>, used: nat, pfn: seq<int>, index: seq<int>, i: nat, q: nat)
    requires Indexed(o, used, pfn, index) && i < used && q < |index| && index[q] != NONE && pfn[o[i]] != q
    ensures AllBelow(Back(o, i), |pfn|)
    ensures exists k :: 0 <= k < used - 1 && Back(o, i)[k] == index[q] && pfn[Back(o, i)[k]] == q
  {
    assert Leads(o, used, index, pfn, q);
    var j :| 0 <= j < used && o[j] == index[q] && pfn[o[j]] == q;
    assert Back(o, i)[if j < i then j else j - 1] == o[j];
  }

  lemma BackIndexed(o: seq<nat>, used: nat, pfn: seq<int>, index: seq<int>, p: nat, i: nat, used': nat)
    requires Indexed(o, used, pfn, index) && NoRepeat(o) && i < used && p < |index| && pfn[o[i]] == p
    requires used' == used - 1
    ensures Indexed(Back(o, i), used', pfn[o[i] := NONE], index[p := NONE]) && NoRepeat(Back(o, i))
  {
    var r, pfn', index' := Back(o, i), pfn[o[i] := NONE], index[p := NONE];
    assert SlotAt(o, used, pfn, index, i);
    forall k | 0 <= k < |r|
      ensures SlotAt(r, used', pfn', index', k)
    {
      assert SlotAt(o, used, pfn, index, if k == |r| - 1 then i else if k < i then k else k + 1);
    }
    forall q | 0 <= q < |index'| && index'[q] != NONE
      ensures Leads(r, used', index', pfn', q)
    {
      assert Leads(o, used, index, pfn, q);
      BackLeads(o, used, pfn, index, i, q);
      var k :| 0 <= k < used' && r[k] == index[q] && pfn[r[k]] == q;
      assert r[k] == index'[q] && pfn'[r[k]] == q;
    }
  }

  /** Moving the slot of a cached page to the back and freeing it drops just that page. */
  lemma BackIsWithout(o: seq<nat>, used: nat, pfn: seq<int>, index: seq<int>, page: seq<seq<Byte>>, p: nat, i: nat)
    requires Lru(o, used, pfn, index, page) && p < |index| && index[p] != NONE
    requires i == IndexOf(View(o, used, pfn, index, page), p)
    ensures i < used && o[i] == index[p] && Lru(Back(o, i), used - 1, pfn[o[i] := NONE], index[p := NONE], page)
    ensures (View(Back(o, i), used - 1, pfn[o[i] := NONE], index[p := NONE], page)
             == Without(View(o, used, pfn, index, page), p))
  {
    ViewOk(o, used, pfn, index, page);
    HitIsIndexed(o, used, pfn, index, page, p);
    hide Indexed, Entries, AllBelow, NoRepeat, Back, View;
    BackIndexed(o, used, pfn, index, p, i, used - 1);
    BackView(o, used, pfn, index, page, i, used - 1, pfn[o[i] := NONE], index[p := NONE]);
  }

  /** Copying a page into the slot at the front. */
  lemma HeadWrite(o: seq<nat>, used: nat, pfn: seq<int>, index: seq<int>, page: seq<seq<Byte>>, c: Cache, p: nat,
                  src: seq<Byte>)
    requires Lru(o, used, pfn, index, page) && IsPage(src) && p < |index|
    requires View(o, used, pfn, index, page) == Place(c, p, page[o[0]], |o|)
    ensures Lru(o, used, pfn, index, page[o[0] := src])
    ensures View(o, used, pfn, index, page[o[0] := src]) == Place(c, p, src, |o|)
  {
    ViewOk(o, used, pfn, index, page);
    var v, v' := View(o, used, pfn, index, page), View(o, used, pfn, index, page[o[0] := src]);
    assert v[0] == Entry(p, page[o[0]]);
    assert v'[0] == Entry(p, src) && v'[1..] == v[1..] == Place(c, p, src, |o|)[1..];
    assert v' == [v'[0]] + v'[1..];
  }

  // ------------------------------------------------------------- spare slots

  /** What the free slots hold, in list order. */
  ghost function SpareOf(o: seq<nat>, used: nat, page: seq<seq<Byte>>): (r: Spare)
    requires used <= |o| && AllBelow(o, |page|)
    ensures |r| == |o| - used && forall i :: 0 <= i < |r| ==> r[i] == page[o[used + i]]
  {
    seq(|o| - used, i requires 0 <= i < |o| - used => page[o[used + i]])
  }

  lemma FrontSpare(o: seq<nat>, used: nat, page: seq<seq<Byte>>, i: nat)
    requires i < used <= |o| && AllBelow(o, |page|) && AllBelow(Front(o, i), |page|)
    ensures SpareOf(Front(o, i), used, page) == SpareOf(o, used, page)
  {
  }

  lemma TailSpare(o: seq<nat>, used: nat, page: seq<seq<Byte>>)
    requires used <= |o| && o != [] && AllBelow(o, |page|) && AllBelow(Front(o, |o| - 1), |page|)
    ensures (SpareOf(Front(o, |o| - 1), if used < |o| then used + 1 else used, page)
             == Popped(SpareOf(o, used, page)))
  {
    hide Front, Removed, SpareOf;
  }

  lemma BackSpare(o: seq<nat>, used: nat, pfn: seq<int>, index: seq<int>, page: seq<seq<Byte>>, p: nat, i: nat)
    requires Lru(o, used, pfn, index, page) && p < |index| && index[p] != NONE
    requires i == IndexOf(View(o, used, pfn, index, page), p)
    ensures i < used && AllBelow(Back(o, i), |page|)
    ensures (SpareOf(Back(o, i), used - 1, page)
             == SpareWithout(View(o, used, pfn, index, page), SpareOf(o, used, page), p))
  {
    ViewOk(o, used, pfn, index, page);
    HitIsIndexed(o, used, pfn, index, page, p);
  }

  /** Copying into the slot at the front leaves the spare slots alone. */
  lemma WriteSpare(o: seq<nat>, used: nat, page: seq<seq<Byte>>, src: seq<Byte>)
    requires 0 < used <= |o| && AllBelow(o, |page|) && NoRepeat(o)
    ensures SpareOf(o, used, page[o[0] := src]) == SpareOf(o, used, page)
  {
  }

  lemma HeadSpare(o: seq<nat>, used: nat, pfn: seq<int>, index: seq<int>, page: seq<seq<Byte>>, c: Cache, p: nat,
                  src: seq<Byte>)
    requires Lru(o, used, pfn, index, page)
    requires View(o, used, pfn, index, page) == Place(c, p, page[o[0]], |o|)
    ensures SpareOf(o, used, page[o[0] := src]) == SpareOf(o, used, page)
  {
    assert used > 0;
    WriteSpare(o, used, page, src);
  }

  /** The slot that goes to a new page is the one that is called stale, and it is no longer spare. */
  lemma TailIsStale(o: seq<nat>, used: nat, pfn: seq<int>, index: seq<int>, page: seq<seq<Byte>>)
    requires Lru(o, used, pfn, index, page)
    ensures page[o[|o| - 1]] == Stale(View(o, used, pfn, index, page), SpareOf(o, used, page))
    ensures AllBelow(Front(o, |o| - 1), |page|)
    ensures (SpareOf(Front(o, |o| - 1), if used < |o| then used + 1 else used, page)
             == Popped(SpareOf(o, used, page)))
  {
    ViewOk(o, used, pfn, index, page);
    TailSpare(o, used, page);
  }

  lemma SpareFull(o: seq<nat>, used: nat, pfn: seq<int>, index: seq<int>, page: seq<seq<Byte>>)
    requires Lru(o, used, pfn, index, page)
    ensures AllSlots(View(o, used, pfn, index, page), SpareOf(o, used, page), |o|)
  {
  }
}
