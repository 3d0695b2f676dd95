/** The page allocator of extras/mini-os/mm.c in page numbers: bitmap, free lists and the buddy
loops of init_page_allocator, alloc_pages and free_pages. */
module PageAllocator {
  import opened PowersOfTwo
  import opened Bitmap
  import opened Buddy
  import opened FreeLists

  datatype Option<T> = None | Some(value: T)

  // ------------------------------------------------------ lists as chunk sets

  ghost function Chunks(lists: seq<seq<nat>>): set<Block> {
    set l, i | 0 <= l < |lists| && 0 <= i < |lists[l]| :: Block(lists[l][i], l)
  }

  lemma ChunkMember(lists: seq<seq<nat>>, c: Block) returns (i: nat)
    requires c in Chunks(lists)
    ensures c.level < |lists| && i < |lists[c.level]| && lists[c.level][i] == c.page
  {
    i :| c.level < |lists| && i < |lists[c.level]| && lists[c.level][i] == c.page;
  }

  lemma ListedIsCovered(lists: seq<seq<nat>>, p: nat)
    requires Listed(lists, p)
    ensures Covered(Chunks(lists), p)
  {
    var l :| 0 <= l < |lists| && p in lists[l];
    var i :| 0 <= i < |lists[l]| && lists[l][i] == p;
    assert Block(lists[l][i], l) in Chunks(lists) && Block(p, l).Has(p);
  }

  lemma ChunksPushed(lists: seq<seq<nat>>, l: nat, p: nat)
    requires l < |lists|
    ensures Chunks(lists[l := [p] + lists[l]]) == Chunks(lists) + {Block(p, l)}
  {
    var lists' := lists[l := [p] + lists[l]];
    forall c | c in Chunks(lists)
      ensures c in Chunks(lists')
    {
      var i := ChunkMember(lists, c);
      var j := if c.level == l then i + 1 else i;
      assert lists'[c.level][j] == c.page;
    }
    assert lists'[l][0] == p;
    forall c | c in Chunks(lists')
      ensures c in Chunks(lists) + {Block(p, l)}
    {
      var i := ChunkMember(lists', c);
      if c.level == l && i > 0 {
        assert lists[l][i - 1] == c.page;
      }
    }
  }

  lemma ChunksUnlinked(lists: seq<seq<nat>>, l: nat, i: nat)
    requires l < |lists| && i < |lists[l]| && Separate(lists)
    ensures Chunks(lists[l := Without(lists[l], i)]) == Chunks(lists) - {Block(lists[l][i], l)}
  {
    var lists' := lists[l := Without(lists[l], i)];
    forall c | c in Chunks(lists')
      ensures c in Chunks(lists) && c != Block(lists[l][i], l)
    {
      var j := ChunkMember(lists', c);
      var k := if c.level == l && j >= i then j + 1 else j;
      assert lists[c.level][k] == c.page;
    }
    forall c | c in Chunks(lists) && c != Block(lists[l][i], l)
      ensures c in Chunks(lists')
    {
      var j := ChunkMember(lists, c);
      var k := if c.level == l && j > i then j - 1 else j;
      assert lists'[c.level][k] == c.page;
    }
  }

  // ------------------------------------------------------------ the invariant

  /** A bit is clear exactly if its page is free; page `n` itself lies under the guard word. */
  ghost predicate BitmapOk(words: seq<bv64>, n: nat, chunks: set<Block>) {
    && n / WORD < |words|
    && forall p: nat :: p <= n ==> (Marked(words, p) <==> !Covered(chunks, p))
  }

  ghost predicate Inside(chunks: set<Block>, base: nat, n: nat) {
    forall p :: Covered(chunks, p) ==> base <= p < n
  }

  ghost predicate LiveHas(live: map<nat, nat>, x: int) {
    exists p :: p in live && Block(p, live[p]).Has(x)
  }

  /** Live allocations are aligned, disjoint from each other and from the free chunks, and
      together with the free chunks make up all the pages. */
  ghost predicate LiveOk(live: map<nat, nat>, chunks: set<Block>, base: nat, n: nat) {
    && (forall p :: p in live ==>
          && Block(p, live[p]).Aligned() && base <= p && p + Pow2(live[p]) <= n
          && Apart(chunks, Block(p, live[p])))
    && (forall p, q, x :: p in live && q in live && Block(p, live[p]).Has(x) && Block(q, live[q]).Has(x) ==> p == q)
    && (forall x :: base <= x < n ==> Covered(chunks, x) || LiveHas(live, x))
  }

  /** Taking a free block makes it a live allocation. */
  lemma LiveAlloc(live: map<nat, nat>, chunks: set<Block>, chunks': set<Block>, base: nat, n: nat, b: Block)
    requires LiveOk(live, chunks, base, n) && Inside(chunks, base, n)
    requires b.Aligned() && AllFree(chunks, b)
    requires forall x :: Covered(chunks', x) <==> Covered(chunks, x) && !b.Has(x)
    ensures b.page !in live
    ensures LiveOk(live[b.page := b.level], chunks', base, n)
  {
    assert b.Has(b.page) && b.Has(b.page + b.Size() - 1);
    var live' := live[b.page := b.level];
    assert Block(b.page, live'[b.page]) == b;
    if b.page in live {
      assert Block(b.page, live[b.page]).Has(b.page);
      assert false;
    }
    forall x | base <= x < n
      ensures Covered(chunks', x) || LiveHas(live', x)
    {
      if !b.Has(x) && !Covered(chunks, x) {
        var p :| p in live && Block(p, live[p]).Has(x);
        assert p in live' && live'[p] == live[p];
      }
    }
  }

  /** Giving a live allocation back makes its pages free again. */
  lemma LiveFree(live: map<nat, nat>, chunks: set<Block>, chunks': set<Block>, base: nat, n: nat, p: nat)
    requires LiveOk(live, chunks, base, n) && p in live
    requires forall x :: Covered(chunks', x) <==> Covered(chunks, x) || Block(p, live[p]).Has(x)
    ensures LiveOk(live - {p}, chunks', base, n)
  {
    var live' := live - {p};
    forall q | q in live'
      ensures Apart(chunks', Block(q, live'[q]))
    {
      assert q in live && q != p;
    }
    forall x | base <= x < n
      ensures Covered(chunks', x) || LiveHas(live', x)
    {
      if !Covered(chunks, x) {
        var q :| q in live && Block(q, live[q]).Has(x);
        assert q == p || q in live';
      }
    }
  }

  lemma LevelBound(n: nat, b: Block)
    requires n < Pow2(LEVELS) && b.page + b.Size() <= n
    ensures b.level < LEVELS
  {
    if b.level >= LEVELS {
      Pow2Monotone(LEVELS, b.level);
    }
  }

  // ----------------------------------------------------------- initialisation

  /** Pages taken by the bitmap: `(max + 1) >> 15` bytes for a page-aligned `max`, rounded up. */
  function BitmapPages(maxPage: nat): nat {
    (maxPage / 8 + 4095) / 4096
  }

  function BitmapWords(maxPage: nat): nat {
    BitmapPages(maxPage) * 512
  }

  /** The bitmap as sized reaches every page up to and including `maxPage`, which map_alloc,
      map_free and free_pages may touch, exactly if `maxPage` is at least 8 past a multiple of
      32768; one guard word more always does. */
  lemma BitmapReach(maxPage: nat)
    ensures maxPage / WORD < BitmapWords(maxPage) <==> maxPage % 32768 >= 8
    ensures maxPage / WORD < BitmapWords(maxPage) + 1
  {
    var k, r := maxPage / 32768, maxPage % 32768;
    assert maxPage / 8 == 4096 * k + r / 8;
    assert maxPage / 64 == 512 * k + r / 64;
    if r < 8 {
      assert BitmapPages(maxPage) == k;
    } else {
      assert BitmapPages(maxPage) == k + 1;
    }
  }

  lemma BitmapStart(ones: seq<bv64>, words: seq<bv64>, base: nat, n: nat, chunks: set<Block>)
    requires n / WORD < |ones| && forall j :: 0 <= j < |ones| ==> ones[j] == !0
    requires RangeSet(ones, words, base, n, false)
    requires forall x :: Covered(chunks, x) <==> base <= x < n
    ensures BitmapOk(words, n, chunks)
  {
    forall p: nat | p <= n
      ensures Marked(words, p) <==> !Covered(chunks, p)
    {
      FullBit(Off(p));
      RangeSetPage(ones, words, base, n, false, p);
    }
  }

  /** The inner search of init_page_allocator: the largest level for a chunk at `m`. */
  method ChunkLevel(m: nat, range: nat) returns (i: nat)
    requires range > 0
    ensures Pow2(i) <= range && Block(m, i).Aligned()
    ensures Pow2(i + 1) > range || Block(m, i).IsUpper()
  {
    i := 0;
    while Pow2(i + 1) <= range && (m / Pow2(i)) % 2 == 0
      invariant Pow2(i) <= range && Block(m, i).Aligned()
      decreases range - Pow2(i)
    {
      BuddyAligned(Block(m, i));
      i := i + 1;
    }
  }

  /** No aligned block that starts in the range and contains `m` inside it fits into the range. */
  ghost predicate NothingStraddles(base: nat, m: nat, n: nat) {
    forall b: Block :: b.Aligned() && base <= b.page < m < b.page + b.Size() ==> b.page + b.Size() > n
  }

  lemma GreedyStep(base: nat, m: nat, n: nat, i: nat)
    requires NothingStraddles(base, m, n) && m + Pow2(i) <= n && Block(m, i).Aligned()
    requires Pow2(i + 1) > n - m || Block(m, i).IsUpper()
    ensures NothingStraddles(base, m + Pow2(i), n)
  {
    var c, m' := Block(m, i), m + Pow2(i);
    forall b: Block | b.Aligned() && base <= b.page < m' < b.page + b.Size()
      ensures b.page + b.Size() > n
    {
      if b.page == m {
        SameHead(b, c);
      } else if b.page > m {
        if b.level <= i {
          Nested(b, c, b.page);
        } else {
          Nested(c, b, b.page);
        }
        assert false;
      }
    }
  }

  /** A larger aligned block at the same page: the smaller one is a lower half. */
  lemma SameHead(b: Block, c: Block)
    requires b.Aligned() && c.Aligned() && b.page == c.page && b.Size() > c.Size()
    ensures b.Size() >= Pow2(c.level + 1) && !c.IsUpper()
  {
    if b.level <= c.level {
      Pow2Monotone(b.level, c.level);
      assert false;
    }
    Pow2Monotone(c.level + 1, b.level);
    HeadAligned(b, c.level + 1);
    if c.IsUpper() {
      BuddyAligned(c);
      var s := c.Size();
      assert UpperHasRoom(c);
      ModDistinct(c.page - s, c.page, 2 * s);
      assert false;
    }
  }

  lemma GreedyBuddy(chunks: set<Block>, base: nat, m: nat, n: nat, i: nat)
    requires Canonical(chunks) && NothingStraddles(base, m, n)
    requires forall x :: Covered(chunks, x) <==> base <= x < m
    requires m + Pow2(i) <= n && Block(m, i).Aligned()
    ensures Apart(chunks, Block(m, i)) && Block(m, i).Buddy() !in chunks
  {
    var c := Block(m, i);
    BuddyFacts(c);
    var q := c.Buddy();
    if q in chunks {
      assert q.Has(q.page) && Covered(chunks, q.page);
      assert false;
    }
  }

  // ------------------------------------------------------------------ the code

  class Allocator {
    const base: nat            // first page under management
    const n: nat               // one past the last
    const words: array<bv64>
    var mem: Memory
    ghost var lists: seq<seq<nat>>
    ghost var live: map<nat, nat>

    ghost function Free(): set<Block>
      reads this
    {
      Chunks(lists)
    }

    ghost predicate ListsValid()
      reads this
    {
      && n < Pow2(LEVELS)
      && AllOk(mem, n, lists) && Separate(lists)
      && Canonical(Free()) && Inside(Free(), base, n)
    }

    ghost predicate Valid()
      reads this, words
    {
      && ListsValid()
      && BitmapOk(words[..], n, Free())
      && LiveOk(live, Free(), base, n)
    }

    /** init_page_allocator with page-aligned bounds; `junk` is what the memory held before. */
    constructor (minPage: nat, maxPage: nat, junk: Memory)
      requires minPage + BitmapPages(maxPage) <= maxPage < Pow2(LEVELS)
      requires Shaped(junk, maxPage)
      ensures Valid() && fresh(words) && live == map[]
      ensures base == minPage + BitmapPages(maxPage) && n == maxPage
      ensures forall x :: Covered(Free(), x) <==> base <= x < n
    {
      hide Pow2;
      base := minPage + BitmapPages(maxPage);
      n := maxPage;
      words := new bv64[BitmapWords(maxPage) + 1](_ => !0);
      mem := junk.(head := seq(LEVELS, (l: nat) => ToTail(l)), tailPprev := seq(LEVELS, (l: nat) => HeadSlot(l)));
      lists := seq(LEVELS, _ => []);
      live := map[];
      new;
      BitmapReach(n);
      assert AllOk(mem, n, lists);
      hide AllOk, Canonical, Separate, Covered, Inside, BitmapOk, BitmapPages, RangeSet;
      ghost var ones := words[..];
      Bitmap.MapFree(words, base, n - base);
      FillLists();
      BitmapStart(ones, words[..], base, n, Free());
    }

    /** The loop of init_page_allocator: cut the range into chunks from the left, each as large as
        its alignment and the remaining range allow. */
    method FillLists()
      requires n < Pow2(LEVELS) && base <= n
      requires AllOk(mem, n, lists) && forall l :: 0 <= l < |lists| ==> lists[l] == []
      modifies this`mem, this`lists
      ensures ListsValid()
      ensures forall x :: Covered(Free(), x) <==> base <= x < n
    {
      hide Pow2;
      var m := base;
      assert Free() == {};
      assert ListsValid() && NothingStraddles(base, m, n) && forall x :: !Covered(Free(), x);
      hide AllOk, Canonical, Separate, Covered, Chunks, Inside, NothingStraddles, Pow2;
      while m != n
        invariant base <= m <= n && ListsValid()
        invariant forall x :: Covered(Free(), x) <==> base <= x < m
        invariant NothingStraddles(base, m, n)
        decreases n - m
      {
        var i := ChunkLevel(m, n - m);
        LevelBound(n, Block(m, i));
        GreedyBuddy(Free(), base, m, n, i);
        GreedyStep(base, m, n, i);
        Push(i, m);
        m := m + Pow2(i);
      }
    }

    /** The owner of page `p`, which is not free, overwrites the header fields in it. */
    method OwnerWrites(p: nat, level: int, next: Link, pprev: Slot)
      requires Valid() && p < n && !Covered(Free(), p)
      modifies this`mem
      ensures Valid() && Free() == old(Free()) && live == old(live)
    {
      ghost var before := mem;
      mem := mem.(level := mem.level[p := level], next := mem.next[p := next], pprev := mem.pprev[p := pprev]);
      if Listed(lists, p) {
        ListedIsCovered(lists, p);
        assert false;
      }
      OwnersMayScribble(before, mem, n, lists);
    }

    /** Link a chunk in at the front of its list. */
    method Push(l: nat, p: nat)
      requires ListsValid() && l < LEVELS && base <= p && p + Pow2(l) <= n
      requires Block(p, l).Aligned() && Apart(Free(), Block(p, l)) && Block(p, l).Buddy() !in Free()
      modifies this`mem, this`lists
      ensures ListsValid() && Free() == old(Free()) + {Block(p, l)}
      ensures forall x :: Covered(Free(), x) <==> old(Covered(Free(), x)) || Block(p, l).Has(x)
    {
      assert Block(p, l).Has(p);
      if Listed(lists, p) {
        ListedIsCovered(lists, p);
        assert false;
      }
      PushKeeps(mem, n, lists, l, p);
      AddChunk(Free(), Block(p, l));
      ChunksPushed(lists, l, p);
      mem := mem.(level := mem.level[p := l], next := mem.next[p := mem.head[l]], pprev := mem.pprev[p := HeadSlot(l)]);
      mem := SetPprev(mem, n, mem.next[p], NextSlot(p));
      mem := mem.(head := mem.head[l := ToPage(p)]);
      lists := lists[l := [p] + lists[l]];
    }

    /** Take a free chunk off its list. */
    method Unlink(p: nat, ghost l: nat)
      requires ListsValid() && Block(p, l) in Free()
      modifies this`mem, this`lists
      ensures ListsValid() && Free() == old(Free()) - {Block(p, l)}
      ensures forall x :: Covered(Free(), x) <==> old(Covered(Free(), x)) && !Block(p, l).Has(x)
    {
      ghost var i := ChunkMember(lists, Block(p, l));
      UnlinkKeeps(mem, n, lists, l, i);
      RemoveChunk(Free(), Block(p, l));
      ChunksUnlinked(lists, l, i);
      var next, pprev := mem.next[p], mem.pprev[p];
      mem := Store(mem, n, pprev, next);
      mem := SetPprev(mem, n, next, pprev);
      lists := lists[l := Without(lists[l], i)];
    }

    /** The first search of alloc_pages: the smallest level from `order` on with a free chunk. */
    method FindLevel(order: nat) returns (i: nat)
      requires ListsValid() && order <= LEVELS
      ensures order <= i <= LEVELS
      ensures i == LEVELS ==> forall c :: c in Free() ==> c.level < order
      ensures i < LEVELS ==> mem.head[i].ToPage? && Block(mem.head[i].page, i) in Free()
    {
      i := order;
      while i < LEVELS && mem.head[i].ToTail?
        invariant order <= i <= LEVELS
        invariant forall l :: order <= l < i ==> lists[l] == []
        decreases LEVELS - i
      {
        assert ListOk(mem, n, lists[i], i);
        i := i + 1;
      }
      if i < LEVELS {
        assert ListOk(mem, n, lists[i], i);
        assert lists[i][0] == mem.head[i].page;
      } else {
        forall c | c in Free()
          ensures c.level < order
        {
          var k := ChunkMember(lists, c);
        }
      }
    }

    /** The splitting loop of alloc_pages: keep the lower half, give back the upper one. */
    method Split(p: nat, from: nat, order: nat)
      requires ListsValid() && order <= from < LEVELS
      requires Block(p, from).Aligned() && Apart(Free(), Block(p, from))
      requires base <= p && p + Pow2(from) <= n
      modifies this`mem, this`lists
      ensures ListsValid() && Block(p, order).Aligned() && Apart(Free(), Block(p, order))
      ensures p + Pow2(order) <= n
      ensures forall x :: Covered(Free(), x) || Block(p, order).Has(x) <==> old(Covered(Free(), x)) || Block(p, from).Has(x)
    {
      var i := from;
      while i != order
        invariant order <= i <= from && ListsValid()
        invariant Block(p, i).Aligned() && Apart(Free(), Block(p, i)) && p + Pow2(i) <= n
        invariant forall x :: Covered(Free(), x) || Block(p, i).Has(x) <==> old(Covered(Free(), x)) || Block(p, from).Has(x)
        decreases i - order
      {
        ghost var b := Block(p, i);
        Halves(b);
        GiveBackUpper(Free(), b);
        assert b.Lower().Has(p) && !Covered(Free(), p);
        i := i - 1;
        Push(i, p + Pow2(i));
      }
    }

    /** Take the first chunk of level `i` and cut it down to `order`. */
    method Carve(i: nat, order: nat) returns (p: nat)
      requires ListsValid() && order <= i < LEVELS
      requires mem.head[i].ToPage? && Block(mem.head[i].page, i) in Free()
      modifies this`mem, this`lists
      ensures ListsValid() && p + Pow2(order) <= n
      ensures Block(p, order).Aligned() && old(AllFree(Free(), Block(p, order)))
      ensures forall x :: Covered(Free(), x) <==> old(Covered(Free(), x)) && !Block(p, order).Has(x)
    {
      p := mem.head[i].page;
      ghost var c := Block(p, i);
      assert c.Has(p) && c.Has(p + c.Size() - 1);
      assert Covered(Free(), p) && Covered(Free(), p + c.Size() - 1);
      HeadAligned(c, order);
      Unlink(p, i);
      Split(p, i, order);
    }

    /** alloc_pages. */
    method AllocPages(order: nat) returns (r: Option<nat>)
      requires Valid() && order <= LEVELS
      modifies this`mem, this`lists, this`live, words
      ensures Valid()
      ensures r.None? <==> !exists b: Block :: b.level == order && b.Aligned() && old(AllFree(Free(), b))
      ensures r.None? ==> Free() == old(Free()) && live == old(live)
      ensures r.Some? ==>
        && Block(r.value, order).Aligned() && old(AllFree(Free(), Block(r.value, order)))
        && r.value !in old(live) && live == old(live)[r.value := order]
        && forall x :: Covered(Free(), x) <==> old(Covered(Free(), x)) && !Block(r.value, order).Has(x)
    {
      var i := FindLevel(order);
      if i == LEVELS {
        RunIffChunk(Free(), order);
        return None;
      }
      hide AllOk, Canonical, Separate, Chunks, Inside, LiveOk, BitmapOk, RangeSet, Pow2;
      var p := Carve(i, order);
      Bitmap.MapAlloc(words, p, Pow2(order));
      ghost var b := Block(p, order);
      LiveAlloc(live, old(Free()), Free(), base, n, b);
      BitmapAlloc(old(words[..]), words[..], n, old(Free()), Free(), b);
      live := live[p := order];
      r := Some(p);
    }

    /** The block `b` is marked free in the bitmap but not on any list. */
    ghost predicate Pending(b: Block)
      reads this, words
    {
      && ListsValid()
      && b.level < LEVELS && base <= b.page && b.page + b.Size() <= n
      && b.Aligned() && Apart(Free(), b)
      && n / WORD < words.Length
      && forall p: nat :: p <= n ==> (Marked(words[..], p) <==> !(Covered(Free(), p) || b.Has(p)))
    }

    /** One round of the merging loop of free_pages on the block `Block(f, o)`. */
    method TryMerge(f: nat, o: nat) returns (merged: bool, f': nat)
      requires Pending(Block(f, o))
      modifies this`mem, this`lists
      ensures !merged ==> f' == f && Pending(Block(f, o)) && Block(f, o).Buddy() !in Free()
      ensures merged ==> Pending(Block(f', o + 1))
      ensures forall x :: Covered(Free(), x) || Block(f', if merged then o + 1 else o).Has(x)
                <==> old(Covered(Free(), x)) || Block(f, o).Has(x)
    {
      hide Merged;
      var b := Block(f, o);
      BuddyFacts(b);
      var toMerge: nat;
      if b.IsUpper() {
        assert UpperHasRoom(b);
        toMerge := f - Pow2(o);
      } else {
        toMerge := f + Pow2(o);
      }
      merged := false;
      f' := f;
      assert b.Buddy().page == toMerge && !b.Has(toMerge);
      var taken := AllocatedInMap(words, toMerge);
      if taken {
        assert b.Buddy().Has(toMerge);
        return;
      }
      ghost var c := BuddyPageIsHead(Free(), b);
      ghost var k := ChunkMember(lists, c);
      assert ListOk(mem, n, lists[c.level], c.level);
      assert NodeOk(mem, n, lists[c.level], c.level, k);
      if mem.level[toMerge] != o {
        BuddyNotFree(Free(), b, c);
        return;
      }
      TakeBuddy(Free(), b);
      assert c == b.Buddy();
      assert c.Has(c.page) && c.Has(c.page + c.Size() - 1);
      Unlink(toMerge, o);
      merged := true;
      f' := if f < toMerge then f else toMerge;
      assert Block(f', o + 1) == b.Parent();
      LevelBound(n, b.Parent());
    }

    /** The merging loop of free_pages and the final link. */
    method MergeIn(page: nat, order: nat)
      requires Pending(Block(page, order))
      modifies this`mem, this`lists
      ensures ListsValid()
      ensures forall x :: Covered(Free(), x) <==> old(Covered(Free(), x)) || Block(page, order).Has(x)
    {
      var f, o := page, order;
      var merged := true;
      while merged
        invariant Pending(Block(f, o))
        invariant forall x :: Covered(Free(), x) || Block(f, o).Has(x) <==> old(Covered(Free(), x)) || Block(page, order).Has(x)
        invariant !merged ==> Block(f, o).Buddy() !in Free()
        decreases LEVELS - o, merged
      {
        merged, f := TryMerge(f, o);
        if merged {
          o := o + 1;
        }
      }
      Push(o, f);
    }

    /** free_pages, for a block that alloc_pages returned and that was not given back since. */
    method FreePages(page: nat, order: nat)
      requires Valid() && page in live && live[page] == order
      modifies this`mem, this`lists, this`live, words
      ensures Valid() && live == old(live) - {page}
      ensures forall x :: Covered(Free(), x) <==> old(Covered(Free(), x)) || Block(page, order).Has(x)
    {
      ghost var b := Block(page, order);
      LevelBound(n, b);
      Bitmap.MapFree(words, page, Pow2(order));
      forall p: nat | p <= n
        ensures Marked(words[..], p) <==> !(Covered(Free(), p) || b.Has(p))
      {
        BitmapFree(old(words[..]), words[..], n, Free(), b, p);
      }
      MergeIn(page, order);
      LiveFree(live, old(Free()), Free(), base, n, page);
      live := live - {page};
    }
  }

  lemma BuddyNotFree(chunks: set<Block>, b: Block, c: Block)
    requires Partition(chunks) && b.Aligned() && c in chunks
    requires c.page == b.Buddy().page && c.level != b.level
    ensures b.Buddy() !in chunks
  {
    assert c.Has(c.page) && b.Buddy().Has(c.page);
  }

  lemma BitmapAlloc(was: seq<bv64>, now: seq<bv64>, n: nat, chunks: set<Block>, chunks': set<Block>, b: Block)
    requires BitmapOk(was, n, chunks) && RangeSet(was, now, b.page, b.page + b.Size(), true)
    requires forall x :: Covered(chunks', x) <==> Covered(chunks, x) && !b.Has(x)
    ensures BitmapOk(now, n, chunks')
  {
    forall p: nat | p <= n
      ensures Marked(now, p) <==> !Covered(chunks', p)
    {
      RangeSetPage(was, now, b.page, b.page + b.Size(), true, p);
    }
  }

  lemma BitmapFree(was: seq<bv64>, now: seq<bv64>, n: nat, chunks: set<Block>, b: Block, p: nat)
    requires BitmapOk(was, n, chunks) && RangeSet(was, now, b.page, b.page + b.Size(), false) && p <= n
    ensures Marked(now, p) <==> !(Covered(chunks, p) || b.Has(p))
  {
    RangeSetPage(was, now, b.page, b.page + b.Size(), false, p);
  }

  // ------------------------------------------------------------- consequences

  /** Once everything is given back, the free chunks are those the allocator started with. */
  lemma AllFreedIsInitial(initial: set<Block>, chunks: set<Block>, base: nat, n: nat)
    requires Canonical(initial) && forall x :: Covered(initial, x) <==> base <= x < n
    requires Canonical(chunks) && Inside(chunks, base, n) && LiveOk(map[], chunks, base, n)
    ensures chunks == initial
  {
    CanonicalUnique(chunks, initial);
  }

  /** Giving back what was just taken restores the very same free chunks, whatever was split. */
  method AllocThenFree(a: Allocator, order: nat)
    requires a.Valid() && order <= LEVELS
    modifies a`mem, a`lists, a`live, a.words
    ensures a.Valid() && a.Free() == old(a.Free()) && a.live == old(a.live)
  {
    ghost var before := a.Free();
    var r := a.AllocPages(order);
    if r.Some? {
      a.FreePages(r.value, order);
      CanonicalUnique(before, a.Free());
    }
  }
}
