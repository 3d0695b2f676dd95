/** The theory of the binary buddy system in extras/mini-os/mm.c, in page numbers: aligned blocks,
their buddies, and sets of free chunks in which no two buddies are both free. */
module Buddy {
  import opened PowersOfTwo

  /** `2^level` pages starting at `page`. */
  datatype Block = Block(page: nat, level: nat)
  {
    function Size(): (r: nat)
      ensures r >= 1
    {
      Pow2(level)
    }

    predicate Aligned() {
      page % Size() == 0
    }

    predicate Has(p: int) {
      page <= p < page + Size()
    }

    /** The test `freed_ch & mask` of free_pages. */
    predicate IsUpper() {
      (page / Size()) % 2 == 1
    }

    function Buddy(): Block
      requires Aligned()
    {
      if IsUpper() then assert UpperHasRoom(this); Block(page - Size(), level)
      else Block(page + Size(), level)
    }

    function Parent(): Block
      requires Aligned()
    {
      Block(if IsUpper() then Buddy().page else page, level + 1)
    }

    function Lower(): Block
      requires level > 0
    {
      Block(page, level - 1)
    }

    function Upper(): Block
      requires level > 0
    {
      Block(page + Pow2(level - 1), level - 1)
    }

    predicate Within(b: Block) {
      b.page <= page && page + Size() <= b.page + b.Size()
    }
  }

  predicate UpperHasRoom(b: Block)
    requires b.Aligned() && b.IsUpper()
    ensures UpperHasRoom(b)
  {
    MultipleBounds(b.Size(), b.page / b.Size());
    b.page >= b.Size()
  }

  lemma NestedMultiples(s: nat, k: nat, x: nat, y: nat, p: int)
    requires s > 0 && k > 0
    requires s * x <= p < s * x + s
    requires (s * k) * y <= p < (s * k) * y + s * k
    ensures (s * k) * y <= s * x && s * x + s <= (s * k) * y + s * k
  {
    assert (s * k) * y == s * (k * y);
    assert s * (k * y) + s * k == s * (k * y + k);
    Squeeze(s, x, k * y, p);
    SqueezeUp(s, x, k * y + k, p);
  }

  lemma NestedPages(page: nat, s: nat, outer: nat, k: nat, p: int)
    requires s > 0 && k > 0 && s * k > 0 && page % s == 0 && outer % (s * k) == 0
    requires page <= p < page + s && outer <= p < outer + s * k
    ensures outer <= page && page + s <= outer + s * k
  {
    var x, y := page / s, outer / (s * k);
    assert page == s * x && outer == (s * k) * y;
    NestedMultiples(s, k, x, y, p);
  }

  /** Aligned blocks nest: the smaller of two that share a page lies within the larger. */
  lemma Nested(a: Block, b: Block, p: nat)
    requires a.Aligned() && b.Aligned() && a.level <= b.level
    requires a.Has(p) && b.Has(p)
    ensures a.Within(b)
    ensures a.level == b.level ==> a == b
  {
    Pow2Split(a.level, b.level - a.level);
    NestedPages(a.page, a.Size(), b.page, Pow2(b.level - a.level), p);
  }

  lemma Squeeze(s: nat, x: int, u: int, p: int)
    requires s > 0 && s * u <= p < s * x + s
    ensures s * u <= s * x
  {
    assert s * (u - x) == s * u - s * x;
    MultipleBounds(s, u - x);
  }

  lemma SqueezeUp(s: nat, x: int, u: int, p: int)
    requires s > 0 && s * x <= p < s * u
    ensures s * x + s <= s * u
  {
    assert s * (u - x) == s * u - s * x;
    MultipleBounds(s, u - x);
  }

  lemma Multiple(s: nat, x: nat)
    requires s > 0
    ensures (s * x) % s == 0 && (s * x) / s == x
  {
    DivModUnique(s * x, s, x, 0);
  }

  lemma EvenMultiple(s: nat, x: nat)
    requires s > 0 && x % 2 == 0
    ensures (s * x) % (2 * s) == 0
  {
    assert s * x == (2 * s) * (x / 2) by {
      assert x == 2 * (x / 2);
      assert s * (2 * (x / 2)) == (2 * s) * (x / 2);
    }
    Multiple(2 * s, x / 2);
  }

  lemma UpperPage(page: nat, s: nat)
    requires s > 0 && page % s == 0 && (page / s) % 2 == 1
    ensures page >= s && (page - s) % s == 0 && (page - s) % (2 * s) == 0 && ((page - s) / s) % 2 == 0
  {
    var x := page / s;
    assert page == s * x && page - s == s * (x - 1);
    Multiple(s, x - 1);
    EvenMultiple(s, x - 1);
  }

  lemma LowerPage(page: nat, s: nat)
    requires s > 0 && page % s == 0 && (page / s) % 2 == 0
    ensures (page + s) % s == 0 && page % (2 * s) == 0 && ((page + s) / s) % 2 == 1
  {
    var x := page / s;
    assert page == s * x && page + s == s * (x + 1);
    Multiple(s, x + 1);
    EvenMultiple(s, x);
  }

  lemma BuddyAligned(b: Block)
    requires b.Aligned()
    ensures b.Buddy().Aligned() && b.Parent().Aligned()
    ensures b.Buddy().IsUpper() == !b.IsUpper()
  {
    if b.IsUpper() {
      UpperPage(b.page, b.Size());
    } else {
      LowerPage(b.page, b.Size());
    }
  }

  /** A block and its buddy are the two halves of an aligned parent, and buddies are mutual. */
  lemma BuddyFacts(b: Block)
    requires b.Aligned()
    ensures b.Buddy().Aligned() && b.Buddy().Buddy() == b && b.Buddy() != b
    ensures b.Parent().Aligned()
    ensures forall p :: b.Parent().Has(p) <==> b.Has(p) || b.Buddy().Has(p)
    ensures forall p :: !(b.Has(p) && b.Buddy().Has(p))
  {
    BuddyAligned(b);
  }

  lemma HalfMultiples(page: nat, s: nat)
    requires s > 0 && page % (2 * s) == 0
    ensures page % s == 0 && page / s % 2 == 0 && (page + s) % s == 0 && (page + s) / s % 2 == 1
  {
    var y := page / (2 * s);
    assert page == (2 * s) * y;
    assert page == s * (2 * y) by { assert (2 * s) * y == s * (2 * y); }
    DivModUnique(page, s, 2 * y, 0);
    assert page + s == s * (2 * y + 1);
    DivModUnique(page + s, s, 2 * y + 1, 0);
  }

  /** The halves of an aligned block are aligned and each other's buddies. */
  lemma Halves(b: Block)
    requires b.Aligned() && b.level > 0
    ensures b.Lower().Aligned() && b.Upper().Aligned()
    ensures b.Lower().Buddy() == b.Upper() && b.Upper().Buddy() == b.Lower()
    ensures forall p :: b.Has(p) <==> b.Lower().Has(p) || b.Upper().Has(p)
    ensures forall p :: !(b.Lower().Has(p) && b.Upper().Has(p))
  {
    HalfMultiples(b.page, Pow2(b.level - 1));
  }

  // ------------------------------------------------------------- chunk sets

  ghost predicate Covered(chunks: set<Block>, p: int) {
    exists c :: c in chunks && c.Has(p)
  }

  /** Free chunks are aligned and pairwise disjoint. */
  ghost predicate Partition(chunks: set<Block>) {
    && (forall c :: c in chunks ==> c.Aligned())
    && (forall c, d, p :: c in chunks && d in chunks && c.Has(p) && d.Has(p) ==> c == d)
  }

  /** No two buddies are both free. */
  ghost predicate Merged(chunks: set<Block>) {
    forall c :: c in chunks && c.Aligned() ==> c.Buddy() !in chunks
  }

  ghost predicate Canonical(chunks: set<Block>) {
    Partition(chunks) && Merged(chunks)
  }

  ghost predicate AllFree(chunks: set<Block>, b: Block) {
    forall p :: b.Has(p) ==> Covered(chunks, p)
  }

  ghost predicate Apart(chunks: set<Block>, b: Block) {
    forall p :: b.Has(p) ==> !Covered(chunks, p)
  }

  /** An aligned run of free pages always lies within a single free chunk. */
  lemma {:induction false} RunWithinChunk(chunks: set<Block>, b: Block) returns (c: Block)
    requires Canonical(chunks) && b.Aligned() && AllFree(chunks, b)
    ensures c in chunks && b.Within(c) && b.level <= c.level
    decreases b.level
  {
    assert b.Has(b.page) && Covered(chunks, b.page);
    if b.level == 0 {
      c :| c in chunks && c.Has(b.page);
    } else {
      Halves(b);
      var lower := RunWithinChunk(chunks, b.Lower());
      var upper := RunWithinChunk(chunks, b.Upper());
      if lower.level >= b.level {
        c := lower;
        Nested(b, c, b.page);
      } else if upper.level >= b.level {
        c := upper;
        Nested(b, c, b.Upper().page);
      } else {
        Nested(b.Lower(), lower, b.Lower().page);
        Nested(b.Upper(), upper, b.Upper().page);
        assert false;
      }
    }
  }

  /** The set of free chunks is a function of the set of free pages alone. */
  lemma CanonicalUnique(s: set<Block>, t: set<Block>)
    requires Canonical(s) && Canonical(t)
    requires forall p :: Covered(s, p) <==> Covered(t, p)
    ensures s == t
  {
    forall c | c in s
      ensures c in t
    {
      CanonicalIncluded(s, t, c);
    }
    forall c | c in t
      ensures c in s
    {
      CanonicalIncluded(t, s, c);
    }
  }

  lemma CanonicalIncluded(s: set<Block>, t: set<Block>, c: Block)
    requires Canonical(s) && Canonical(t) && c in s
    requires forall p :: Covered(s, p) <==> Covered(t, p)
    ensures c in t
  {
    assert AllFree(s, c);
    var d := RunWithinChunk(t, c);
    assert AllFree(t, d);
    var e := RunWithinChunk(s, d);
    assert c.Has(c.page) && e.Has(c.page);
    Nested(c, d, c.page);
  }

  /** There is an aligned run of `2^order` free pages exactly if some chunk is that large. */
  lemma RunIffChunk(chunks: set<Block>, order: nat)
    requires Canonical(chunks)
    ensures (exists b: Block :: b.level == order && b.Aligned() && AllFree(chunks, b))
       <==> (exists c :: c in chunks && c.level >= order)
  {
    forall b: Block | b.level == order && b.Aligned() && AllFree(chunks, b)
      ensures exists c :: c in chunks && c.level >= order
    {
      var c := RunWithinChunk(chunks, b);
    }
    forall c | c in chunks && c.level >= order
      ensures exists b: Block :: b.level == order && b.Aligned() && AllFree(chunks, b)
    {
      var b := Block(c.page, order);
      HeadAligned(c, order);
      assert AllFree(chunks, b);
    }
  }

  lemma HeadAligned(c: Block, order: nat)
    requires c.Aligned() && order <= c.level
    ensures Block(c.page, order).Aligned() && Pow2(order) <= c.Size()
  {
    Pow2Split(order, c.level - order);
    Pow2Monotone(order, c.level);
    MultipleDown(c.page, Pow2(order), Pow2(c.level - order));
  }

  lemma MultipleDown(page: nat, s: nat, k: nat)
    requires s > 0 && k > 0 && s * k > 0 && page % (s * k) == 0
    ensures page % s == 0
  {
    var y := page / (s * k);
    assert (s * k) * y == s * (k * y);
    Multiple(s, k * y);
  }

  // ------------------------------------------------------ changing chunk sets

  lemma RemoveChunk(chunks: set<Block>, c: Block)
    requires Canonical(chunks) && c in chunks
    ensures Canonical(chunks - {c})
    ensures forall p :: Covered(chunks - {c}, p) <==> Covered(chunks, p) && !c.Has(p)
  {
  }

  lemma AddChunk(chunks: set<Block>, b: Block)
    requires Canonical(chunks) && b.Aligned() && Apart(chunks, b) && b.Buddy() !in chunks
    ensures Canonical(chunks + {b})
    ensures forall p :: Covered(chunks + {b}, p) <==> Covered(chunks, p) || b.Has(p)
  {
    BuddyFacts(b);
    forall c | c in chunks + {b}
      ensures c.Aligned() && c.Buddy() !in chunks + {b}
    {
      BuddyFacts(c);
    }
  }

  /** The page that free_pages inspects, when free, is the head of a free chunk no larger than the
      block being freed: the level read there is the level of a live free chunk. */
  lemma BuddyPageIsHead(chunks: set<Block>, b: Block) returns (c: Block)
    requires Partition(chunks) && b.Aligned() && Apart(chunks, b)
    requires Covered(chunks, b.Buddy().page)
    ensures c in chunks && c.page == b.Buddy().page && c.level <= b.level
  {
    BuddyFacts(b);
    var q := b.Buddy();
    c :| c in chunks && c.Has(q.page);
    if c.level > b.level {
      // then c contains the parent, hence b itself
      assert b.Parent().Has(q.page);
      Nested(b.Parent(), c, q.page);
      assert c.Has(b.page) && b.Has(b.page);
      assert Covered(chunks, b.page);
      assert false;
    }
    Nested(c, q, q.page);
    assert c.page == q.page;
  }

  /** alloc_pages halves the block it holds and gives the upper half back. */
  lemma GiveBackUpper(chunks: set<Block>, b: Block)
    requires Canonical(chunks) && b.Aligned() && b.level > 0 && Apart(chunks, b)
    ensures b.Lower().Aligned()
    ensures Canonical(chunks + {b.Upper()}) && Apart(chunks + {b.Upper()}, b.Lower())
    ensures forall p :: Covered(chunks + {b.Upper()}, p) <==> Covered(chunks, p) || b.Upper().Has(p)
  {
    Halves(b);
    assert b.Has(b.page) && !Covered(chunks, b.page);
    AddChunk(chunks, b.Upper());
  }

  /** free_pages takes the buddy off its list and goes on with the parent. */
  lemma TakeBuddy(chunks: set<Block>, b: Block)
    requires Canonical(chunks) && b.Aligned() && Apart(chunks, b) && b.Buddy() in chunks
    ensures b.Parent().Aligned()
    ensures var rest := chunks - {b.Buddy()};
            && Canonical(rest) && Apart(rest, b.Parent())
            && forall p :: Covered(rest, p) || b.Parent().Has(p) <==> Covered(chunks, p) || b.Has(p)
  {
    BuddyFacts(b);
    RemoveChunk(chunks, b.Buddy());
  }
}
