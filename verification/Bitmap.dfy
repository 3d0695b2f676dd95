/** The word-packed allocation bitmap of extras/mini-os/mm.c: one bit per page, set when the page
is allocated, in 64-bit words that map_alloc and map_free change by masks. */
module Bitmap {

  const WORD: nat := 64

  /** Bit offset of a page within its word: `page & (PAGES_PER_MAPWORD - 1)`. */
  function Off(page: nat): bv6 {
    Offset(page % WORD)
  }

  function Offset(n: nat): bv6 {
    if n == 0 then 0 else Offset(n - 1) + 1
  }

  predicate Bit(w: bv64, o: bv6) {
    (w >> o) & 1 == 1
  }

  function Bits(w: bv64): bv6 -> bool {
    o => Bit(w, o)
  }

  predicate Marked(words: seq<bv64>, page: nat)
    requires page / WORD < |words|
  {
    Bit(words[page / WORD], Off(page))
  }

  // ------------------------------------------------------- word operations

  /** `Bit` is the test of `allocated_in_map`, a mask with `1UL << o`. */
  lemma BitIsMask(w: bv64, o: bv6)
    ensures Bit(w, o) <==> w & ((1 as bv64) << o) != 0
  {
  }

  /** `allocated_in_map`. */
  method AllocatedInMap(words: array<bv64>, page: nat) returns (r: bool)
    requires page / WORD < words.Length
    ensures r <==> Marked(words[..], page)
  {
    var w, o := words[page / WORD], Off(page);
    BitIsMask(w, o);
    r := w & ((1 as bv64) << o) != 0;
  }

  lemma BelowBit(o: bv6, i: bv6)
    ensures Bit(((1 as bv64) << o) - 1, i) <==> i < o
  {
  }

  lemma FromBit(o: bv6, i: bv6)
    ensures Bit(0 - ((1 as bv64) << o), i) <==> o <= i
  {
  }

  lemma AndBit(x: bv64, y: bv64, i: bv6)
    ensures Bit(x & y, i) <==> Bit(x, i) && Bit(y, i)
  {
  }

  lemma OrBit(x: bv64, y: bv64, i: bv6)
    ensures Bit(x | y, i) <==> Bit(x, i) || Bit(y, i)
  {
  }

  lemma FullBit(i: bv6)
    ensures Bit(!0, i) && !Bit(0, i)
  {
  }

  /** `(1UL << o) - 1` sets all bits below `o`. */
  method MaskBelow(o: bv6) returns (m: bv64)
    ensures forall i: bv6 :: Bits(m)(i) <==> i < o
  {
    m := ((1 as bv64) << o) - 1;
    forall i: bv6
      ensures Bits(m)(i) <==> i < o
    {
      BelowBit(o, i);
    }
  }

  /** `-(1UL << o)` sets all bits from `o` on. */
  method MaskFrom(o: bv6) returns (m: bv64)
    ensures forall i: bv6 :: Bits(m)(i) <==> o <= i
  {
    m := 0 - ((1 as bv64) << o);
    forall i: bv6
      ensures Bits(m)(i) <==> o <= i
    {
      FromBit(o, i);
    }
  }

  method And(x: bv64, y: bv64) returns (m: bv64)
    ensures forall i: bv6 :: Bits(m)(i) <==> Bits(x)(i) && Bits(y)(i)
  {
    m := x & y;
    forall i: bv6
      ensures Bits(m)(i) <==> Bits(x)(i) && Bits(y)(i)
    {
      AndBit(x, y, i);
    }
  }

  method Or(x: bv64, y: bv64) returns (m: bv64)
    ensures forall i: bv6 :: Bits(m)(i) <==> Bits(x)(i) || Bits(y)(i)
  {
    m := x | y;
    forall i: bv6
      ensures Bits(m)(i) <==> Bits(x)(i) || Bits(y)(i)
    {
      OrBit(x, y, i);
    }
  }

  /** `~0UL` and `0`. */
  method Fill(on: bool) returns (m: bv64)
    ensures forall i: bv6 :: Bits(m)(i) <==> on
  {
    m := if on then !0 else 0;
    forall i: bv6
      ensures Bits(m)(i) <==> on
    {
      FullBit(i);
    }
  }

  lemma NextInt(a: bv6)
    requires (a as int) < 63
    ensures (a + 1) as int == (a as int) + 1
  {
  }

  lemma {:induction false} OffsetInt(n: nat)
    requires n < WORD
    ensures Offset(n) as int == n
  {
    if n > 0 {
      OffsetInt(n - 1);
      NextInt(Offset(n - 1));
    }
  }

  lemma LessInt(a: bv6, b: bv6)
    ensures a < b <==> (a as int) < (b as int)
  {
  }

  lemma OffOrder(p: nat, q: nat)
    ensures Off(p) < Off(q) <==> p % WORD < q % WORD
  {
    OffsetInt(p % WORD);
    OffsetInt(q % WORD);
    LessInt(Off(p), Off(q));
  }

  // ------------------------------------------------------------- page ranges

  /** In word `idx`, the pages of `[first, last)` read `on` and all others are as they were. */
  ghost predicate WordSet(was: bv6 -> bool, now: bv6 -> bool, idx: nat, first: nat, last: nat, on: bool) {
    forall p: nat :: p / WORD == idx ==>
      (now(Off(p)) <==> if first <= p < last then on else was(Off(p)))
  }

  /** The whole bitmap: exactly the bits of `[first, last)` change to `on`. */
  ghost predicate RangeSet(was: seq<bv64>, now: seq<bv64>, first: nat, last: nat, on: bool) {
    && |now| == |was|
    && forall j :: 0 <= j < |was| ==> WordSet(Bits(was[j]), Bits(now[j]), j, first, last, on)
  }

  lemma RangeSetPage(was: seq<bv64>, now: seq<bv64>, first: nat, last: nat, on: bool, p: nat)
    requires RangeSet(was, now, first, last, on) && p / WORD < |was|
    ensures Marked(now, p) <==> if first <= p < last then on else Marked(was, p)
  {
    var j := p / WORD;
    assert WordSet(Bits(was[j]), Bits(now[j]), j, first, last, on);
    assert Bits(now[j])(Off(p)) == Marked(now, p) && Bits(was[j])(Off(p)) == Marked(was, p);
  }

  lemma OutsideWord(w: bv6 -> bool, idx: nat, first: nat, last: nat, on: bool)
    requires idx < first / WORD || last / WORD < idx
    ensures WordSet(w, w, idx, first, last, on)
  {
  }

  /** The offsets of word `idx` whose pages are in `[first, last)`. */
  predicate InWord(idx: nat, first: nat, last: nat, i: bv6) {
    (idx == first / WORD ==> Off(first) <= i) && (idx == last / WORD ==> i < Off(last))
  }

  /** Bit facts about one word, stated for offsets, carry over to the pages of that word. */
  lemma WordFromBits(was: bv6 -> bool, now: bv6 -> bool, idx: nat, first: nat, last: nat, on: bool)
    requires first / WORD <= idx <= last / WORD
    requires forall i: bv6 :: now(i) <==> if InWord(idx, first, last, i) then on else was(i)
    ensures WordSet(was, now, idx, first, last, on)
  {
    forall p: nat | p / WORD == idx
      ensures now(Off(p)) <==> if first <= p < last then on else was(Off(p))
    {
      OffOrder(p, first);
      OffOrder(p, last);
    }
  }

  /** Words from `start` to `end` were set, the others left alone. */
  lemma RangeFromWords(was: seq<bv64>, now: seq<bv64>, first: nat, last: nat, on: bool)
    requires |now| == |was|
    requires forall j :: 0 <= j < |was| && first / WORD <= j <= last / WORD ==>
               WordSet(Bits(was[j]), Bits(now[j]), j, first, last, on)
    requires forall j :: 0 <= j < |was| && (j < first / WORD || last / WORD < j) ==> now[j] == was[j]
    ensures RangeSet(was, now, first, last, on)
  {
    forall j | 0 <= j < |was|
      ensures WordSet(Bits(was[j]), Bits(now[j]), j, first, last, on)
    {
      if j < first / WORD || last / WORD < j {
        OutsideWord(Bits(was[j]), j, first, last, on);
      }
    }
  }

  // ------------------------------------------------------------------ the code

  method OrWord(words: array<bv64>, idx: nat, mask: bv64, ghost first: nat, ghost last: nat)
    requires idx < words.Length && first / WORD <= idx <= last / WORD
    requires forall i: bv6 :: Bits(mask)(i) <==> InWord(idx, first, last, i)
    modifies words
    ensures WordSet(Bits(old(words[idx])), Bits(words[idx]), idx, first, last, true)
    ensures forall j :: 0 <= j < words.Length && j != idx ==> words[j] == old(words[j])
  {
    ghost var was := words[idx];
    words[idx] := Or(words[idx], mask);
    WordFromBits(Bits(was), Bits(words[idx]), idx, first, last, true);
  }

  method AndWord(words: array<bv64>, idx: nat, mask: bv64, ghost first: nat, ghost last: nat)
    requires idx < words.Length && first / WORD <= idx <= last / WORD
    requires forall i: bv6 :: Bits(mask)(i) <==> !InWord(idx, first, last, i)
    modifies words
    ensures WordSet(Bits(old(words[idx])), Bits(words[idx]), idx, first, last, false)
    ensures forall j :: 0 <= j < words.Length && j != idx ==> words[j] == old(words[j])
  {
    ghost var was := words[idx];
    words[idx] := And(words[idx], mask);
    WordFromBits(Bits(was), Bits(words[idx]), idx, first, last, false);
  }

  method FillWord(words: array<bv64>, idx: nat, on: bool, ghost first: nat, ghost last: nat)
    requires idx < words.Length && first / WORD < idx < last / WORD
    modifies words
    ensures WordSet(Bits(old(words[idx])), Bits(words[idx]), idx, first, last, on)
    ensures forall j :: 0 <= j < words.Length && j != idx ==> words[j] == old(words[j])
  {
    ghost var was := words[idx];
    words[idx] := Fill(on);
    WordFromBits(Bits(was), Bits(words[idx]), idx, first, last, on);
  }

  /** The loop of map_alloc and map_free over the words strictly inside the range. */
  method FillInner(words: array<bv64>, from: nat, end: nat, on: bool, ghost first: nat, ghost last: nat)
    requires first / WORD < from <= end == last / WORD < words.Length
    modifies words
    ensures forall j :: from <= j < end ==> WordSet(Bits(old(words[j])), Bits(words[j]), j, first, last, on)
    ensures forall j :: 0 <= j < words.Length && !(from <= j < end) ==> words[j] == old(words[j])
  {
    var curr := from;
    while curr < end
      invariant from <= curr <= end
      invariant forall j :: from <= j < curr ==> WordSet(Bits(old(words[j])), Bits(words[j]), j, first, last, on)
      invariant forall j :: 0 <= j < words.Length && !(from <= j < curr) ==> words[j] == old(words[j])
    {
      FillWord(words, curr, on, first, last);
      curr := curr + 1;
    }
  }

  /** The mask of map_alloc for a range within one word. */
  method MaskWithin(first: nat, last: nat) returns (m: bv64)
    requires first / WORD == last / WORD
    ensures forall i: bv6 :: Bits(m)(i) <==> InWord(first / WORD, first, last, i)
  {
    var below := MaskBelow(Off(last));
    var from := MaskFrom(Off(first));
    m := And(below, from);
  }

  /** The mask of map_free for a range within one word. */
  method MaskAround(first: nat, last: nat) returns (m: bv64)
    requires first / WORD == last / WORD
    ensures forall i: bv6 :: Bits(m)(i) <==> !InWord(first / WORD, first, last, i)
  {
    var from := MaskFrom(Off(last));
    var below := MaskBelow(Off(first));
    m := Or(from, below);
  }

  method AllocAcross(words: array<bv64>, first: nat, last: nat)
    requires first / WORD < last / WORD < words.Length
    modifies words
    ensures RangeSet(old(words[..]), words[..], first, last, true)
  {
    var from := MaskFrom(Off(first));
    OrWord(words, first / WORD, from, first, last);
    FillInner(words, first / WORD + 1, last / WORD, true, first, last);
    var below := MaskBelow(Off(last));
    OrWord(words, last / WORD, below, first, last);
    RangeFromWords(old(words[..]), words[..], first, last, true);
  }

  method FreeAcross(words: array<bv64>, first: nat, last: nat)
    requires first / WORD < last / WORD < words.Length
    modifies words
    ensures RangeSet(old(words[..]), words[..], first, last, false)
  {
    var below := MaskBelow(Off(first));
    AndWord(words, first / WORD, below, first, last);
    FillInner(words, first / WORD + 1, last / WORD, false, first, last);
    var from := MaskFrom(Off(last));
    AndWord(words, last / WORD, from, first, last);
    RangeFromWords(old(words[..]), words[..], first, last, false);
  }

  /** map_alloc. */
  method MapAlloc(words: array<bv64>, first: nat, nr: nat)
    requires (first + nr) / WORD < words.Length
    modifies words
    ensures RangeSet(old(words[..]), words[..], first, first + nr, true)
  {
    if first / WORD == (first + nr) / WORD {
      var mask := MaskWithin(first, first + nr);
      OrWord(words, first / WORD, mask, first, first + nr);
      RangeFromWords(old(words[..]), words[..], first, first + nr, true);
    } else {
      AllocAcross(words, first, first + nr);
    }
  }

  /** map_free. */
  method MapFree(words: array<bv64>, first: nat, nr: nat)
    requires (first + nr) / WORD < words.Length
    modifies words
    ensures RangeSet(old(words[..]), words[..], first, first + nr, false)
  {
    if first / WORD == (first + nr) / WORD {
      var mask := MaskAround(first, first + nr);
      AndWord(words, first / WORD, mask, first, first + nr);
      RangeFromWords(old(words[..]), words[..], first, first + nr, false);
    } else {
      FreeAcross(words, first, first + nr);
    }
  }
}
