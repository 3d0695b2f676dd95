/** How many boot page tables a domain needs (tools/libxc/xc_dom_x86.c): the tables must map
themselves, so their number and the range they map are found together. */
module PageTableSize {
  import opened PowersOfTwo

  const PAGE: nat := 4096              // PAGE_SIZE_X86
  const STEP: nat := 0x40_0000         // 4MB alignment
  const TOP: nat := 0xc000_0000
  const PAD: nat := 128                // 512kB padding

  /** The address bits below each level's table, 0 for a level that is not used; `word` is the
      width of the builder's own unsigned long. */
  datatype Layout = Layout(pae: bool, l4: nat, l3: nat, l2: nat, l1: nat, word: nat)

  const X86_32 := Layout(false, 0, 0, 32, 22, 64)
  const PAE := Layout(true, 0, 32, 30, 21, 64)

  /** Every level in use covers at least 2MB a table. */
  predicate Coarse(l: Layout) {
    && (l.l4 == 0 || l.l4 >= 21) && (l.l3 == 0 || l.l3 >= 21)
    && (l.l2 == 0 || l.l2 >= 21) && l.l1 >= 21 && l.l1 != l.word
  }

  function RoundDown(a: nat, m: nat): nat
    requires m > 0
  {
    a - a % m
  }

  function RoundUp(a: nat, m: nat): nat
    requires m > 0
  {
    a - a % m + m - 1
  }

  /** nr_page_tables. */
  function NrPageTables(start: nat, end: nat, bits: nat, word: nat): int {
    if bits == 0 then 0
    else if bits == word then 1
    else (RoundUp(end, Pow2(bits)) - RoundDown(start, Pow2(bits))) / Pow2(bits) + 1
  }

  // ------------------------------------------------------------------ meaning

  lemma DivBounds(a: int, m: nat)
    requires m > 0
    ensures m * (a / m) == a - a % m
  {
  }

  lemma NrIsDifference(start: nat, end: nat, bits: nat, word: nat)
    requires bits != 0 && bits != word && start <= end
    ensures NrPageTables(start, end, bits, word) == end / Pow2(bits) - start / Pow2(bits) + 1
  {
    var m := Pow2(bits);
    var e, s := end / m, start / m;
    DivBounds(end, m);
    DivBounds(start, m);
    assert m * (e - s) == m * e - m * s;
    DivModUnique(RoundUp(end, m) - RoundDown(start, m), m, e - s, m - 1);
  }

  lemma DivMonotone(a: int, b: int, m: nat)
    requires a <= b && m > 0
    ensures a / m <= b / m
  {
    DivBounds(a, m);
    DivBounds(b, m);
    assert m * (b / m - a / m) == m * (b / m) - m * (a / m);
    MultipleBounds(m, b / m - a / m);
  }

  /** Some address of the range lies in block `k`. */
  ghost predicate Touches(start: nat, end: nat, m: nat, k: int)
    requires m > 0
  {
    exists a: int :: start <= a <= end && a / m == k
  }

  lemma BlockInside(start: nat, end: nat, m: nat, k: int) returns (a: int)
    requires m > 0 && start <= end && start / m <= k <= end / m
    ensures start <= a <= end && a / m == k
  {
    if k == start / m {
      a := start;
    } else {
      a := m * k;
      DivBounds(start, m);
      DivBounds(end, m);
      MultipleBounds(m, k - start / m);
      MultipleBounds(m, end / m - k);
      assert m * (k - start / m) == m * k - m * (start / m);
      assert m * (end / m - k) == m * (end / m) - m * k;
      DivModUnique(a, m, k, 0);
    }
  }

  /** The tables of a level are exactly the aligned blocks that the range touches: table number `t`
      stands for block `start / m + t`. */
  lemma NrCountsBlocks(start: nat, end: nat, bits: nat, word: nat, t: int)
    requires bits != 0 && bits != word && start <= end
    ensures 0 <= t < NrPageTables(start, end, bits, word) <==> Touches(start, end, Pow2(bits), start / Pow2(bits) + t)
  {
    var m := Pow2(bits);
    NrIsDifference(start, end, bits, word);
    var k := start / m + t;
    if 0 <= t <= end / m - start / m {
      var a := BlockInside(start, end, m, k);
    }
    if Touches(start, end, m, k) {
      var a: int :| start <= a <= end && a / m == k;
      DivMonotone(start, a, m);
      DivMonotone(a, end, m);
    }
  }

  // ----------------------------------------------------------------- fixpoint

  /** All tables for a range that ends at `end`; PAE adds one for the top gigabyte. */
  function Tables(l: Layout, base: nat, end: nat): int {
    NrPageTables(base, end, l.l4, l.word) + NrPageTables(base, end, l.l3, l.word)
    + NrPageTables(base, end, l.l2, l.word) + NrPageTables(base, end, l.l1, l.word)
    + if l.pae && end < TOP then 1 else 0
  }

  lemma Powers()
    ensures Pow2(21) == 0x20_0000 && Pow2(22) == 0x40_0000 && Pow2(30) == 0x4000_0000 && Pow2(32) == 0x1_0000_0000
  {
    assert Pow2(10) == 1024;
    Pow2Split(10, 10);
    Pow2Split(1, 20);
    Pow2Split(2, 20);
    Pow2Split(10, 20);
    Pow2Split(2, 30);
  }

  /** A level grows by at most one table for each 2MB. */
  lemma NrBound(start: nat, end: nat, bits: nat, word: nat)
    requires start <= end && (bits == 0 || bits >= 21)
    ensures NrPageTables(start, end, bits, word) >= 0
    ensures bits != 0 ==> NrPageTables(start, end, bits, word) >= 1
    ensures 0x20_0000 * (NrPageTables(start, end, bits, word) - 2) <= end - start
  {
    if bits != 0 && bits != word {
      var m := Pow2(bits);
      NrIsDifference(start, end, bits, word);
      DivMonotone(start, end, m);
      DivBounds(start, m);
      DivBounds(end, m);
      var d := end / m - start / m;
      assert m * d == m * (end / m) - m * (start / m);
      Powers();
      Pow2Monotone(21, bits);
      if d >= 1 {
        assert m * (d - 1) == m * d - m;
        Scale(0x20_0000, m, d - 1);
      }
    }
  }

  lemma Scale(a: nat, b: nat, k: nat)
    requires a <= b
    ensures a * k <= b * k
  {
  }

  lemma TablesBound(l: Layout, base: nat, end: nat)
    requires Coarse(l) && base <= end
    ensures Tables(l, base, end) >= 1
    ensures 0x8_0000 * (Tables(l, base, end) - 9) <= end - base
  {
    NrBound(base, end, l.l4, l.word);
    NrBound(base, end, l.l3, l.word);
    NrBound(base, end, l.l2, l.word);
    NrBound(base, end, l.l1, l.word);
  }

  lemma NrMonotone(start: nat, e: nat, e': nat, bits: nat, word: nat)
    requires start <= e <= e'
    ensures NrPageTables(start, e, bits, word) <= NrPageTables(start, e', bits, word)
  {
    if bits != 0 && bits != word {
      NrIsDifference(start, e, bits, word);
      NrIsDifference(start, e', bits, word);
      DivMonotone(e, e', Pow2(bits));
    }
  }

  /** The level whose tables cover a gigabyte each makes up for the top table of PAE: when the
      range reaches the top gigabyte, it has gained one. */
  predicate Gigabytes(l: Layout) {
    l.pae ==> l.l2 == 30 && l.word != 30
  }

  lemma TopTable(base: nat, e: nat, e': nat, word: nat)
    requires base <= e < TOP <= e' && word != 30
    ensures NrPageTables(base, e, 30, word) + 1 <= NrPageTables(base, e', 30, word)
  {
    Powers();
    NrIsDifference(base, e, 30, word);
    NrIsDifference(base, e', 30, word);
  }

  lemma TablesMonotone(l: Layout, base: nat, e: nat, e': nat)
    requires Gigabytes(l) && base <= e <= e'
    ensures Tables(l, base, e) <= Tables(l, base, e')
  {
    NrMonotone(base, e, e', l.l4, l.word);
    NrMonotone(base, e, e', l.l3, l.word);
    NrMonotone(base, e, e', l.l2, l.word);
    NrMonotone(base, e, e', l.l1, l.word);
    if l.pae && e < TOP <= e' {
      TopTable(base, e, e', l.word);
    }
  }

  /** An end of the 4MB grid behind which everything fits with a byte to spare. */
  predicate Roomy(l: Layout, base: nat, allocEnd: nat, extra: nat, end: nat) {
    base <= end && (end + 1) % STEP == 0 && allocEnd + (Tables(l, base, end) + extra) * PAGE <= end
  }

  /** What the loop has not passed yet. */
  ghost predicate Below(l: Layout, base: nat, allocEnd: nat, extra: nat, pages: int) {
    forall end: nat :: Roomy(l, base, allocEnd, extra, end) ==> allocEnd + pages * PAGE <= end
  }

  lemma RoundUpLeast(x: nat, end: nat)
    requires x <= end && (end + 1) % STEP == 0
    ensures RoundUp(x, STEP) <= end
  {
  }

  lemma BelowStep(l: Layout, base: nat, allocEnd: nat, extra: nat, pages: nat, tryEnd: nat)
    requires Gigabytes(l) && base <= allocEnd && Below(l, base, allocEnd, extra, pages)
    requires tryEnd == RoundUp(allocEnd + pages * PAGE, STEP)
    ensures Below(l, base, allocEnd, extra, Tables(l, base, tryEnd) + extra)
    ensures forall end: nat :: Roomy(l, base, allocEnd, extra, end) ==> tryEnd <= end
  {
    forall end: nat | Roomy(l, base, allocEnd, extra, end)
      ensures tryEnd <= end && allocEnd + (Tables(l, base, tryEnd) + extra) * PAGE <= end
    {
      RoundUpLeast(allocEnd + pages * PAGE, end);
      TablesMonotone(l, base, tryEnd, end);
    }
  }

  /** More pages than the loop can ever ask for. */
  function Limit(base: nat, allocEnd: nat, extra: nat): int {
    2 * (extra + 18 + (allocEnd - base) / 0x8_0000)
  }

  lemma LimitHolds(base: nat, allocEnd: nat, extra: nat, pages: nat, tryEnd: nat, tables: nat)
    requires base <= allocEnd && pages <= Limit(base, allocEnd, extra)
    requires tryEnd == RoundUp(allocEnd + pages * PAGE, STEP) && 0x8_0000 * (tables - 9) <= tryEnd - base
    ensures tables + extra <= Limit(base, allocEnd, extra)
  {
  }

  function Extra(bootstack: bool, extraPages: nat): nat {
    (if bootstack then 1 else 0) + extraPages + PAD
  }

  /** count_pgtables. The loop ends; the range it finds holds the tables it needs, the boot stack,
      the extra pages and the padding, and no smaller range does so with a byte to spare. */
  method CountPgtables(l: Layout, base: nat, allocEnd: nat, bootstack: bool, extraPages: nat)
    returns (l4: int, l3: int, l2: int, l1: int, pgtables: int, pgtabEnd: nat)
    requires Coarse(l) && Gigabytes(l) && base <= allocEnd
    ensures base < pgtabEnd && pgtabEnd % STEP == 0
    ensures l4 == NrPageTables(base, pgtabEnd - 1, l.l4, l.word)
    ensures l3 == NrPageTables(base, pgtabEnd - 1, l.l3, l.word)
    ensures l2 == NrPageTables(base, pgtabEnd - 1, l.l2, l.word) + if l.pae && pgtabEnd <= TOP then 1 else 0
    ensures l1 == NrPageTables(base, pgtabEnd - 1, l.l1, l.word) >= 1
    ensures pgtables == l4 + l3 + l2 + l1 >= 1
    ensures allocEnd + (pgtables + Extra(bootstack, extraPages)) * PAGE <= pgtabEnd
    ensures forall end: nat :: Roomy(l, base, allocEnd, Extra(bootstack, extraPages), end) ==> pgtabEnd - 1 <= end
  {
    hide NrPageTables, Below, Roomy, Limit;
    var extra := Extra(bootstack, extraPages);
    var pages := extra;
    ghost var limit := Limit(base, allocEnd, extra);
    var tryEnd := 0;
    FirstTry(l, base, allocEnd, extra);
    while true
      invariant 0 <= pages <= limit && Below(l, base, allocEnd, extra, pages)
      decreases limit - pages
    {
      tryEnd := RoundUp(allocEnd + pages * PAGE, STEP);
      TablesBound(l, base, tryEnd);
      NrBound(base, tryEnd, l.l1, l.word);
      BelowStep(l, base, allocEnd, extra, pages, tryEnd);
      l4 := NrPageTables(base, tryEnd, l.l4, l.word);
      l3 := NrPageTables(base, tryEnd, l.l3, l.word);
      l2 := NrPageTables(base, tryEnd, l.l2, l.word);
      l1 := NrPageTables(base, tryEnd, l.l1, l.word);
      if l.pae && tryEnd < TOP {
        l2 := l2 + 1;
      }
      pgtables := l4 + l3 + l2 + l1;
      LimitHolds(base, allocEnd, extra, pages, tryEnd, pgtables);
      pages := pgtables + extra;
      if allocEnd + pages * PAGE <= tryEnd + 1 {
        break;
      }
    }
    pgtabEnd := tryEnd + 1;
  }

  lemma FirstTry(l: Layout, base: nat, allocEnd: nat, extra: nat)
    requires Coarse(l) && base <= allocEnd
    ensures extra <= Limit(base, allocEnd, extra) && Below(l, base, allocEnd, extra, extra)
  {
    forall end: nat | Roomy(l, base, allocEnd, extra, end)
      ensures allocEnd + extra * PAGE <= end
    {
      TablesBound(l, base, end);
    }
  }
}
