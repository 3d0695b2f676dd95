/** Filling the boot page tables of an i386 guest (tools/libxc/xc_dom_x86.c), behind the segment
allocator of tools/libxc/xc_dom_core.c. Virtual addresses are counted in pages. */
module PageTables {
  import opened Sequences
  import opened PowersOfTwo
  import opened PageTableSize

  const ENTRIES: nat := 1024           // L1_PAGETABLE_ENTRIES_I386

  // --------------------------------------------------------------- allocation

  datatype Seg = Seg(vstart: nat, vend: nat, pfn: nat)
  datatype Alloc = Ok(seg: Seg) | Unaligned | TooLow | TooLarge

  /** xc_dom_alloc_segment; a start of 0 means right behind what is allocated. The end of the new
      segment is the new end of what is allocated. */
  function AllocSegment(base: nat, allocEnd: nat, total: nat, start: nat, size: nat): (r: Alloc)
    requires base <= allocEnd
    ensures r.Ok? ==> r.seg.vstart >= allocEnd && (start != 0 ==> r.seg.vstart == start)
    ensures r.Ok? ==> size <= r.seg.vend - r.seg.vstart < size + PAGE
    ensures r.Ok? && base % PAGE == 0 ==> base + r.seg.pfn * PAGE == r.seg.vstart
    ensures r.Ok? && base % PAGE == 0 ==> r.seg.vend <= base + total * PAGE
  {
    var pages := (size + PAGE - 1) / PAGE;
    var vstart := if start == 0 then allocEnd else start;
    if vstart % PAGE != 0 then Unaligned
    else if vstart < allocEnd then TooLow
    else
      var pfn := (vstart - base) / PAGE;
      if pages > total || pages > total - pfn then TooLarge
      else Ok(Seg(vstart, vstart + pages * PAGE, pfn))
  }

  // ------------------------------------------------------------------ entries

  datatype Entry = Entry(frame: nat, present: bool, rw: bool, user: bool, accessed: bool, dirty: bool)

  const ABSENT := Entry(0, false, false, false, false, false)

  function L1Entry(frame: nat): Entry {
    Entry(frame, true, true, false, true, false)
  }

  function L2Entry(frame: nat): Entry {
    Entry(frame, true, true, true, true, true)
  }

  /** A domain under construction: its first virtual page and the page behind its mapped range, the
      machine frame of each of its pages, and its segment of page tables, one L2 table and then
      `l1` L1 tables. Page `v` of the virtual range is page `v - first` of the domain. */
  datatype Image = Image(first: nat, limit: nat, p2m: seq<nat>, seg: nat, l1: nat) {
    predicate Ok() {
      && first < limit <= ENTRIES * ENTRIES && limit % ENTRIES == 0 && limit - first <= |p2m|
      && l1 == limit / ENTRIES - first / ENTRIES && seg + 1 + l1 <= |p2m|
    }

    /** The tables are mapped at their place in the range, and no two pages share a frame. */
    predicate Sound() {
      Ok() && NoRepeat(p2m)
    }

    /** The page lies in the page table segment. */
    predicate IsTable(v: nat) {
      first + seg <= v < first + seg + 1 + l1
    }
  }

  /** The L1 entry of virtual page `v`. */
  function Leaf(img: Image, v: nat): Entry
    requires img.first <= v < img.first + |img.p2m|
  {
    var e := L1Entry(img.p2m[v - img.first]);
    if img.IsTable(v) then e.(rw := false) else e
  }

  /** Cell `o` of table `j` once `n` pages are mapped, `d` of the L1 tables being in use. */
  function Cell(img: Image, n: nat, d: nat, j: nat, o: nat): Entry
    requires img.Ok() && n <= img.limit - img.first && d <= img.l1 && j <= img.l1 && o < ENTRIES
  {
    var g := img.first / ENTRIES;
    if j == 0 then
      if g <= o < g + d then L2Entry(img.p2m[img.seg + 1 + (o - g)]) else ABSENT
    else
      var v := (g + j - 1) * ENTRIES + o;
      if img.first <= v < img.first + n then Leaf(img, v) else ABSENT
  }

  /** How many L1 tables the first `n` pages need. */
  function Begun(img: Image, n: nat): nat {
    if n == 0 then 0 else (img.first + n - 1) / ENTRIES - img.first / ENTRIES + 1
  }

  predicate InTab(img: Image, j: int, o: int) {
    0 <= j <= img.l1 && 0 <= o < ENTRIES
  }

  lemma DirStep(img: Image, n: nat, d: nat, j: nat, o: nat)
    requires img.Ok() && n <= img.limit - img.first && d < img.l1 && InTab(img, j, o)
    ensures Cell(img, n, d + 1, j, o)
            == if j == 0 && o == img.first / ENTRIES + d then L2Entry(img.p2m[img.seg + 1 + d])
               else Cell(img, n, d, j, o)
  {
  }

  lemma LeafStep(img: Image, n: nat, d: nat, j: nat, o: nat)
    requires img.Ok() && n < img.limit - img.first && d <= img.l1 && InTab(img, j, o)
    ensures var v := img.first + n;
            Cell(img, n + 1, d, j, o)
            == if j == v / ENTRIES - img.first / ENTRIES + 1 && o == v % ENTRIES then Leaf(img, v)
               else Cell(img, n, d, j, o)
  {
  }

  /** The tables as they are after `n` pages and `d` L1 tables. */
  ghost predicate Filled(img: Image, n: nat, d: nat, tab: array2<Entry>)
    requires img.Ok() && n <= img.limit - img.first && d <= img.l1
    requires tab.Length0 == 1 + img.l1 && tab.Length1 == ENTRIES
    reads tab
  {
    forall j, o :: InTab(img, j, o) ==> tab[j, o] == Cell(img, n, d, j, o)
  }

  predicate Shape(img: Image, tab: array2<Entry>) {
    img.Ok() && tab.Length0 == 1 + img.l1 && tab.Length1 == ENTRIES
  }

  /** Put the next L1 table into its L2 entry. */
  method BeginTable(img: Image, tab: array2<Entry>, l2off: nat, l1pfn: nat, ghost n: nat, ghost d: nat)
    requires Shape(img, tab) && n <= img.limit - img.first && d < img.l1 && Filled(img, n, d, tab)
    requires l2off == img.first / ENTRIES + d && l1pfn == img.seg + 1 + d && l2off < ENTRIES
    modifies tab
    ensures Filled(img, n, d + 1, tab)
  {
    tab[0, l2off] := L2Entry(img.p2m[l1pfn]);
    forall j, o | InTab(img, j, o)
      ensures tab[j, o] == Cell(img, n, d + 1, j, o)
    {
      DirStep(img, n, d, j, o);
      hide Cell;
    }
  }

  /** Put page `n` into its L1 entry, read-only if it holds a page table. */
  method MapPage(img: Image, tab: array2<Entry>, l1tab: nat, n: nat, ghost d: nat)
    requires Shape(img, tab) && n < img.limit - img.first && d <= img.l1 && Filled(img, n, d, tab)
    requires l1tab == (img.first + n) / ENTRIES - img.first / ENTRIES + 1 <= img.l1
    modifies tab
    ensures Filled(img, n + 1, d, tab)
  {
    var v := img.first + n;
    var l1off := v % ENTRIES;
    tab[l1tab, l1off] := L1Entry(img.p2m[n]);
    if img.IsTable(v) {
      tab[l1tab, l1off] := tab[l1tab, l1off].(rw := false);
    }
    assert tab[l1tab, l1off] == Leaf(img, v);
    forall j, o | InTab(img, j, o)
      ensures tab[j, o] == Cell(img, n + 1, d, j, o)
    {
      LeafStep(img, n, d, j, o);
      hide Cell, Leaf;
    }
  }

  lemma BegunStep(img: Image, n: nat)
    requires img.Ok() && n < img.limit - img.first
    ensures var v, g := img.first + n, img.first / ENTRIES;
            && Begun(img, n) <= Begun(img, n + 1) == v / ENTRIES - g + 1 <= img.l1
            && v / ENTRIES < ENTRIES
            && (if n == 0 || v % ENTRIES == 0 then Begun(img, n) == v / ENTRIES - g < img.l1
                else Begun(img, n) == Begun(img, n + 1))
            && ((v + 1) % ENTRIES == 0 <==> v % ENTRIES == ENTRIES - 1)
  {
  }

  /** setup_pgtables_x86_32, on the zeroed tables of the segment. */
  method SetupPgtables32(img: Image, tab: array2<Entry>)
    requires Shape(img, tab)
    requires forall j, o :: InTab(img, j, o) ==> tab[j, o] == ABSENT
    modifies tab
    ensures Filled(img, img.limit - img.first, img.l1, tab)
  {
    var l1pfn := img.seg + 1;
    var l1tab := -1;
    var n := 0;
    assert Filled(img, 0, 0, tab);
    hide Cell, Leaf, Filled;
    while img.first + n < img.limit
      invariant n <= img.limit - img.first && Begun(img, n) <= img.l1
      invariant l1pfn == img.seg + 1 + Begun(img, n)
      invariant l1tab == if n == 0 || (img.first + n) % ENTRIES == 0 then -1 else Begun(img, n)
      invariant Filled(img, n, Begun(img, n), tab)
    {
      var v := img.first + n;
      BegunStep(img, n);
      if l1tab == -1 {
        l1tab := l1pfn - img.seg;
        BeginTable(img, tab, v / ENTRIES % ENTRIES, l1pfn, n, Begun(img, n));
        l1pfn := l1pfn + 1;
      }
      MapPage(img, tab, l1tab, n, Begun(img, n + 1));
      if v % ENTRIES == ENTRIES - 1 {
        l1tab := -1;
      }
      n := n + 1;
    }
  }

  // --------------------------------------------------------------------- walk

  datatype Walked = Fault | Maps(frame: nat, writable: bool)

  /** The table that lives in a machine frame, or one past the last. */
  function TableAt(img: Image, frame: nat, j: nat): (r: nat)
    requires img.Ok() && j <= img.l1 + 1
    ensures j <= r <= img.l1 + 1 && (r <= img.l1 ==> img.p2m[img.seg + r] == frame)
    ensures forall k :: img.seg + j <= k < img.seg + r ==> img.p2m[k] != frame
    decreases img.l1 + 1 - j
  {
    if j > img.l1 || img.p2m[img.seg + j] == frame then j else TableAt(img, frame, j + 1)
  }

  /** The machine's walk for a virtual page: the entries hold machine frames, never table numbers. */
  ghost function Walk(img: Image, tab: array2<Entry>, v: nat): Walked
    requires Shape(img, tab)
    reads tab
  {
    var e2 := tab[0, v / ENTRIES % ENTRIES];
    if !e2.present then Fault
    else
      var j := TableAt(img, e2.frame, 0);
      if j > img.l1 then Fault
      else
        var e1 := tab[j, v % ENTRIES];
        if e1.present then Maps(e1.frame, e1.rw && e2.rw) else Fault
  }

  /** The frame of an L1 table leads to that table and no other. */
  lemma TableFound(img: Image, t: nat)
    requires img.Sound() && t <= img.l1
    ensures TableAt(img, img.p2m[img.seg + t], 0) == t
  {
    var j := TableAt(img, img.p2m[img.seg + t], 0);
    assert img.p2m[img.seg + j] == img.p2m[img.seg + t];
  }

  lemma FinalDir(img: Image, o: nat)
    requires img.Ok() && o < ENTRIES
    ensures Cell(img, img.limit - img.first, img.l1, 0, o)
            == if img.first / ENTRIES <= o < img.limit / ENTRIES then L2Entry(img.p2m[img.seg + 1 + (o - img.first / ENTRIES)])
               else ABSENT
  {
  }

  lemma FinalLeaf(img: Image, v: nat)
    requires img.Ok() && img.first / ENTRIES <= v / ENTRIES < img.limit / ENTRIES
    ensures Cell(img, img.limit - img.first, img.l1, v / ENTRIES - img.first / ENTRIES + 1, v % ENTRIES)
            == if img.first <= v < img.limit then Leaf(img, v) else ABSENT
  {
  }

  /** Walking a page of the range finds the frame of that page, read-only exactly for the page
      tables themselves; every other page of the address space faults. */
  lemma WalkIsP2m(img: Image, tab: array2<Entry>, v: nat)
    requires Shape(img, tab) && img.Sound() && Filled(img, img.limit - img.first, img.l1, tab)
    requires v < ENTRIES * ENTRIES
    ensures Walk(img, tab, v)
            == if img.first <= v < img.limit then Maps(img.p2m[v - img.first], !img.IsTable(v)) else Fault
  {
    hide Cell, TableAt;
    var g, o2 := img.first / ENTRIES, v / ENTRIES;
    assert InTab(img, 0, o2);
    FinalDir(img, o2);
    if g <= o2 < img.limit / ENTRIES {
      assert InTab(img, o2 - g + 1, v % ENTRIES);
      FinalLeaf(img, v);
      TableFound(img, o2 - g + 1);
    }
  }

  // ------------------------------------------------------------ the whole build

  /** The domain fits: some end of the grid below 4GB has room for everything and memory behind it. */
  predicate Fits(base: nat, allocEnd: nat, extra: nat, total: nat, top: nat) {
    && base <= allocEnd && base % PAGE == 0 && Roomy(X86_32, base, allocEnd, extra, top)
    && top < PAGE * ENTRIES * ENTRIES && top + 1 - base <= total * PAGE
  }

  /** Count and allocate, as xc_dom_build_image does. */
  method Prepare32(base: nat, allocEnd: nat, bootstack: bool, extraPages: nat, p2m: seq<nat>, ghost top: nat)
    returns (r: Alloc, img: Image)
    requires Fits(base, allocEnd, Extra(bootstack, extraPages), |p2m|, top)
    ensures img.Ok() && img.first * PAGE == base && img.p2m == p2m && img.limit * PAGE <= top + 1
    ensures r.Ok? <==> allocEnd % PAGE == 0
    ensures r.Ok? ==> r.seg.vstart == allocEnd == (img.first + img.seg) * PAGE
    ensures r.Ok? ==> r.seg.vend == (img.first + img.seg + 1 + img.l1) * PAGE
    ensures r.Ok? ==> r.seg.vend + Extra(bootstack, extraPages) * PAGE <= img.limit * PAGE
  {
    hide AllocSegment, Roomy, Extra, NrPageTables;
    var l4, l3, l2, l1, pgtables, pgtabEnd := CountPgtables(X86_32, base, allocEnd, bootstack, extraPages);
    LayoutSizes(base, pgtabEnd);
    LayoutUnused(base, pgtabEnd - 1);
    r := AllocSegment(base, allocEnd, |p2m|, 0, pgtables * PAGE);
    img := Image(base / PAGE, pgtabEnd / PAGE, p2m, (allocEnd - base) / PAGE, l1);
    BuildFits(base, allocEnd, Extra(bootstack, extraPages), |p2m|, top, l1, pgtabEnd);
  }

  /** Count, allocate and fill: the whole construction gives the machine the walk of the domain. */
  method BuildTables32(base: nat, allocEnd: nat, bootstack: bool, extraPages: nat, p2m: seq<nat>, ghost top: nat)
    returns (r: Alloc, img: Image, tab: array2<Entry>)
    requires Fits(base, allocEnd, Extra(bootstack, extraPages), |p2m|, top)
    requires NoRepeat(p2m)
    ensures r.Ok? <==> allocEnd % PAGE == 0
    ensures Shape(img, tab) && img.Sound() && img.first * PAGE == base && img.p2m == p2m
    ensures r.Ok? ==> r.seg == Seg(allocEnd, (img.first + img.seg + 1 + img.l1) * PAGE, r.seg.pfn)
    ensures r.Ok? ==> allocEnd == (img.first + img.seg) * PAGE
    ensures r.Ok? ==> r.seg.vend + Extra(bootstack, extraPages) * PAGE <= img.limit * PAGE
    ensures r.Ok? ==> forall v :: 0 <= v < ENTRIES * ENTRIES ==>
              Walk(img, tab, v) == if img.first <= v < img.limit then Maps(p2m[v - img.first], !img.IsTable(v)) else Fault
  {
    r, img := Prepare32(base, allocEnd, bootstack, extraPages, p2m, top);
    tab := new Entry[1 + img.l1, ENTRIES]((_, _) => ABSENT);
    hide Fits, Extra, Walk, Filled;
    if r.Ok? {
      SetupPgtables32(img, tab);
      forall v | 0 <= v < ENTRIES * ENTRIES
        ensures Walk(img, tab, v)
                == if img.first <= v < img.limit then Maps(p2m[v - img.first], !img.IsTable(v)) else Fault
      {
        WalkIsP2m(img, tab, v);
      }
    }
  }

  /** What was counted fits: the segment lies in the range and in the memory of the domain. */
  lemma BuildFits(base: nat, allocEnd: nat, extra: nat, total: nat, top: nat, l1: nat, pgtabEnd: nat)
    requires base <= allocEnd && base % PAGE == 0 && base < pgtabEnd <= top + 1 && top + 1 - base <= total * PAGE
    requires pgtabEnd <= PAGE * ENTRIES * ENTRIES && pgtabEnd % STEP == 0
    requires l1 == pgtabEnd / STEP - base / STEP && allocEnd + (1 + l1 + extra) * PAGE <= pgtabEnd
    ensures var r := AllocSegment(base, allocEnd, total, 0, (1 + l1) * PAGE);
            && (r.Ok? <==> allocEnd % PAGE == 0)
            && (r.Ok? ==> r.seg == Seg(allocEnd, allocEnd + (1 + l1) * PAGE, (allocEnd - base) / PAGE))
    ensures var first, limit, seg := base / PAGE, pgtabEnd / PAGE, (allocEnd - base) / PAGE;
            && first < limit <= ENTRIES * ENTRIES && limit % ENTRIES == 0 && limit - first <= total
            && l1 == limit / ENTRIES - first / ENTRIES && seg + 1 + l1 <= total
            && first * PAGE == base && limit * PAGE == pgtabEnd
            && (allocEnd % PAGE == 0 ==> (first + seg) * PAGE == allocEnd)
  {
  }

  lemma LayoutUnused(base: nat, end: nat)
    ensures NrPageTables(base, end, 0, 64) == 0
  {
  }

  lemma LayoutSizes(base: nat, pgtabEnd: nat)
    requires base < pgtabEnd <= PAGE * ENTRIES * ENTRIES && pgtabEnd % STEP == 0
    ensures NrPageTables(base, pgtabEnd - 1, 32, 64) == 1
    ensures NrPageTables(base, pgtabEnd - 1, 22, 64) == pgtabEnd / STEP - base / STEP
  {
    Powers();
    NrIsDifference(base, pgtabEnd - 1, 32, 64);
    NrIsDifference(base, pgtabEnd - 1, 22, 64);
  }
}
