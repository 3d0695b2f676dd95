/** Filling the boot page tables of a PAE guest (tools/libxc/xc_dom_x86.c): one L3 table, an L2 table
for each gigabyte and an L1 table for each 2MB. The loop lets go of an L2 table at the first page of
its last 2MB, not at the last one; this module says exactly which ranges come out right. */
module PageTablesPae {
  import opened Sequences
  import opened PowersOfTwo
  import opened PageTableSize
  import opened PageTables

  const SLOT: nat := 512                // pages of an L1 table, entries of any table
  const GIG: nat := 262144              // pages of an L2 table
  const TAIL: nat := 261632             // where the last 2MB of a gigabyte begin

  function L3Entry(frame: nat): Entry {
    Entry(frame, true, false, false, false, false)
  }

  /** A domain under construction, as for i386: the tables are one L3, `l2` L2 and `l1` L1 tables. The
      range ends below 4GB, where the hypervisor is. */
  datatype Pae = Pae(first: nat, limit: nat, p2m: seq<nat>, seg: nat, l2: nat, l1: nat) {
    function Tables(): nat {
      1 + l2 + l1
    }

    predicate Ok() {
      && first < limit < 4 * GIG && limit % (2 * SLOT) == 0 && limit - first <= |p2m|
      && l1 == limit / SLOT - first / SLOT
      && l2 == (limit - 1) / GIG - first / GIG + 1 + (if limit <= 3 * GIG then 1 else 0)
      && seg + Tables() <= |p2m|
    }

    predicate Sound() {
      Ok() && NoRepeat(p2m)
    }

    predicate IsTable(v: nat) {
      first + seg <= v < first + seg + Tables()
    }

    function Frame(j: nat): nat
      requires Ok() && j < Tables()
    {
      p2m[seg + j]
    }
  }

  function Leaf(img: Pae, v: nat): Entry
    requires img.first <= v < img.first + |img.p2m|
  {
    var e := L1Entry(img.p2m[v - img.first]);
    if img.IsTable(v) then e.(rw := false) else e
  }

  // ------------------------------------------------------- what the loop has done

  predicate InTail(v: nat) {
    v % GIG >= TAIL
  }

  /** The loop takes a new L2 table for page `v`: at the start, and behind the first page it met in
      the last 2MB of a gigabyte. */
  predicate NeedsL2(img: Pae, v: nat)
    requires v >= img.first
  {
    v == img.first || (InTail(v - 1) && (v - 1 == img.first || !InTail(v - 2)))
  }

  /** How many L2 tables are in use before page `v`. */
  function UsedL2(img: Pae, v: nat): nat
    requires v >= img.first
  {
    if v == img.first then 0
    else (v - 1) / GIG - img.first / GIG + 1 + if v - 1 > img.first && InTail(v - 1) && InTail(v - 2) then 1 else 0
  }

  /** How many L1 tables are in use before page `v`. */
  function UsedL1(img: Pae, v: nat): nat
    requires v >= img.first
  {
    if v == img.first then 0 else (v - 1) / SLOT - img.first / SLOT + 1
  }

  /** The loop has let go of the L2 table of gigabyte `g` while still in it, before page `v`. */
  predicate Dropped(img: Pae, v: nat, g: nat) {
    img.first + 2 <= (g + 1) * GIG && v >= img.first + 2 && v >= g * GIG + TAIL + 2
  }

  /** Entry `o` of the L3 table before page `v`. */
  function Cell3(img: Pae, v: nat, o: nat): Entry
    requires img.Ok() && img.first <= v <= img.limit && o < SLOT
  {
    var q := o - img.first / GIG;
    if v == img.first || q < 0 || o > (v - 1) / GIG then ABSENT
    else if Dropped(img, v, o) then Entry3(img, q + 2)
    else if q == 0 || img.first + 2 > o * GIG then Entry3(img, q + 1)
    else ABSENT
  }

  function Entry3(img: Pae, j: nat): Entry
    requires img.Ok()
  {
    if j < img.Tables() then L3Entry(img.Frame(j)) else ABSENT
  }

  /** Entry `o` of L2 table `q` once `d` L1 tables are in use. */
  function Cell2(img: Pae, d: nat, q: nat, o: nat): Entry
    requires img.Ok() && d <= img.l1 && o < SLOT
  {
    var t := (img.first / GIG + q) * SLOT + o - img.first / SLOT;
    if 0 <= t < d then L2Entry(img.Frame(1 + img.l2 + t)) else ABSENT
  }

  /** Entry `o` of L1 table `t` before page `v`. */
  function Cell1(img: Pae, v: nat, t: nat, o: nat): Entry
    requires img.Ok() && img.first <= v <= img.limit && o < SLOT
  {
    var p := (img.first / SLOT + t) * SLOT + o;
    if img.first <= p < v then Leaf(img, p) else ABSENT
  }

  lemma UsedL2Step(img: Pae, v: nat)
    requires img.Ok() && img.first <= v < img.limit
    ensures UsedL2(img, v + 1) == UsedL2(img, v) + if NeedsL2(img, v) then 1 else 0
    ensures 1 <= UsedL2(img, v + 1) <= img.l2
  {
  }

  lemma Before(v: nat)
    requires v > 0
    ensures if v % GIG == 0 then (v - 1) / GIG == v / GIG - 1 && (v - 1) % GIG == GIG - 1
            else (v - 1) / GIG == v / GIG && (v - 1) % GIG == v % GIG - 1
  {
  }

  lemma Cell3Elsewhere(img: Pae, v: nat, o: nat)
    requires img.Ok() && img.first <= v < img.limit && o < SLOT && o != v / GIG
    ensures Cell3(img, v + 1, o) == Cell3(img, v, o)
  {
    hide Entry3;
    if v > img.first {
      Before(v);
      Quotient(v);
    }
  }

  /** The page that begins a gigabyte gets it an L3 entry only if the L2 table was let go just now. */
  lemma Cell3Begins(img: Pae, v: nat)
    requires img.Ok() && img.first < v < img.limit && v % GIG == 0
    ensures Cell3(img, v + 1, v / GIG)
            == if NeedsL2(img, v) then Entry3(img, 1 + UsedL2(img, v)) else Cell3(img, v, v / GIG)
  {
    hide Entry3, Pae.Ok;
    Before(v);
    if v > img.first + 1 {
      Before(v - 1);
    }
  }

  lemma Cell3Within(img: Pae, v: nat)
    requires img.Ok() && img.first < v < img.limit && v % GIG != 0
    ensures Cell3(img, v + 1, v / GIG)
            == if NeedsL2(img, v) then Entry3(img, 1 + UsedL2(img, v)) else Cell3(img, v, v / GIG)
  {
    hide Entry3;
    Before(v);
    if v > img.first + 1 {
      Before(v - 1);
    }
    Quotient(v);
    Quotient(img.first);
  }

  lemma Quotient(v: nat)
    ensures v == v / GIG * GIG + v % GIG && v % GIG < GIG
  {
  }

  lemma Cell3Step(img: Pae, v: nat, o: nat)
    requires img.Ok() && img.first <= v < img.limit && o < SLOT
    ensures Cell3(img, v + 1, o)
            == if NeedsL2(img, v) && o == v / GIG then Entry3(img, 1 + UsedL2(img, v)) else Cell3(img, v, o)
  {
    if o != v / GIG {
      Cell3Elsewhere(img, v, o);
    } else if v > img.first {
      if v % GIG == 0 {
        Cell3Begins(img, v);
      } else {
        Cell3Within(img, v);
      }
    }
  }

  predicate NeedsL1(img: Pae, v: nat) {
    v == img.first || v % SLOT == 0
  }

  lemma SlotBefore(v: nat)
    requires v > 0
    ensures (v - 1) / SLOT == if v % SLOT == 0 then v / SLOT - 1 else v / SLOT
  {
  }

  lemma SlotBelow(v: nat, limit: nat)
    requires v < limit && limit % SLOT == 0
    ensures v / SLOT < limit / SLOT
  {
  }

  lemma UsedL1Step(img: Pae, v: nat)
    requires img.Ok() && img.first <= v < img.limit
    ensures UsedL1(img, v + 1) == UsedL1(img, v) + if NeedsL1(img, v) then 1 else 0
    ensures UsedL1(img, v + 1) == v / SLOT - img.first / SLOT + 1 <= img.l1
  {
    hide Pae.Ok;
    WholeSlots(img);
    SlotBelow(v, img.limit);
    if v > img.first {
      SlotBefore(v);
    }
  }

  lemma WholeSlots(img: Pae)
    requires img.Ok()
    ensures img.limit % SLOT == 0 && img.l1 == img.limit / SLOT - img.first / SLOT
  {
    TwoSlots(img.limit);
  }

  lemma TwoSlots(limit: nat)
    requires limit % (2 * SLOT) == 0
    ensures limit % SLOT == 0
  {
  }

  /** The page that begins a 2MB block never comes behind another page of the last 2MB. */
  lemma SlotBegins(img: Pae, v: nat)
    requires img.first <= v && NeedsL1(img, v)
    ensures UsedL2(img, v + 1) == v / GIG - img.first / GIG + 1
  {
    if v > img.first {
      GigSlot(v);
      Quotient(v);
      Before(v);
    }
  }

  lemma Cell2Step(img: Pae, v: nat, q: nat, o: nat)
    requires img.Ok() && img.first <= v < img.limit && o < SLOT && NeedsL1(img, v)
    requires UsedL1(img, v) < img.l1
    ensures Cell2(img, UsedL1(img, v) + 1, q, o)
            == if q == v / GIG - img.first / GIG && o == v / SLOT % SLOT
               then L2Entry(img.Frame(1 + img.l2 + UsedL1(img, v))) else Cell2(img, UsedL1(img, v), q, o)
  {
    UsedL1Step(img, v);
    GigSlot(v);
    hide NeedsL1, UsedL1, UsedL2;
  }

  lemma GigSlot(v: nat)
    ensures v / SLOT == v / GIG * SLOT + v / SLOT % SLOT
  {
  }

  lemma Cell1Step(img: Pae, v: nat, t: nat, o: nat)
    requires img.Ok() && img.first <= v < img.limit && o < SLOT
    ensures Cell1(img, v + 1, t, o)
            == if t == v / SLOT - img.first / SLOT && o == v % SLOT then Leaf(img, v) else Cell1(img, v, t, o)
  {
  }

  // ------------------------------------------------------------------- the loop

  predicate Shape(img: Pae, tab: array2<Entry>) {
    img.Ok() && tab.Length0 == img.Tables() && tab.Length1 == SLOT
  }

  ghost predicate Filled3(img: Pae, v: nat, tab: array2<Entry>)
    requires Shape(img, tab) && img.first <= v <= img.limit
    reads tab
  {
    forall o :: 0 <= o < SLOT ==> tab[0, o] == Cell3(img, v, o)
  }

  ghost predicate Filled2(img: Pae, d: nat, tab: array2<Entry>)
    requires Shape(img, tab) && d <= img.l1
    reads tab
  {
    forall j, o :: 1 <= j <= img.l2 && 0 <= o < SLOT ==> tab[j, o] == Cell2(img, d, j - 1, o)
  }

  ghost predicate Filled1(img: Pae, v: nat, tab: array2<Entry>)
    requires Shape(img, tab) && img.first <= v <= img.limit
    reads tab
  {
    forall j, o :: 1 + img.l2 <= j < img.Tables() && 0 <= o < SLOT ==> tab[j, o] == Cell1(img, v, j - 1 - img.l2, o)
  }

  /** The L3 entry for page `v`, if the loop holds no L2 table. */
  method BeginL2(img: Pae, tab: array2<Entry>, v: nat, l2tab: int, l2pfn: nat) returns (l2tab': nat, l2pfn': nat)
    requires Shape(img, tab) && img.first <= v < img.limit
    requires l2tab == (if NeedsL2(img, v) then -1 else UsedL2(img, v)) && l2pfn == img.seg + 1 + UsedL2(img, v)
    requires Filled3(img, v, tab)
    modifies tab
    ensures l2tab' == UsedL2(img, v + 1) && l2pfn' == img.seg + 1 + UsedL2(img, v + 1)
    ensures Filled3(img, v + 1, tab)
    ensures forall j, o :: 1 <= j < img.Tables() && 0 <= o < SLOT ==> tab[j, o] == old(tab[j, o])
  {
    UsedL2Step(img, v);
    hide NeedsL2, UsedL2, Cell3;
    l2tab', l2pfn' := if l2tab >= 0 then l2tab else 0, l2pfn;
    if l2tab == -1 {
      l2tab' := l2pfn - img.seg;
      tab[0, v / GIG] := L3Entry(img.p2m[l2pfn]);
      l2pfn' := l2pfn + 1;
    }
    forall o | 0 <= o < SLOT
      ensures tab[0, o] == Cell3(img, v + 1, o)
    {
      Cell3Step(img, v, o);
    }
  }

  /** The L2 entry for page `v`, if the loop holds no L1 table. The L2 table is let go as soon as its
      last entry is written. */
  method BeginL1(img: Pae, tab: array2<Entry>, v: nat, l2tab: nat, l1tab: int, l1pfn: nat)
    returns (l2tab': int, l1tab': nat, l1pfn': nat)
    requires Shape(img, tab) && img.first <= v < img.limit && UsedL1(img, v) <= img.l1
    requires l2tab == UsedL2(img, v + 1)
    requires l1tab == if NeedsL1(img, v) then -1 else img.l2 + UsedL1(img, v)
    requires l1pfn == img.seg + 1 + img.l2 + UsedL1(img, v) && Filled2(img, UsedL1(img, v), tab)
    modifies tab
    ensures l2tab' == if NeedsL1(img, v) && v / SLOT % SLOT == SLOT - 1 then -1 else l2tab
    ensures UsedL1(img, v + 1) <= img.l1
    ensures l1tab' == img.l2 + UsedL1(img, v + 1) && l1pfn' == img.seg + 1 + img.l2 + UsedL1(img, v + 1)
    ensures Filled2(img, UsedL1(img, v + 1), tab)
    ensures forall o :: 0 <= o < SLOT ==> tab[0, o] == old(tab[0, o])
    ensures forall j, o :: img.l2 < j < img.Tables() && 0 <= o < SLOT ==> tab[j, o] == old(tab[j, o])
  {
    hide NeedsL1, UsedL1, UsedL2, Cell2;
    UsedL1Step(img, v);
    UsedL2Step(img, v);
    l2tab', l1tab', l1pfn' := l2tab, if l1tab >= 0 then l1tab else 0, l1pfn;
    if l1tab == -1 {
      l1tab' := l1pfn - img.seg;
      var l2off := v / SLOT % SLOT;
      tab[l2tab, l2off] := L2Entry(img.p2m[l1pfn]);
      if l2off == SLOT - 1 {
        l2tab' := -1;
      }
      l1pfn' := l1pfn + 1;
      SlotBegins(img, v);
      forall j, o | 1 <= j <= img.l2 && 0 <= o < SLOT
        ensures tab[j, o] == Cell2(img, UsedL1(img, v) + 1, j - 1, o)
      {
        Cell2Step(img, v, j - 1, o);
      }
    }
  }

  method MapPagePae(img: Pae, tab: array2<Entry>, v: nat, l1tab: nat)
    requires Shape(img, tab) && img.first <= v < img.limit && Filled1(img, v, tab)
    requires l1tab == 1 + img.l2 + (v / SLOT - img.first / SLOT) && l1tab < img.Tables()
    modifies tab
    ensures Filled1(img, v + 1, tab)
    ensures forall j, o :: 0 <= j <= img.l2 && 0 <= o < SLOT ==> tab[j, o] == old(tab[j, o])
  {
    hide Cell1;
    var l1off := v % SLOT;
    assert v - img.first < |img.p2m|;
    hide Pae.Ok;
    tab[l1tab, l1off] := L1Entry(img.p2m[v - img.first]);
    if img.IsTable(v) {
      tab[l1tab, l1off] := tab[l1tab, l1off].(rw := false);
    }
    assert tab[l1tab, l1off] == Leaf(img, v);
    hide Leaf;
    forall j, o | 1 + img.l2 <= j < img.Tables() && 0 <= o < SLOT
      ensures tab[j, o] == Cell1(img, v + 1, j - 1 - img.l2, o)
    {
      Cell1Step(img, v, j - 1 - img.l2, o);
    }
  }

  /** The last slot of a gigabyte is its last 2MB. */
  lemma TailIsSlot(v: nat)
    ensures InTail(v) <==> v / SLOT % SLOT == SLOT - 1
  {
    GigSlot(v);
    Quotient(v);
  }

  /** The tables the loop holds after page `v`. */
  lemma HeldAfter(img: Pae, v: nat)
    requires img.Ok() && img.first <= v < img.limit
    ensures NeedsL2(img, v + 1) <==> NeedsL1(img, v) && v / SLOT % SLOT == SLOT - 1
    ensures NeedsL1(img, v + 1) <==> v % SLOT == SLOT - 1
  {
    hide Pae.Ok;
    TailIsSlot(v);
    if v > img.first {
      TailIsSlot(v - 1);
      hide InTail;
    }
  }

  ghost predicate Filled(img: Pae, tab: array2<Entry>)
    requires Shape(img, tab)
    reads tab
  {
    && Filled1(img, img.limit, tab) && Filled2(img, img.l1, tab)
    && forall o :: 0 <= o < SLOT ==> tab[0, o] == Final3(img, o)
  }

  /** The L3 table in the end, with the extra L2 table for the top gigabyte. */
  function Final3(img: Pae, o: nat): Entry
    requires img.Ok() && o < SLOT
  {
    if o == 3 && img.limit <= 3 * GIG then Entry3(img, 1 + UsedL2(img, img.limit)) else Cell3(img, img.limit, o)
  }

  /** The loop in front of page `v`: the tables it holds, the next ones, and what is written. */
  ghost predicate Held(img: Pae, tab: array2<Entry>, v: nat, l2tab: int, l1tab: int, l2pfn: nat, l1pfn: nat)
    reads tab
  {
    && Shape(img, tab) && img.first <= v <= img.limit && UsedL1(img, v) <= img.l1
    && l2pfn == img.seg + 1 + UsedL2(img, v) && l1pfn == img.seg + 1 + img.l2 + UsedL1(img, v)
    && l2tab == (if NeedsL2(img, v) then -1 else UsedL2(img, v))
    && l1tab == (if NeedsL1(img, v) then -1 else img.l2 + UsedL1(img, v))
    && Filled3(img, v, tab) && Filled2(img, UsedL1(img, v), tab) && Filled1(img, v, tab)
  }

  /** One page. */
  method StepPae(img: Pae, tab: array2<Entry>, v: nat, l2tab: int, l1tab: int, l2pfn: nat, l1pfn: nat)
    returns (l2tab': int, l1tab': int, l2pfn': nat, l1pfn': nat)
    requires Held(img, tab, v, l2tab, l1tab, l2pfn, l1pfn) && v < img.limit
    modifies tab
    ensures Held(img, tab, v + 1, l2tab', l1tab', l2pfn', l1pfn')
  {
    hide UsedL1, UsedL2, NeedsL1, NeedsL2, Cell1, Cell2, Cell3;
    HeldAfter(img, v);
    UsedL1Step(img, v);
    hide Pae.Ok;
    l2tab', l2pfn' := BeginL2(img, tab, v, l2tab, l2pfn);
    l2tab', l1tab', l1pfn' := BeginL1(img, tab, v, l2tab', l1tab, l1pfn);
    MapPagePae(img, tab, v, l1tab');
    if v % SLOT == SLOT - 1 {
      l1tab' := -1;
    }
  }

  /** PAE guests get an L2 table for the top gigabyte in any case. */
  method FinishPae(img: Pae, tab: array2<Entry>, ghost l2tab: int, ghost l1tab: int, l2pfn: nat, ghost l1pfn: nat)
    requires Held(img, tab, img.limit, l2tab, l1tab, l2pfn, l1pfn)
    modifies tab
    ensures Filled(img, tab)
  {
    UsedAtEnd(img);
    hide UsedL1, UsedL2, NeedsL1, NeedsL2, Cell1, Cell2, Cell3;
    if img.limit <= 3 * GIG {
      tab[0, 3] := L3Entry(img.p2m[l2pfn]);
    }
  }

  /** setup_pgtables_x86_32_pae, on zeroed tables and with the L3 table in place. */
  method SetupPgtablesPae(img: Pae, tab: array2<Entry>)
    requires Shape(img, tab)
    requires forall j, o :: 0 <= j < img.Tables() && 0 <= o < SLOT ==> tab[j, o] == ABSENT
    modifies tab
    ensures Filled(img, tab)
  {
    var l2tab: int, l1tab: int := -1, -1;
    var l2pfn: nat, l1pfn: nat := img.seg + 1, img.seg + 1 + img.l2;
    var v := img.first;
    assert Held(img, tab, v, l2tab, l1tab, l2pfn, l1pfn);
    hide Held, Filled;
    while v < img.limit
      invariant img.first <= v <= img.limit && Held(img, tab, v, l2tab, l1tab, l2pfn, l1pfn)
    {
      l2tab, l1tab, l2pfn, l1pfn := StepPae(img, tab, v, l2tab, l1tab, l2pfn, l1pfn);
      v := v + 1;
    }
    FinishPae(img, tab, l2tab, l1tab, l2pfn, l1pfn);
  }

  lemma UsedAtEnd(img: Pae)
    requires img.Ok()
    ensures UsedL1(img, img.limit) == img.l1 >= 1 && 1 <= UsedL2(img, img.limit) <= img.l2
  {
    UsedL1Step(img, img.limit - 1);
    UsedL2Step(img, img.limit - 1);
  }

  // ---------------------------------------------------------------------- walk

  /** The table that lives in a machine frame, or one past the last. */
  function TableAt(img: Pae, frame: nat, j: nat): (r: nat)
    requires img.Ok() && j <= img.Tables()
    ensures j <= r <= img.Tables() && (r < img.Tables() ==> img.p2m[img.seg + r] == frame)
    ensures forall k :: img.seg + j <= k < img.seg + r ==> img.p2m[k] != frame
    decreases img.Tables() - j
  {
    if j == img.Tables() || img.p2m[img.seg + j] == frame then j else TableAt(img, frame, j + 1)
  }

  lemma TableFound(img: Pae, t: nat)
    requires img.Sound() && t < img.Tables()
    ensures TableAt(img, img.Frame(t), 0) == t
  {
    var j := TableAt(img, img.Frame(t), 0);
    assert img.p2m[img.seg + j] == img.p2m[img.seg + t];
  }

  /** Following one entry: the entry `o` of the table its frame holds. */
  ghost function Follow(img: Pae, tab: array2<Entry>, e: Entry, o: nat): Entry
    requires Shape(img, tab) && o < SLOT
    reads tab
  {
    if !e.present then ABSENT
    else
      var j := TableAt(img, e.frame, 0);
      if j < img.Tables() then tab[j, o] else ABSENT
  }

  /** The machine's three-level walk for a virtual page. */
  ghost function WalkPae(img: Pae, tab: array2<Entry>, v: nat): Walked
    requires Shape(img, tab) && v < 4 * GIG
    reads tab
  {
    var e2 := Follow(img, tab, tab[0, v / GIG], v / SLOT % SLOT);
    var e1 := Follow(img, tab, e2, v % SLOT);
    if e1.present then Maps(e1.frame, e1.rw && e2.rw) else Fault
  }

  /** The page is mapped to its frame, read-only exactly if it holds a page table. */
  ghost predicate Right(img: Pae, tab: array2<Entry>, v: nat)
    requires Shape(img, tab) && img.first <= v < img.limit
    reads tab
  {
    WalkPae(img, tab, v) == Maps(img.p2m[v - img.first], !img.IsTable(v))
  }

  lemma FollowTable(img: Pae, tab: array2<Entry>, j: nat, e: Entry, o: nat)
    requires Shape(img, tab) && img.Sound() && j < img.Tables() && e.present && e.frame == img.Frame(j) && o < SLOT
    ensures Follow(img, tab, e, o) == tab[j, o]
  {
    TableFound(img, j);
    hide TableAt;
  }

  /** The cells for the page that is where `v` is in its gigabyte, but in gigabyte `q` of the range. */
  lemma LowerCells(img: Pae, q: nat, v: nat, p: nat, t: int)
    requires img.Ok() && p == (img.first / GIG + q) * GIG + v % GIG && t == p / SLOT - img.first / SLOT
    ensures Cell2(img, img.l1, q, v / SLOT % SLOT) == if 0 <= t < img.l1 then L2Entry(img.Frame(1 + img.l2 + t)) else ABSENT
    ensures 0 <= t ==> Cell1(img, img.limit, t, v % SLOT) == if img.first <= p < img.limit then Leaf(img, p) else ABSENT
    ensures img.first <= p < img.limit ==> 0 <= t < img.l1
  {
    SameSlot(img, q, v);
    InSlots(img, p);
    hide Leaf, Pae.Ok;
  }

  lemma InSlots(img: Pae, p: nat)
    requires img.Ok()
    ensures img.first <= p < img.limit ==> 0 <= p / SLOT - img.first / SLOT < img.l1
  {
    hide Pae.Ok;
    WholeSlots(img);
  }

  /** From an L2 table on the walk is right for the gigabyte of that table. */
  lemma LowerWalk(img: Pae, tab: array2<Entry>, q: nat, v: nat, p: nat)
    requires Shape(img, tab) && img.Sound() && Filled(img, tab) && q < img.l2
    requires p == (img.first / GIG + q) * GIG + v % GIG
    ensures var e2 := Follow(img, tab, L3Entry(img.Frame(1 + q)), v / SLOT % SLOT);
            var e1 := Follow(img, tab, e2, v % SLOT);
            if img.first <= p < img.limit then e1 == Leaf(img, p) && e2.rw else e1 == ABSENT
  {
    assert Follow(img, tab, ABSENT, v % SLOT) == ABSENT;
    var o, t := v / SLOT % SLOT, p / SLOT - img.first / SLOT;
    hide Cell1, Cell2, Leaf, Final3, Follow;
    assert tab[1 + q, o] == Cell2(img, img.l1, q, o);
    assert 0 <= t < img.l1 ==> tab[1 + img.l2 + t, v % SLOT] == Cell1(img, img.limit, t, v % SLOT);
    hide Filled;
    LowerCells(img, q, v, p, t);
    FollowTable(img, tab, 1 + q, L3Entry(img.Frame(1 + q)), o);
    if 0 <= t < img.l1 {
      FollowTable(img, tab, 1 + img.l2 + t, L2Entry(img.Frame(1 + img.l2 + t)), v % SLOT);
    }
  }

  lemma SameSlot(img: Pae, q: nat, v: nat)
    ensures var p := (img.first / GIG + q) * GIG + v % GIG;
            && p / SLOT == (img.first / GIG + q) * SLOT + v / SLOT % SLOT && p % SLOT == v % SLOT
            && p == p / SLOT * SLOT + p % SLOT
  {
    GigSlot(v);
    Quotient(v);
  }

  /** Some gigabyte ends within the range, behind its second page or later. */
  predicate Crosses(img: Pae) {
    ((img.first + 1) / GIG + 1) * GIG <= img.limit
  }

  lemma NextBoundary(f: nat, l: nat, g: nat)
    requires ((f + 1) / GIG + 1) * GIG > l
    ensures f + 2 <= g * GIG ==> l < g * GIG
  {
    Quotient(f + 1);
  }

  lemma NotDropped(img: Pae, o: nat)
    requires img.Ok() && !Crosses(img) && o <= (img.limit - 1) / GIG
    ensures !Dropped(img, img.limit, o) && img.first + 2 > o * GIG
  {
    var f, l := img.first, img.limit;
    assert l % (2 * SLOT) == 0;
    hide Pae.Ok;
    Quotient(l - 1);
    NextBoundary(f, l, o + 1);
    NextBoundary(f, l, o);
  }

  lemma InGigabytes(img: Pae, v: nat)
    requires img.Ok() && img.first <= v < img.limit
    ensures 0 <= v / GIG - img.first / GIG < img.l2 && v / GIG <= (img.limit - 1) / GIG < 4
    ensures v / GIG == 3 ==> img.limit > 3 * GIG
  {
  }

  /** In a range that crosses no gigabyte every L3 entry leads to the L2 table of its gigabyte. */
  lemma UpperRight(img: Pae, v: nat)
    requires img.Ok() && img.first <= v < img.limit && !Crosses(img)
    ensures 0 <= v / GIG - img.first / GIG < img.l2 && v / GIG < SLOT
    ensures Final3(img, v / GIG) == L3Entry(img.Frame(1 + (v / GIG - img.first / GIG)))
  {
    InGigabytes(img, v);
    NotDropped(img, v / GIG);
    hide Dropped, Crosses, Pae.Ok;
  }

  /** The walk for page `v` when its L3 entry is that of gigabyte `q` of the range: it finds the page
      `p` there. */
  lemma WalkVia(img: Pae, tab: array2<Entry>, q: nat, v: nat, p: nat)
    requires Shape(img, tab) && img.Sound() && Filled(img, tab) && q < img.l2 && v < 4 * GIG
    requires Final3(img, v / GIG) == L3Entry(img.Frame(1 + q)) && p == (img.first / GIG + q) * GIG + v % GIG
    ensures WalkPae(img, tab, v)
            == if img.first <= p < img.limit then Maps(img.p2m[p - img.first], !img.IsTable(p)) else Fault
  {
    LowerWalk(img, tab, q, v, p);
    assert tab[0, v / GIG] == Final3(img, v / GIG);
    hide Follow, Final3;
  }

  lemma RightWithin(img: Pae, tab: array2<Entry>, v: nat)
    requires Shape(img, tab) && img.Sound() && Filled(img, tab) && img.first <= v < img.limit && !Crosses(img)
    ensures Right(img, tab, v)
  {
    hide Final3, Crosses, Filled, WalkPae;
    UpperRight(img, v);
    Quotient(v);
    var g, q := img.first / GIG, v / GIG - img.first / GIG;
    assert g + q == v / GIG;
    WalkVia(img, tab, q, v, v);
  }

  /** The second page of a range that crosses a gigabyte is looked up in the L2 table of the next. */
  lemma UpperWrong(img: Pae)
    requires img.Ok() && Crosses(img)
    ensures var v := img.first + 1;
            && v < img.limit && v / GIG < SLOT && 2 <= 2 + (v / GIG - img.first / GIG) <= img.l2
            && Final3(img, v / GIG) == L3Entry(img.Frame(2 + (v / GIG - img.first / GIG)))
  {
    Quotient(img.first + 1);
    Quotient(img.first);
  }

  lemma WrongBeyond(img: Pae, tab: array2<Entry>)
    requires Shape(img, tab) && img.Sound() && Filled(img, tab) && Crosses(img)
    ensures img.first + 1 < img.limit && !Right(img, tab, img.first + 1)
  {
    var v := img.first + 1;
    hide Final3, Crosses, Filled, WalkPae;
    UpperWrong(img);
    Quotient(v);
    var g, q := img.first / GIG, v / GIG - img.first / GIG + 1;
    assert g + q == v / GIG + 1;
    WalkVia(img, tab, q, v, v + GIG);
  }

  /** The exact condition: the whole range comes out right if and only if no gigabyte ends within it
      behind its second page or later. */
  lemma RightExactly(img: Pae, tab: array2<Entry>)
    requires Shape(img, tab) && img.Sound() && Filled(img, tab)
    ensures (forall v :: img.first <= v < img.limit ==> Right(img, tab, v)) <==> !Crosses(img)
  {
    if Crosses(img) {
      WrongBeyond(img, tab);
    } else {
      forall v | img.first <= v < img.limit
        ensures Right(img, tab, v)
      {
        RightWithin(img, tab, v);
      }
    }
  }

  // ------------------------------------------------------------ the whole build

  /** The domain fits: some end of the grid has room for everything below the last 4MB under 4GB, and
      memory behind it. */
  predicate FitsPae(base: nat, allocEnd: nat, extra: nat, total: nat, top: nat) {
    && base <= allocEnd && base % PAGE == 0 && Roomy(PAE, base, allocEnd, extra, top)
    && top + 1 < PAGE * 4 * GIG && top + 1 - base <= total * PAGE
  }

  lemma PaeSizes(base: nat, end: nat)
    requires base < end < PAGE * 4 * GIG && end % STEP == 0
    ensures NrPageTables(base, end - 1, 0, 64) == 0 && NrPageTables(base, end - 1, 32, 64) == 1
    ensures NrPageTables(base, end - 1, 30, 64) == (end - 1) / (PAGE * GIG) - base / (PAGE * GIG) + 1
    ensures NrPageTables(base, end - 1, 21, 64) == (end - 1) / (PAGE * SLOT) - base / (PAGE * SLOT) + 1
  {
    Powers();
    NrIsDifference(base, end - 1, 32, 64);
    NrIsDifference(base, end - 1, 30, 64);
    NrIsDifference(base, end - 1, 21, 64);
    hide NrPageTables, Pow2;
  }

  lemma PageOfByte(v: nat, offset: nat)
    requires offset < PAGE
    ensures (v * PAGE + offset) / (PAGE * GIG) == v / GIG
    ensures (v * PAGE + offset) / (PAGE * SLOT) == v / SLOT
  {
  }

  lemma GridPages(end: nat, limit: nat)
    requires end == limit * PAGE && end % STEP == 0 && end > 0
    ensures limit % (2 * SLOT) == 0 && (limit - 1) / SLOT + 1 == limit / SLOT
  {
  }

  lemma InPages(base: nat, end: nat, first: nat, limit: nat)
    requires base == first * PAGE && end == limit * PAGE && end % STEP == 0 && base < end
    ensures limit % (2 * SLOT) == 0 && first < limit
    ensures (end - 1) / (PAGE * GIG) - base / (PAGE * GIG) + 1 == (limit - 1) / GIG - first / GIG + 1
    ensures (end - 1) / (PAGE * SLOT) - base / (PAGE * SLOT) + 1 == limit / SLOT - first / SLOT
    ensures end <= TOP <==> limit <= 3 * GIG
  {
    GridPages(end, limit);
    PageOfByte(first, 0);
    PageOfByte(limit - 1, PAGE - 1);
    assert (limit - 1) * PAGE + (PAGE - 1) == end - 1;
  }

  lemma SegmentFits(base: nat, allocEnd: nat, extra: nat, total: nat, end: nat, tables: nat)
    requires base <= allocEnd && base % PAGE == 0 && end - base <= total * PAGE
    requires allocEnd + (tables + extra) * PAGE <= end
    ensures var r := AllocSegment(base, allocEnd, total, 0, tables * PAGE);
            && (r.Ok? <==> allocEnd % PAGE == 0)
            && (r.Ok? ==> r.seg == Seg(allocEnd, allocEnd + tables * PAGE, (allocEnd - base) / PAGE))
    ensures (allocEnd - base) / PAGE + tables <= total
  {
  }

  /** Count and allocate for a PAE guest, as xc_dom_build_image does. */
  method PreparePae(base: nat, allocEnd: nat, bootstack: bool, extraPages: nat, p2m: seq<nat>, ghost top: nat)
    returns (r: Alloc, img: Pae)
    requires FitsPae(base, allocEnd, Extra(bootstack, extraPages), |p2m|, top)
    ensures img.Ok() && img.first * PAGE == base && img.p2m == p2m && img.limit * PAGE <= top + 1
    ensures r.Ok? <==> allocEnd % PAGE == 0
    ensures r.Ok? ==> r.seg == Seg(allocEnd, (img.first + img.seg + img.Tables()) * PAGE, img.seg)
    ensures r.Ok? ==> allocEnd == (img.first + img.seg) * PAGE
    ensures r.Ok? ==> r.seg.vend + Extra(bootstack, extraPages) * PAGE <= img.limit * PAGE
  {
    hide AllocSegment, Roomy, Extra, NrPageTables;
    var l4, l3, l2, l1, pgtables, pgtabEnd := CountPgtables(PAE, base, allocEnd, bootstack, extraPages);
    PaeSizes(base, pgtabEnd);
    r := AllocSegment(base, allocEnd, |p2m|, 0, pgtables * PAGE);
    img := Pae(base / PAGE, pgtabEnd / PAGE, p2m, (allocEnd - base) / PAGE, l2, l1);
    InPages(base, pgtabEnd, img.first, img.limit);
    SegmentFits(base, allocEnd, Extra(bootstack, extraPages), |p2m|, pgtabEnd, pgtables);
  }

  /** Count, allocate and fill for a PAE guest: the machine walks every page of the range to its frame,
      read-only exactly for the page tables, if and only if the range crosses no gigabyte. */
  method BuildTablesPae(base: nat, allocEnd: nat, bootstack: bool, extraPages: nat, p2m: seq<nat>, ghost top: nat)
    returns (r: Alloc, img: Pae, tab: array2<Entry>)
    requires FitsPae(base, allocEnd, Extra(bootstack, extraPages), |p2m|, top)
    requires NoRepeat(p2m)
    ensures r.Ok? <==> allocEnd % PAGE == 0
    ensures Shape(img, tab) && img.Sound() && img.first * PAGE == base && img.p2m == p2m
    ensures r.Ok? ==> r.seg == Seg(allocEnd, (img.first + img.seg + img.Tables()) * PAGE, img.seg)
    ensures r.Ok? ==> allocEnd == (img.first + img.seg) * PAGE
    ensures r.Ok? ==> r.seg.vend + Extra(bootstack, extraPages) * PAGE <= img.limit * PAGE
    ensures r.Ok? ==> ((forall v :: img.first <= v < img.limit ==> Right(img, tab, v)) <==> !Crosses(img))
  {
    hide FitsPae, Extra, Right, Filled, Crosses;
    r, img := PreparePae(base, allocEnd, bootstack, extraPages, p2m, top);
    tab := new Entry[img.Tables(), SLOT]((_, _) => ABSENT);
    if r.Ok? {
      SetupPgtablesPae(img, tab);
      RightExactly(img, tab);
    }
  }

  /** A domain of 8MB whose range begins 4MB below the top gigabyte comes out wrong. */
  lemma CrossingExample()
    ensures var img := Pae(0xbfc00, 0xc0400, seq(2048, i => i), 0, 2, 4);
            img.Sound() && Crosses(img)
  {
  }
}
