/** The BAR3 window of the A3 GPU device model (tools/a3/device_bar3.cc): a software copy of each
guest's page table, and the host mappings that follow it. Page entries are 64-bit numbers. */
module Bar3 {
  import opened PowersOfTwo

  const VMS: nat := 2                    // A3_VM_NUM
  const ARENA: nat := 0x80_0000          // A3_BAR3_ARENA_SIZE, 16MB for all guests
  const SMALL: nat := 0x1000             // kSMALL_PAGE_SIZE
  const LARGE: nat := 0x2_0000           // kLARGE_PAGE_SIZE
  const SMALLS: nat := 2048              // small pages of an arena
  const LARGES: nat := 64                // large pages of an arena
  const COVERED: nat := 0x800_0000       // kPAGE_DIRECTORY_COVERED_SIZE
  const WORD: nat := 0x1_0000_0000
  const ADDRESS: nat := 0x1000_0000      // 28 address bits

  // ------------------------------------------------------------------ entries

  predicate Present(e: nat) {
    e % 2 == 1
  }

  function Address(e: nat): nat {
    e / 16 % ADDRESS
  }

  function Target(e: nat): nat {
    e / (2 * WORD) % 4
  }

  function WithAddress(e: nat, a: nat): nat {
    e - 16 * Address(e) + 16 * (a % ADDRESS)
  }

  function WithoutPresent(e: nat): nat {
    e - e % 2
  }

  function Compose(lo: nat, a: nat, hi: nat): nat {
    lo + 16 * a + WORD * hi
  }

  lemma ComposeFields(lo: nat, a: nat, hi: nat)
    requires lo < 16 && a < ADDRESS
    ensures var e := Compose(lo, a, hi);
            Present(e) == (lo % 2 == 1) && Address(e) == a && Target(e) == hi / 2 % 4
  {
    var e := Compose(lo, a, hi);
    DivModUnique(e, 16, a + ADDRESS * hi, lo);
    DivModUnique(e / 16, ADDRESS, hi, a);
    DivModUnique(e, 2 * WORD, hi / 2, lo + 16 * a + WORD * (hi % 2));
  }

  lemma EntryParts(e: nat)
    ensures e == Compose(e % 16, Address(e), e / WORD)
  {
  }

  lemma WithAddressFields(e: nat, a: nat)
    ensures var r := WithAddress(e, a);
            Present(r) == Present(e) && Target(r) == Target(e) && Address(r) == a % ADDRESS
  {
    EntryParts(e);
    ComposeFields(e % 16, Address(e), e / WORD);
    ComposeFields(e % 16, a % ADDRESS, e / WORD);
    hide Address, Target;
  }

  /** A guest: its number, the size of its part of the video memory, and the machine frames of its
      own memory. */
  datatype Guest = Guest(id: nat, vram: nat, mfn: nat -> nat) {
    /** get_address_shift. */
    function Shift(): nat {
      id * vram
    }
  }

  /** context::guest_to_host. */
  function GuestToHost(g: Guest, e: nat): nat {
    if !Present(e) then e
    else if Target(e) == 0 then
      var h := Address(e) * SMALL + g.Shift();
      var r := WithAddress(e, h / SMALL);
      if g.Shift() <= h < g.Shift() + g.vram then r else WithoutPresent(r)
    else if Target(e) == 2 || Target(e) == 3 then WithAddress(e, g.mfn(Address(e)))
    else e
  }

  lemma FieldShifts(a: nat, sh: nat, vram: nat)
    requires sh % SMALL == 0 && sh + vram <= ADDRESS * SMALL && a * SMALL < vram
    ensures (a * SMALL + sh) / SMALL % ADDRESS * SMALL == sh + a * SMALL
  {
  }

  lemma PresentCleared(e: nat)
    ensures !Present(WithoutPresent(e))
  {
  }

  /** A present entry for video memory leads into the guest's own part of it, at the offset the
      guest asked for, and it is dropped exactly when it would not. */
  lemma HostConfined(g: Guest, e: nat)
    requires Present(e) && Target(e) == 0 && g.Shift() % SMALL == 0 && g.Shift() + g.vram <= ADDRESS * SMALL
    ensures Present(GuestToHost(g, e)) <==> Address(e) * SMALL < g.vram
    ensures Present(GuestToHost(g, e)) ==> Address(GuestToHost(g, e)) * SMALL == g.Shift() + Address(e) * SMALL
  {
    hide WithAddress, Address, Target, WithoutPresent, Present, Guest.Shift;
    var h := Address(e) * SMALL + g.Shift();
    WithAddressFields(e, h / SMALL);
    PresentCleared(WithAddress(e, h / SMALL));
    if Address(e) * SMALL < g.vram {
      FieldShifts(Address(e), g.Shift(), g.vram);
    }
  }

  // --------------------------------------------------------------- translation

  datatype Answer = NoPage | At(address: nat)

  /** device_bar3::resolve on the software tables of all guests. */
  function Resolve(small: seq<nat>, large: seq<nat>, id: nat, gv: nat): Answer {
    if gv / COVERED != 0 then NoPage
    else
      var hv := gv + id * ARENA;
      if hv / SMALL < |small| && Present(small[hv / SMALL]) then At(Address(small[hv / SMALL]) * SMALL + hv % SMALL)
      else if hv / LARGE < |large| && Present(large[hv / LARGE]) then At(Address(large[hv / LARGE]) * SMALL + hv % LARGE)
      else NoPage
  }

  /** Guest memory in 32-bit words. */
  type Words = nat -> nat

  function Entry64(mem: Words, a: nat): nat {
    mem(a) + WORD * mem(a + 4)
  }

  /** An entry of a guest table, as page_entry::create reads it and guest_to_host rewrites it. */
  function GuestEntry(mem: Words, g: Guest, a: nat): nat {
    if Present(mem(a)) then GuestToHost(g, Entry64(mem, a)) else 0
  }

  /** Entry `i` of the small table of the directory at `phys`. */
  function GuestSmall(mem: Words, g: Guest, phys: nat, i: nat): nat {
    var w := mem(phys + 4);
    if w % 2 == 1 then GuestEntry(mem, g, w / 16 % ADDRESS * SMALL + g.Shift() + 8 * i) else 0
  }

  function GuestLarge(mem: Words, g: Guest, phys: nat, i: nat): nat {
    var w := mem(phys);
    if w % 2 == 1 then GuestEntry(mem, g, w / 16 % ADDRESS * SMALL + g.Shift() + 8 * i) else 0
  }

  /** The walk of the guest's own tables, small pages first. */
  function Walk(mem: Words, g: Guest, phys: nat, gv: nat): Answer {
    var s, l := GuestSmall(mem, g, phys, gv / SMALL), GuestLarge(mem, g, phys, gv / LARGE);
    if Present(s) then At(Address(s) * SMALL + gv % SMALL)
    else if Present(l) then At(Address(l) * SMALL + gv % LARGE)
    else NoPage
  }

  predicate Sized(small: seq<nat>, large: seq<nat>) {
    |small| == VMS * SMALLS && |large| == VMS * LARGES
  }

  /** The software tables of guest `g` hold its own tables. */
  ghost predicate Fresh(small: seq<nat>, large: seq<nat>, mem: Words, g: Guest, phys: nat)
    requires Sized(small, large) && g.id < VMS
  {
    && (forall i :: 0 <= i < SMALLS ==> small[g.id * SMALLS + i] == GuestSmall(mem, g, phys, i))
    && (forall i :: 0 <= i < LARGES ==> large[g.id * LARGES + i] == GuestLarge(mem, g, phys, i))
  }

  lemma ArenaIndex(id: nat, gv: nat)
    requires id < VMS && gv < ARENA
    ensures gv / COVERED == 0 && gv / SMALL < SMALLS && gv / LARGE < LARGES
    ensures (gv + id * ARENA) / SMALL == id * SMALLS + gv / SMALL && (gv + id * ARENA) % SMALL == gv % SMALL
    ensures (gv + id * ARENA) / LARGE == id * LARGES + gv / LARGE && (gv + id * ARENA) % LARGE == gv % LARGE
  {
  }

  /** What a guest sees of the software tables is the walk of its own tables. */
  lemma ResolveIsWalk(small: seq<nat>, large: seq<nat>, mem: Words, g: Guest, phys: nat, gv: nat)
    requires Sized(small, large) && g.id < VMS && Fresh(small, large, mem, g, phys) && gv < ARENA
    ensures Resolve(small, large, g.id, gv) == Walk(mem, g, phys, gv)
  {
    hide Present, Address, GuestSmall, GuestLarge;
    ArenaIndex(g.id, gv);
    assert small[g.id * SMALLS + gv / SMALL] == GuestSmall(mem, g, phys, gv / SMALL);
    assert large[g.id * LARGES + gv / LARGE] == GuestLarge(mem, g, phys, gv / LARGE);
  }

  /** Only the slots of guest `id` differ. */
  ghost predicate OnlyArena(small: seq<nat>, large: seq<nat>, small': seq<nat>, large': seq<nat>, id: nat)
    requires Sized(small, large) && Sized(small', large')
  {
    && (forall i :: 0 <= i < |small| && i / SMALLS != id ==> small'[i] == small[i])
    && (forall i :: 0 <= i < |large| && i / LARGES != id ==> large'[i] == large[i])
  }

  /** Nothing another guest sees has changed. */
  lemma OthersUnchanged(small: seq<nat>, large: seq<nat>, small': seq<nat>, large': seq<nat>, id: nat, other: nat,
                        gv: nat)
    requires Sized(small, large) && Sized(small', large') && OnlyArena(small, large, small', large', id)
    requires other < VMS && other != id && gv < ARENA
    ensures Resolve(small', large', other, gv) == Resolve(small, large, other, gv)
  {
    hide Present, Address;
    ArenaIndex(other, gv);
  }

  // -------------------------------------------------------------------- batches

  /** What a reflected entry changes: the software table, the entries the GPU reads, the addresses
      kept for them, and the pages of each guest that Xen maps through. */
  datatype State = State(small: seq<nat>, entries: seq<nat>, software: seq<nat>, mapped: set<(nat, nat)>) {
    predicate Ok() {
      |small| == |entries| == |software| == VMS * SMALLS
    }
  }

  /** The page is backed and not guarded by a barrier. */
  predicate Through(barrier: nat -> bool, host: nat) {
    host != 0 && !barrier(Address(host) * SMALL)
  }

  /** One entry reflected: page `index` of guest `id` gets the software entry `own` and the host
      entry `host`. */
  function Reflect(st: State, id: nat, barrier: nat -> bool, index: nat, own: nat, host: nat): (r: State)
    requires st.Ok() && id < VMS && index < SMALLS
    ensures r.Ok()
  {
    var h := id * SMALLS + index;
    State(st.small[h := own], st.entries[h := host],
          st.software[h := if Present(host) then Address(host) * SMALL else 0],
          if Through(barrier, host) then st.mapped + {(id, index)} else st.mapped - {(id, index)})
  }

  /** The entry for page `i` of a batch; the entry counts up in 64 bits. */
  function Nth(guest: nat, step: nat, i: nat): nat {
    (guest + i * step) % (WORD * WORD)
  }

  /** The pages of a batch, one after the other. */
  function ReflectAll(st: State, g: Guest, barrier: nat -> bool, index: nat, guest: nat, step: nat, n: nat): (r: State)
    requires st.Ok() && g.id < VMS && index + n <= SMALLS
    ensures r.Ok()
  {
    if n == 0 then st
    else
      var host := GuestToHost(g, Nth(guest, step, n - 1));
      Reflect(ReflectAll(st, g, barrier, index, guest, step, n - 1), g.id, barrier, index + n - 1, host, host)
  }

  function Host(g: Guest, guest: nat, step: nat, i: nat): nat {
    GuestToHost(g, Nth(guest, step, i))
  }

  /** What a batch comes to: its pages, and only they, have their entry, and Xen maps exactly those
      of them that are backed and not guarded. */
  lemma {:induction false} BatchMeaning(st: State, g: Guest, barrier: nat -> bool, index: nat, guest: nat, step: nat,
                                        n: nat, page: nat)
    requires st.Ok() && g.id < VMS && index + n <= SMALLS && page < SMALLS
    ensures var r, h := ReflectAll(st, g, barrier, index, guest, step, n), g.id * SMALLS + page;
            if index <= page < index + n then
              var host := Host(g, guest, step, page - index);
              && r.small[h] == r.entries[h] == host
              && r.software[h] == (if Present(host) then Address(host) * SMALL else 0)
              && ((g.id, page) in r.mapped <==> Through(barrier, host))
            else
              && r.small[h] == st.small[h] && r.entries[h] == st.entries[h] && r.software[h] == st.software[h]
              && ((g.id, page) in r.mapped <==> (g.id, page) in st.mapped)
  {
    hide GuestToHost, Nth, Present, Address, Through;
    if n > 0 {
      BatchMeaning(st, g, barrier, index, guest, step, n - 1, page);
    }
  }

  datatype Mode = Init | Mapping | Unmapping

  function Run(id: nat, first: nat, n: nat): (r: set<(nat, nat)>)
    ensures forall p :: p in r <==> p.0 == id && first <= p.1 < first + n
  {
    if n == 0 then {} else Run(id, first, n - 1) + {(id, first + n - 1)}
  }

  /** The mapped pages once what is held back is done. */
  function Flushed(mapped: set<(nat, nat)>, mode: Mode, id: nat, first: nat, n: nat): set<(nat, nat)> {
    match mode
    case Init => mapped
    case Mapping => mapped + Run(id, first, n)
    case Unmapping => mapped - Run(id, first, n)
  }

  lemma NthStep(guest: nat, step: nat, i: nat)
    requires guest < WORD * WORD
    ensures Nth(guest, step, 0) == guest
    ensures (Nth(guest, step, i) + step) % (WORD * WORD) == Nth(guest, step, i + 1)
  {
    var m := WORD * WORD;
    var x := guest + i * step;
    assert guest + (i + 1) * step == x + step;
    ModAddMultiple(x % m + step, x / m, m);
    assert x + step == m * (x / m) + (x % m + step);
  }

  /** Holding back one more page of the same kind, or starting to hold back pages of the other kind,
      amounts to doing it right away. */
  lemma HoldBack(mapped: set<(nat, nat)>, mode: Mode, id: nat, first: nat, n: nat, page: nat, through: bool)
    requires mode != Init ==> first + n == page
    ensures var now := if through then Flushed(mapped, mode, id, first, n) + {(id, page)}
                       else Flushed(mapped, mode, id, first, n) - {(id, page)};
            && (mode == (if through then Mapping else Unmapping) ==> now == Flushed(mapped, mode, id, first, n + 1))
            && now == Flushed(Flushed(mapped, mode, id, first, n), if through then Mapping else Unmapping, id, page, 1)
  {
  }

  class Device {
    const small: array<nat>
    const large: array<nat>
    var entries: seq<nat>
    var software: seq<nat>
    var mapped: set<(nat, nat)>

    ghost predicate Valid()
      reads this
    {
      && small.Length == VMS * SMALLS && large.Length == VMS * LARGES
      && |entries| == |software| == VMS * SMALLS && small != large
    }

    ghost function St(): (r: State)
      requires Valid()
      reads this, small
      ensures r.Ok()
    {
      State(small[..], entries, software, mapped)
    }

    constructor ()
      ensures Valid() && fresh(small) && fresh(large) && mapped == {}
      ensures forall i :: 0 <= i < small.Length ==> small[i] == 0
      ensures forall i :: 0 <= i < large.Length ==> large[i] == 0
    {
      small := new nat[VMS * SMALLS](_ => 0);
      large := new nat[VMS * LARGES](_ => 0);
      entries := seq(VMS * SMALLS, _ => 0);
      software := seq(VMS * SMALLS, _ => 0);
      mapped := {};
    }

    /** The large half of refresh_table. */
    method RefreshLarge(g: Guest, mem: Words, phys: nat)
      requires Valid() && g.id < VMS
      modifies large
      ensures forall i :: 0 <= i < LARGES ==> large[g.id * LARGES + i] == GuestLarge(mem, g, phys, i)
      ensures forall i :: 0 <= i < VMS * LARGES && i / LARGES != g.id ==> large[i] == old(large[i])
    {
      hide GuestEntry;
      var w := mem(phys);
      var address := w / 16 % ADDRESS * SMALL + g.Shift();
      for i := 0 to LARGES
        invariant forall k :: 0 <= k < i ==> large[g.id * LARGES + k] == GuestLarge(mem, g, phys, k)
        invariant forall k :: 0 <= k < VMS * LARGES && k / LARGES != g.id ==> large[k] == old(large[k])
      {
        large[g.id * LARGES + i] := if w % 2 == 1 then GuestEntry(mem, g, address + 8 * i) else 0;
      }
    }

    /** The small half of refresh_table. */
    method RefreshSmall(g: Guest, mem: Words, phys: nat)
      requires Valid() && g.id < VMS
      modifies small
      ensures forall i :: 0 <= i < SMALLS ==> small[g.id * SMALLS + i] == GuestSmall(mem, g, phys, i)
      ensures forall i :: 0 <= i < VMS * SMALLS && i / SMALLS != g.id ==> small[i] == old(small[i])
    {
      hide GuestEntry;
      var w := mem(phys + 4);
      var address := w / 16 % ADDRESS * SMALL + g.Shift();
      for i := 0 to SMALLS
        invariant forall k :: 0 <= k < i ==> small[g.id * SMALLS + k] == GuestSmall(mem, g, phys, k)
        invariant forall k :: 0 <= k < VMS * SMALLS && k / SMALLS != g.id ==> small[k] == old(small[k])
      {
        small[g.id * SMALLS + i] := if w % 2 == 1 then GuestEntry(mem, g, address + 8 * i) else 0;
      }
    }

    /** refresh_table: afterwards every offset of the guest's arena resolves as the guest's own tables
        say, and every offset of another guest as before. */
    method RefreshTable(g: Guest, mem: Words, phys: nat)
      requires Valid() && g.id < VMS
      modifies small, large
      ensures Valid() && (phys == 0 ==> small[..] == old(small[..]) && large[..] == old(large[..]))
      ensures phys != 0 ==> forall gv :: 0 <= gv < ARENA ==>
                Resolve(small[..], large[..], g.id, gv) == Walk(mem, g, phys, gv)
      ensures forall other, gv :: 0 <= other < VMS && other != g.id && 0 <= gv < ARENA ==>
                Resolve(small[..], large[..], other, gv) == Resolve(old(small[..]), old(large[..]), other, gv)
    {
      if phys == 0 {
        return;
      }
      hide Resolve, Walk, GuestSmall, GuestLarge;
      RefreshLarge(g, mem, phys);
      RefreshSmall(g, mem, phys);
      assert Fresh(small[..], large[..], mem, g, phys);
      assert OnlyArena(old(small[..]), old(large[..]), small[..], large[..], g.id);
      forall gv | 0 <= gv < ARENA
        ensures Resolve(small[..], large[..], g.id, gv) == Walk(mem, g, phys, gv)
      {
        ResolveIsWalk(small[..], large[..], mem, g, phys, gv);
      }
      forall other, gv | 0 <= other < VMS && other != g.id && 0 <= gv < ARENA
        ensures Resolve(small[..], large[..], other, gv) == Resolve(old(small[..]), old(large[..]), other, gv)
      {
        OthersUnchanged(old(small[..]), old(large[..]), small[..], large[..], g.id, other, gv);
      }
    }

    /** map: the entry the GPU reads and the address kept for it. */
    method Map(index: nat, e: nat)
      requires Valid() && index < VMS * SMALLS
      modifies `entries, `software
      ensures Valid() && entries == old(entries)[index := e]
      ensures software == old(software)[index := if Present(e) then Address(e) * SMALL else 0]
    {
      entries := entries[index := e];
      software := software[index := if Present(e) then Address(e) * SMALL else 0];
    }

    /** map_xen_page_batch, of which map_xen_page is the case of one page. */
    method MapXen(id: nat, page: nat, count: nat)
      modifies `mapped
      ensures mapped == old(mapped) + Run(id, page, count)
    {
      mapped := mapped + Run(id, page, count);
    }

    method UnmapXen(id: nat, page: nat, count: nat)
      modifies `mapped
      ensures mapped == old(mapped) - Run(id, page, count)
    {
      mapped := mapped - Run(id, page, count);
    }

    /** pv_reflect. */
    method PvReflect(g: Guest, barrier: nat -> bool, index: nat, guest: nat, host: nat)
      requires Valid() && g.id < VMS && index < SMALLS
      modifies this, small
      ensures Valid() && St() == Reflect(old(St()), g.id, barrier, index, GuestToHost(g, guest), host)
    {
      hide GuestToHost, Present, Address;
      var h := index + g.id * SMALLS;
      small[h] := GuestToHost(g, guest);
      Map(h, host);
      if host != 0 {
        if !barrier(Address(host) * SMALL) {
          MapXen(g.id, index, 1);
        } else {
          UnmapXen(g.id, index, 1);
        }
      } else {
        UnmapXen(g.id, index, 1);
      }
      assert Run(g.id, index, 1) == {(g.id, index)};
    }

    /** One page of a batch to map or to unmap: it joins the run that is held back, or ends it. */
    method HoldPage(id: nat, page: nat, through: bool, mode: Mode, first: nat, range: nat)
      returns (mode': Mode, first': nat, range': nat)
      requires mode != Init ==> first + range == page
      modifies `mapped
      ensures mode' != Init && first' + range' == page + 1
      ensures (Flushed(mapped, mode', id, first', range')
               == if through then Flushed(old(mapped), mode, id, first, range) + {(id, page)}
                  else Flushed(old(mapped), mode, id, first, range) - {(id, page)})
    {
      HoldBack(mapped, mode, id, first, range, page, through);
      mode', first', range' := mode, first, range + 1;
      if through && mode != Mapping {
        if mode == Unmapping {
          UnmapXen(id, first, range);
        }
        mode', first', range' := Mapping, page, 1;
      } else if !through && mode != Unmapping {
        if mode == Mapping {
          MapXen(id, first, range);
        }
        mode', first', range' := Unmapping, page, 1;
      }
    }

    /** The state once what is held back is done. */
    ghost function Held(mode: Mode, id: nat, first: nat, range: nat): (r: State)
      requires Valid()
      reads this, small
      ensures r.Ok()
    {
      State(small[..], entries, software, Flushed(mapped, mode, id, first, range))
    }

    /** One turn of the loop of pv_reflect_batch. */
    method ReflectHeld(id: nat, barrier: nat -> bool, page: nat, host: nat, mode: Mode, first: nat, range: nat)
      returns (mode': Mode, first': nat, range': nat)
      requires Valid() && id < VMS && page < SMALLS && (mode != Init ==> first + range == page)
      modifies this, small
      ensures Valid() && mode' != Init && first' + range' == page + 1
      ensures (Held(mode', id, first', range')
               == Reflect(old(Held(mode, id, first, range)), id, barrier, page, host, host))
    {
      hide Present, Address, Flushed;
      var h := page + id * SMALLS;
      small[h] := host;
      Map(h, host);
      mode', first', range' := HoldPage(id, page, Through(barrier, host), mode, first, range);
    }

    /** pv_reflect_batch: runs of pages to map or to unmap are held back and done at once. */
    method PvReflectBatch(g: Guest, barrier: nat -> bool, index: nat, guest: nat, step: nat, count: nat)
      requires Valid() && g.id < VMS && index + count <= SMALLS && guest < WORD * WORD
      modifies this, small
      ensures Valid() && St() == ReflectAll(old(St()), g, barrier, index, guest, step, count)
    {
      hide GuestToHost, Nth, Reflect;
      ghost var st0 := St();
      var mode, first: nat, range: nat := Init, 0, 0;
      var entry, i := guest, 0;
      NthStep(guest, step, 0);
      while i < count
        invariant Valid() && i <= count && entry == Nth(guest, step, i)
        invariant mode != Init ==> first + range == index + i
        invariant Held(mode, g.id, first, range) == ReflectAll(st0, g, barrier, index, guest, step, i)
      {
        mode, first, range := ReflectHeld(g.id, barrier, index + i, GuestToHost(g, entry), mode, first, range);
        NthStep(guest, step, i);
        entry, i := (entry + step) % (WORD * WORD), i + 1;
      }
      if mode == Mapping {
        MapXen(g.id, first, range);
      } else if mode == Unmapping {
        UnmapXen(g.id, first, range);
      }
    }
  }
}
