/** The free lists of extras/mini-os/mm.c: doubly linked lists threaded through headers that live
inside the free pages themselves. A header field of a page that is not on a list is whatever the
page's owner left there. */
module FreeLists {

  const LEVELS: nat := 52   // FREELIST_SIZE with 8-byte pointers and 4096-byte pages

  /** A `chunk_head_t *`: a chunk header in a page, or the tail sentinel of a level. */
  datatype Link = ToPage(page: nat) | ToTail(level: nat)

  /** A `chunk_head_t **`: the list head of a level, or the `next` field of a header. */
  datatype Slot = HeadSlot(level: nat) | NextSlot(page: nat)

  /** Header fields by page number, `free_head`, and the `pprev` fields of `free_tail`. */
  datatype Memory = Memory(
    level: seq<int>, next: seq<Link>, pprev: seq<Slot>,
    head: seq<Link>, tailPprev: seq<Slot>)

  predicate Shaped(m: Memory, n: nat) {
    && |m.level| == n && |m.next| == n && |m.pprev| == n
    && |m.head| == LEVELS && |m.tailPprev| == LEVELS
  }

  predicate LinkIn(x: Link, n: nat) {
    match x
    case ToPage(p) => p < n
    case ToTail(l) => l < LEVELS
  }

  predicate SlotIn(x: Slot, n: nat) {
    match x
    case HeadSlot(l) => l < LEVELS
    case NextSlot(p) => p < n
  }

  /** `x->pprev = s`. */
  function SetPprev(m: Memory, n: nat, x: Link, s: Slot): Memory
    requires Shaped(m, n) && LinkIn(x, n)
  {
    match x
    case ToPage(p) => m.(pprev := m.pprev[p := s])
    case ToTail(l) => m.(tailPprev := m.tailPprev[l := s])
  }

  /** `*s = x`. */
  function Store(m: Memory, n: nat, s: Slot, x: Link): Memory
    requires Shaped(m, n) && SlotIn(s, n)
  {
    match s
    case HeadSlot(l) => m.(head := m.head[l := x])
    case NextSlot(p) => m.(next := m.next[p := x])
  }

  // ------------------------------------------------------------- list shape

  function LinkAt(s: seq<nat>, i: nat, l: nat): Link {
    if i < |s| then ToPage(s[i]) else ToTail(l)
  }

  function SlotAt(s: seq<nat>, i: nat, l: nat): Slot
    requires i <= |s|
  {
    if i == 0 then HeadSlot(l) else NextSlot(s[i - 1])
  }

  /** The header of page `s[i]` is linked in at position `i` of level `l`. */
  predicate NodeOk(m: Memory, n: nat, s: seq<nat>, l: nat, i: nat)
    requires Shaped(m, n) && i < |s|
  {
    && s[i] < n
    && m.next[s[i]] == LinkAt(s, i + 1, l)
    && m.pprev[s[i]] == SlotAt(s, i, l)
    && m.level[s[i]] == l
  }

  /** Level `l` is exactly the doubly linked list of the headers in `s`. */
  ghost predicate ListOk(m: Memory, n: nat, s: seq<nat>, l: nat)
    requires Shaped(m, n) && l < LEVELS
  {
    && m.head[l] == LinkAt(s, 0, l)
    && m.tailPprev[l] == SlotAt(s, |s|, l)
    && forall i :: 0 <= i < |s| ==> NodeOk(m, n, s, l, i)
  }

  ghost predicate AllOk(m: Memory, n: nat, lists: seq<seq<nat>>) {
    && Shaped(m, n) && |lists| == LEVELS
    && forall l :: 0 <= l < LEVELS ==> ListOk(m, n, lists[l], l)
  }

  /** No page is on two lists, or twice on one. */
  ghost predicate Separate(lists: seq<seq<nat>>) {
    forall l, i, k, j ::
      (&& 0 <= l < |lists| && 0 <= i < |lists[l]|
       && 0 <= k < |lists| && 0 <= j < |lists[k]|
       && lists[l][i] == lists[k][j]) ==> l == k && i == j
  }

  ghost predicate Listed(lists: seq<seq<nat>>, p: nat) {
    exists l :: 0 <= l < |lists| && p in lists[l]
  }

  // -------------------------------------------------------------------- push

  /** The five assignments that link a chunk in at the front of level `l`. */
  function Pushed(m: Memory, n: nat, l: nat, p: nat): Memory
    requires Shaped(m, n) && l < LEVELS && p < n && LinkIn(m.head[l], n)
  {
    var m1 := m.(level := m.level[p := l], next := m.next[p := m.head[l]], pprev := m.pprev[p := HeadSlot(l)]);
    var m2 := SetPprev(m1, n, m1.next[p], NextSlot(p));
    m2.(head := m2.head[l := ToPage(p)])
  }

  lemma PushOwnList(m: Memory, n: nat, s: seq<nat>, l: nat, p: nat)
    requires Shaped(m, n) && l < LEVELS && p < n && p !in s
    requires ListOk(m, n, s, l)
    requires forall i, j :: 0 <= i < |s| && 0 <= j < |s| && s[i] == s[j] ==> i == j
    ensures s != [] ==> NodeOk(m, n, s, l, 0)
    ensures ListOk(Pushed(m, n, l, p), n, [p] + s, l)
  {
    if s != [] {
      assert NodeOk(m, n, s, l, 0);
    }
    var m', s' := Pushed(m, n, l, p), [p] + s;
    forall i | 0 <= i < |s'|
      ensures NodeOk(m', n, s', l, i)
    {
      if i > 0 {
        assert NodeOk(m, n, s, l, i - 1);
        assert s'[i] == s[i - 1] != p;
      }
    }
  }

  lemma PushOtherList(m: Memory, n: nat, s: seq<nat>, l: nat, p: nat, t: seq<nat>, k: nat)
    requires Shaped(m, n) && l < LEVELS && k < LEVELS && l != k && p < n && p !in t
    requires ListOk(m, n, s, l) && ListOk(m, n, t, k)
    requires s != [] ==> NodeOk(m, n, s, l, 0) && s[0] !in t
    ensures ListOk(Pushed(m, n, l, p), n, t, k)
  {
    var m' := Pushed(m, n, l, p);
    forall i | 0 <= i < |t|
      ensures NodeOk(m', n, t, k, i)
    {
      assert NodeOk(m, n, t, k, i);
    }
  }

  lemma PushKeeps(m: Memory, n: nat, lists: seq<seq<nat>>, l: nat, p: nat)
    requires AllOk(m, n, lists) && Separate(lists) && l < LEVELS && p < n && !Listed(lists, p)
    ensures LinkIn(m.head[l], n)
    ensures AllOk(Pushed(m, n, l, p), n, lists[l := [p] + lists[l]])
    ensures Separate(lists[l := [p] + lists[l]])
  {
    var s := lists[l];
    assert ListOk(m, n, s, l);
    if s != [] {
      assert NodeOk(m, n, s, l, 0);
    }
    PushOwnList(m, n, s, l, p);
    forall k | 0 <= k < LEVELS && k != l
      ensures ListOk(Pushed(m, n, l, p), n, lists[k], k)
    {
      assert ListOk(m, n, lists[k], k);
      PushOtherList(m, n, s, l, p, lists[k], k);
    }
  }

  // ------------------------------------------------------------------ unlink

  /** `*(c->pprev) = c->next; c->next->pprev = c->pprev`. */
  function Unlinked(m: Memory, n: nat, p: nat): Memory
    requires Shaped(m, n) && p < n && SlotIn(m.pprev[p], n) && LinkIn(m.next[p], n)
  {
    SetPprev(Store(m, n, m.pprev[p], m.next[p]), n, m.next[p], m.pprev[p])
  }

  function Without(s: seq<nat>, i: nat): seq<nat>
    requires i < |s|
  {
    s[..i] + s[i + 1..]
  }

  lemma NeighboursIn(m: Memory, n: nat, s: seq<nat>, l: nat, i: nat)
    requires Shaped(m, n) && l < LEVELS && ListOk(m, n, s, l) && i < |s|
    ensures NodeOk(m, n, s, l, i) && SlotIn(m.pprev[s[i]], n) && LinkIn(m.next[s[i]], n)
  {
    assert NodeOk(m, n, s, l, i);
    if i > 0 {
      assert NodeOk(m, n, s, l, i - 1);
    }
    if i + 1 < |s| {
      assert NodeOk(m, n, s, l, i + 1);
    }
  }

  lemma UnlinkOwnList(m: Memory, n: nat, s: seq<nat>, l: nat, i: nat)
    requires Shaped(m, n) && l < LEVELS && ListOk(m, n, s, l) && i < |s|
    requires forall a, b :: 0 <= a < |s| && 0 <= b < |s| && s[a] == s[b] ==> a == b
    ensures NodeOk(m, n, s, l, i) && SlotIn(m.pprev[s[i]], n) && LinkIn(m.next[s[i]], n)
    ensures ListOk(Unlinked(m, n, s[i]), n, Without(s, i), l)
  {
    NeighboursIn(m, n, s, l, i);
    var m', t := Unlinked(m, n, s[i]), Without(s, i);
    forall a | 0 <= a < |t|
      ensures NodeOk(m', n, t, l, a)
    {
      var b := if a < i then a else a + 1;
      assert NodeOk(m, n, s, l, b) && t[a] == s[b];
    }
  }

  lemma UnlinkOtherList(m: Memory, n: nat, s: seq<nat>, l: nat, i: nat, t: seq<nat>, k: nat)
    requires Shaped(m, n) && l < LEVELS && k < LEVELS && l != k
    requires ListOk(m, n, s, l) && ListOk(m, n, t, k) && i < |s|
    requires forall a, b :: 0 <= a < |s| && 0 <= b < |t| ==> s[a] != t[b]
    requires NodeOk(m, n, s, l, i) && SlotIn(m.pprev[s[i]], n) && LinkIn(m.next[s[i]], n)
    ensures ListOk(Unlinked(m, n, s[i]), n, t, k)
  {
    var m' := Unlinked(m, n, s[i]);
    forall a | 0 <= a < |t|
      ensures NodeOk(m', n, t, k, a)
    {
      assert NodeOk(m, n, t, k, a);
    }
  }

  lemma UnlinkKeeps(m: Memory, n: nat, lists: seq<seq<nat>>, l: nat, i: nat)
    requires AllOk(m, n, lists) && Separate(lists) && l < LEVELS && i < |lists[l]|
    ensures var p := lists[l][i];
            && p < n && SlotIn(m.pprev[p], n) && LinkIn(m.next[p], n)
            && AllOk(Unlinked(m, n, p), n, lists[l := Without(lists[l], i)])
    ensures Separate(lists[l := Without(lists[l], i)])
  {
    var s := lists[l];
    assert ListOk(m, n, s, l);
    UnlinkOwnList(m, n, s, l, i);
    forall k | 0 <= k < LEVELS && k != l
      ensures ListOk(Unlinked(m, n, s[i]), n, lists[k], k)
    {
      assert ListOk(m, n, lists[k], k);
      UnlinkOtherList(m, n, s, l, i, lists[k], k);
    }
    SeparateWithout(lists, l, i);
  }

  lemma SeparateWithout(lists: seq<seq<nat>>, l: nat, i: nat)
    requires Separate(lists) && l < |lists| && i < |lists[l]|
    ensures Separate(lists[l := Without(lists[l], i)])
  {
  }

  /** Whatever the owners of pages off the lists write into them, the lists stand. */
  lemma OwnersMayScribble(m: Memory, m': Memory, n: nat, lists: seq<seq<nat>>)
    requires AllOk(m, n, lists) && Shaped(m', n)
    requires m'.head == m.head && m'.tailPprev == m.tailPprev
    requires forall p :: 0 <= p < n && Listed(lists, p) ==>
               m'.level[p] == m.level[p] && m'.next[p] == m.next[p] && m'.pprev[p] == m.pprev[p]
    ensures AllOk(m', n, lists)
  {
    forall l | 0 <= l < LEVELS
      ensures ListOk(m', n, lists[l], l)
    {
      assert ListOk(m, n, lists[l], l);
      forall i | 0 <= i < |lists[l]|
        ensures NodeOk(m', n, lists[l], l, i)
      {
        assert NodeOk(m, n, lists[l], l, i);
        assert lists[l][i] in lists[l];
      }
    }
  }
}
