/** The delta cache of tools/libxc/xc_compression.c over its whole history: pages are used and, when they
are queued raw, dropped. What is cached is what was used most recently. */
module CacheHistory {
  import opened PageCodec
  import opened DeltaCache

  // ------------------------------------------------------------------- model

  /** What happens to a cache: a page is used, with what it then holds, or dropped. */
  datatype Event = Use(e: Entry) | Drop(p: nat) {
    function Page(): nat {
      if Use? then e.pfn else p
    }
  }

  function Happens(c: Cache, ev: Event, slots: nat): Cache {
    if ev.Use? then Place(c, ev.e.pfn, ev.e.page, slots) else Without(c, ev.p)
  }

  /** The cache after these events, from empty. */
  function AfterEvents(h: seq<Event>, slots: nat): Cache {
    if h == [] then [] else Happens(AfterEvents(h[..|h| - 1], slots), h[|h| - 1], slots)
  }

  function Touched(r: Cache, ev: Event): Cache {
    if ev.Use? then [ev.e] + Without(r, ev.e.pfn) else Without(r, ev.p)
  }

  /** The pages used and not dropped since, the last used first, with what they held then. */
  function Recent(h: seq<Event>): Cache {
    if h == [] then [] else Touched(Recent(h[..|h| - 1]), h[|h| - 1])
  }

  /** When the page was last used, or -1. */
  function LastUse(h: seq<Event>, p: nat): (i: int)
    ensures -1 <= i < |h| && (i >= 0 ==> h[i].Use? && h[i].e.pfn == p)
  {
    if h == [] then -1
    else if h[|h| - 1].Use? && h[|h| - 1].e.pfn == p then |h| - 1 else LastUse(h[..|h| - 1], p)
  }

  /** The page was last used holding this, and not dropped since. */
  predicate Live(h: seq<Event>, e: Entry) {
    var i := LastUse(h, e.pfn);
    i >= 0 && h[i].e == e && forall k :: i < k < |h| ==> h[k] != Drop(e.pfn)
  }

  /** The list runs from the last used page to the one that was used longest ago. */
  predicate ByLastUse(h: seq<Event>, c: Cache) {
    forall i, j :: 0 <= i < j < |c| ==> LastUse(h, c[i].pfn) > LastUse(h, c[j].pfn)
  }

  ghost predicate AllLive(h: seq<Event>, c: Cache) {
    forall e: Entry {:trigger Live(h, e)} :: e in c <==> Live(h, e)
  }

  // ---------------------------------------------------------- one event more

  /** No later event uses the page. */
  lemma {:induction false} LastUseIsLast(h: seq<Event>, p: nat, k: nat)
    requires LastUse(h, p) < k < |h|
    ensures !(h[k].Use? && h[k].e.pfn == p)
    decreases |h|
  {
    if k < |h| - 1 {
      LastUseIsLast(h[..|h| - 1], p, k);
    }
  }

  lemma OneMore(h: seq<Event>, ev: Event, slots: nat, p: nat)
    ensures Recent(h + [ev]) == Touched(Recent(h), ev)
    ensures AfterEvents(h + [ev], slots) == Happens(AfterEvents(h, slots), ev, slots)
    ensures LastUse(h + [ev], p) == if ev.Use? && ev.e.pfn == p then |h| else LastUse(h, p)
  {
    hide Touched, Happens;
    assert (h + [ev])[..|h + [ev]| - 1] == h;
  }

  lemma LiveMore(h: seq<Event>, ev: Event, e: Entry)
    ensures Live(h + [ev], e) <==> if ev.Page() != e.pfn then Live(h, e) else ev == Use(e)
  {
    hide LastUse;
    OneMore(h, ev, 1, e.pfn);
    var i := LastUse(h, e.pfn);
    assert forall k :: 0 <= k < |h| ==> (h + [ev])[k] == h[k];
    assert (h + [ev])[|h|] == ev;
  }

  lemma TouchedLive(h: seq<Event>, ev: Event, r: Cache)
    requires Distinct(r) && AllLive(h, r)
    ensures AllLive(h + [ev], Touched(r, ev))
  {
    hide Live, IndexOf, Without;
    WithoutHas(r, ev.Page());
    forall e: Entry
      ensures e in Touched(r, ev) <==> Live(h + [ev], e)
    {
      LiveMore(h, ev, e);
      assert e in r <==> Live(h, e);
    }
  }

  lemma WithoutOrder(h: seq<Event>, c: Cache, p: nat)
    requires ByLastUse(h, c)
    ensures ByLastUse(h, Without(c, p))
  {
    hide LastUse, IndexOf;
  }

  lemma TouchedOrder(h: seq<Event>, ev: Event, r: Cache)
    requires Distinct(r) && ByLastUse(h, r)
    ensures Distinct(Touched(r, ev)) && ByLastUse(h + [ev], Touched(r, ev))
  {
    hide LastUse, IndexOf, Without;
    var w, t := Without(r, ev.Page()), Touched(r, ev);
    WithoutHas(r, ev.Page());
    WithoutOrder(h, r, ev.Page());
    assert forall i :: 0 <= i < |w| ==> w[i] in w;
    forall i, j | 0 <= i < j < |t|
      ensures LastUse(h + [ev], t[i].pfn) > LastUse(h + [ev], t[j].pfn)
    {
      OneMore(h, ev, 1, t[i].pfn);
      OneMore(h, ev, 1, t[j].pfn);
    }
  }

  /** The recent pages are exactly the live ones, in order of last use. */
  lemma {:induction false} RecentExact(h: seq<Event>)
    ensures Distinct(Recent(h)) && ByLastUse(h, Recent(h)) && AllLive(h, Recent(h))
    decreases |h|
  {
    if h != [] {
      hide LastUse, Distinct, ByLastUse, AllLive, Recent, Touched;
      var front, last := h[..|h| - 1], h[|h| - 1];
      assert front + [last] == h;
      RecentExact(front);
      OneMore(front, last, 1, 0);
      TouchedLive(front, last, Recent(front));
      TouchedOrder(front, last, Recent(front));
    }
  }

  // -------------------------------------------------------------- most recent

  lemma IndexOfPrefix(c: Cache, r: Cache, p: nat)
    requires c <= r
    ensures IndexOf(c, p) == if IndexOf(r, p) < |c| then IndexOf(r, p) else |c|
  {
    var i := IndexOf(r, p);
    if i < |c| {
      assert c[i] == r[i];
    }
  }

  lemma WithoutPrefix(c: Cache, r: Cache, p: nat)
    requires c <= r
    ensures Without(c, p) <= Without(r, p)
    ensures !Hit(c, p) ==> Without(c, p) == c
  {
    hide IndexOf;
    IndexOfPrefix(c, r, p);
    var i := IndexOf(r, p);
    if i < |c| {
      assert Without(c, p) == c[..i] + c[i + 1..];
      assert Without(r, p) == r[..i] + r[i + 1..];
    }
  }

  /** An event keeps the cache the front part of the recent pages. */
  lemma PrefixKept(c: Cache, r: Cache, ev: Event, slots: nat)
    requires c <= r && |c| <= slots && slots > 0
    ensures Happens(c, ev, slots) <= Touched(r, ev) && |Happens(c, ev, slots)| <= slots
  {
    WithoutPrefix(c, r, ev.Page());
    hide IndexOf;
  }

  lemma {:induction false} EventsAreRecent(h: seq<Event>, slots: nat)
    requires slots > 0
    ensures AfterEvents(h, slots) <= Recent(h) && |AfterEvents(h, slots)| <= slots
    decreases |h|
  {
    if h != [] {
      hide Happens, Touched;
      EventsAreRecent(h[..|h| - 1], slots);
      PrefixKept(AfterEvents(h[..|h| - 1], slots), Recent(h[..|h| - 1]), h[|h| - 1], slots);
    }
  }

  /** Every live page that is not in the list was used before all that are. */
  ghost predicate NoneNewer(h: seq<Event>, c: Cache) {
    forall e: Entry, i :: Live(h, e) && e !in c && 0 <= i < |c| ==> LastUse(h, e.pfn) < LastUse(h, c[i].pfn)
  }

  /** Whatever was used and dropped, the cache holds live pages, each with what it was last used with, in
      order of last use, and every live page it does not hold was used before all that it does. */
  lemma CacheIsMostRecent(h: seq<Event>, slots: nat)
    requires slots > 0
    ensures var c := AfterEvents(h, slots);
            && |c| <= slots && Distinct(c) && ByLastUse(h, c) && (forall i :: 0 <= i < |c| ==> Live(h, c[i]))
            && NoneNewer(h, c)
  {
    hide LastUse, Live, Recent, AfterEvents;
    EventsAreRecent(h, slots);
    RecentExact(h);
    var c, r := AfterEvents(h, slots), Recent(h);
    forall i | 0 <= i < |c|
      ensures Live(h, c[i])
    {
      assert c[i] == r[i] && r[i] in r;
    }
    forall e: Entry, i | Live(h, e) && e !in c && 0 <= i < |c|
      ensures LastUse(h, e.pfn) < LastUse(h, c[i].pfn)
    {
      assert e in r;
      var j :| 0 <= j < |r| && r[j] == e;
      assert c[i] == r[i];
    }
  }

  // ---------------------------------------------------------------- evictions

  lemma StaysPlaced(c: Cache, ev: Event, slots: nat, q: nat)
    requires Distinct(c) && |c| <= slots && slots > 0 && Hit(c, q) && q != ev.Page()
    requires ev.Use? && !Hit(c, ev.e.pfn) ==> |c| < slots
    ensures Hit(Happens(c, ev, slots), q)
  {
    WithoutHas(c, ev.Page());
    var w, e, c' := Without(c, ev.Page()), c[IndexOf(c, q)], Happens(c, ev, slots);
    assert e in w;
    var k :| 0 <= k < |w| && w[k] == e;
    HitAt(c', q, if ev.Use? then k + 1 else k);
  }

  /** The list has no room for the page that is used. */
  predicate Overflows(c: Cache, ev: Event, slots: nat) {
    ev.Use? && !Hit(c, ev.e.pfn) && |c| == slots
  }

  lemma Evicts(c: Cache, ev: Event, slots: nat)
    requires slots > 0 && Overflows(c, ev, slots)
    ensures Happens(c, ev, slots) == [ev.e] + c[..slots - 1]
  {
  }

  /** When a page that is not cached is used and every slot is taken, the page that leaves is the one
      whose last use is longest ago; in every other case no page leaves but a dropped one. */
  lemma EvictsLeastRecent(h: seq<Event>, ev: Event, slots: nat)
    requires slots > 0
    ensures var c, c' := AfterEvents(h, slots), AfterEvents(h + [ev], slots);
            if Overflows(c, ev, slots) then
              && c' == [ev.e] + c[..slots - 1]
              && forall i :: 0 <= i < slots - 1 ==> LastUse(h, c[slots - 1].pfn) < LastUse(h, c[i].pfn)
            else forall q :: Hit(c, q) && ev != Drop(q) ==> Hit(c', q)
  {
    hide LastUse, Live, AfterEvents, NoneNewer, Happens, IndexOf;
    var c := AfterEvents(h, slots);
    OneMore(h, ev, slots, 0);
    CacheIsMostRecent(h, slots);
    if Overflows(c, ev, slots) {
      Evicts(c, ev, slots);
    } else {
      forall q | Hit(c, q) && ev != Drop(q)
        ensures Hit(Happens(c, ev, slots), q)
      {
        if q == ev.Page() {
          HeadHit(c, ev, slots);
        } else {
          StaysPlaced(c, ev, slots, q);
        }
      }
    }
  }

  lemma HeadHit(c: Cache, ev: Event, slots: nat)
    requires ev.Use?
    ensures IndexOf(Happens(c, ev, slots), ev.e.pfn) == 0 && Hit(Happens(c, ev, slots), ev.e.pfn)
  {
  }

  // ------------------------------------------------------------ who is cached

  /** At time `t` fewer live pages than there are slots had been used later than this one. */
  predicate Within(h: seq<Event>, p: nat, t: int, slots: nat)
    requires 0 <= t <= |h|
  {
    IndexOf(Recent(h[..t]), p) < slots
  }

  /** The page is live, and was within the slots at all times since its last use. */
  predicate Stays(h: seq<Event>, p: nat, slots: nat) {
    Hit(Recent(h), p) && forall t :: LastUse(h, p) < t <= |h| ==> Within(h, p, t, slots)
  }

  lemma WithinMore(h: seq<Event>, ev: Event, p: nat, t: nat, slots: nat)
    requires t <= |h| + 1
    ensures Within(h + [ev], p, t, slots) <==> if t <= |h| then Within(h, p, t, slots) else IndexOf(Recent(h + [ev]), p) < slots
  {
    hide Recent, IndexOf;
    assert (h + [ev])[..t] == if t <= |h| then h[..t] else h + [ev];
  }

  lemma StaysMore(h: seq<Event>, ev: Event, p: nat, slots: nat)
    requires p != ev.Page() && (Hit(Recent(h + [ev]), p) <==> Hit(Recent(h), p))
    ensures Stays(h + [ev], p, slots) <==> Stays(h, p, slots) && IndexOf(Recent(h + [ev]), p) < slots
  {
    hide Recent, IndexOf, LastUse, Within;
    OneMore(h, ev, slots, p);
    forall t | LastUse(h, p) < t <= |h| + 1
      ensures Within(h + [ev], p, t, slots) <==> if t <= |h| then Within(h, p, t, slots) else IndexOf(Recent(h + [ev]), p) < slots
    {
      WithinMore(h, ev, p, t, slots);
    }
    assert Within(h + [ev], p, |h| + 1, slots) <==> IndexOf(Recent(h + [ev]), p) < slots;
  }

  lemma StillOut(r: Cache, x: nat, p: nat)
    requires Distinct(r) && !Hit(r, p)
    ensures !Hit(Without(r, x), p)
  {
    WithoutHas(r, x);
    var w := Without(r, x);
    assert forall k :: 0 <= k < |w| ==> w[k] in w;
    hide Without;
    assert forall e :: e in r ==> e.pfn != p;
  }

  lemma WithoutIndex(r: Cache, x: nat, p: nat)
    requires Distinct(r) && p != x
    ensures Hit(Without(r, x), p) <==> Hit(r, p)
    ensures Hit(r, p) ==> IndexOf(Without(r, x), p) == IndexOf(r, p) - if IndexOf(r, x) < IndexOf(r, p) then 1 else 0
  {
    if Hit(r, p) {
      var w, i, k := Without(r, x), IndexOf(r, p), IndexOf(r, x);
      WithoutHas(r, x);
      var j := if k < i then i - 1 else i;
      assert w[j] == r[i];
      HitAt(w, p, j);
    } else {
      StillOut(r, x, p);
    }
  }

  /** What another event does to the place of a page among the recent ones, and in the cache. */
  lemma OtherEvent(c: Cache, r: Cache, ev: Event, p: nat, slots: nat)
    requires c <= r && |c| <= slots && slots > 0 && Distinct(r) && p != ev.Page()
    ensures Hit(Touched(r, ev), p) <==> Hit(r, p)
    ensures Hit(Happens(c, ev, slots), p) <==> Hit(c, p) && IndexOf(Touched(r, ev), p) < slots
  {
    hide IndexOf, Without, Touched, Happens;
    var x := ev.Page();
    PrefixKept(c, r, ev, slots);
    IndexOfPrefix(Happens(c, ev, slots), Touched(r, ev), p);
    IndexOfPrefix(c, r, p);
    IndexOfPrefix(c, r, x);
    WithoutIndex(r, x, p);
    TouchedIndex(r, ev, p);
    HappensSize(c, ev, slots);
  }

  lemma TouchedIndex(r: Cache, ev: Event, p: nat)
    requires p != ev.Page()
    ensures IndexOf(Touched(r, ev), p) == IndexOf(Without(r, ev.Page()), p) + if ev.Use? then 1 else 0
    ensures |Touched(r, ev)| == |Without(r, ev.Page())| + if ev.Use? then 1 else 0
  {
    if ev.Use? {
      assert Touched(r, ev)[1..] == Without(r, ev.Page());
    }
  }

  lemma HappensSize(c: Cache, ev: Event, slots: nat)
    requires |c| <= slots && slots > 0
    ensures var n := |c| - if Hit(c, ev.Page()) then 1 else 0;
            |Happens(c, ev, slots)| == if !ev.Use? then n else if n == slots then slots else n + 1
  {
  }

  /** The exact condition for a page to be cached, over every history. */
  lemma {:induction false} CachedExactly(h: seq<Event>, p: nat, slots: nat)
    requires slots > 0
    ensures Hit(AfterEvents(h, slots), p) <==> Stays(h, p, slots)
    decreases |h|
  {
    if h != [] {
      hide IndexOf, AfterEvents, Recent, Stays, Touched, Happens;
      var front, last := h[..|h| - 1], h[|h| - 1];
      assert front + [last] == h;
      OneMore(front, last, slots, p);
      if p == last.Page() {
        JustNow(front, last, slots);
      } else {
        CachedExactly(front, p, slots);
        EventsAreRecent(front, slots);
        RecentExact(front);
        OtherEvent(AfterEvents(front, slots), Recent(front), last, p, slots);
        StaysMore(front, last, p, slots);
      }
    }
  }

  lemma JustTouched(r: Cache, ev: Event)
    requires Distinct(r)
    ensures Hit(Touched(r, ev), ev.Page()) <==> ev.Use?
    ensures ev.Use? ==> IndexOf(Touched(r, ev), ev.Page()) == 0
  {
    WithoutHas(r, ev.Page());
  }

  lemma JustHappened(c: Cache, ev: Event, slots: nat)
    requires Distinct(c)
    ensures Hit(Happens(c, ev, slots), ev.Page()) <==> ev.Use?
  {
    WithoutHas(c, ev.Page());
  }

  lemma JustNow(h: seq<Event>, ev: Event, slots: nat)
    requires slots > 0
    ensures Stays(h + [ev], ev.Page(), slots) <==> ev.Use?
    ensures Hit(AfterEvents(h + [ev], slots), ev.Page()) <==> ev.Use?
  {
    hide Recent, AfterEvents, Touched, Happens, LastUse, Within, IndexOf, ByLastUse, Live;
    var p := ev.Page();
    OneMore(h, ev, slots, p);
    RecentExact(h);
    CacheIsMostRecent(h, slots);
    JustTouched(Recent(h), ev);
    JustHappened(AfterEvents(h, slots), ev, slots);
    WithinMore(h, ev, p, |h| + 1, slots);
  }

  function Take(c: Cache, n: nat): Cache {
    if n < |c| then c[..n] else c
  }

  /** Placing a page in the front part of a list is placing it in the list and keeping that part. */
  lemma PlaceTake(c: Cache, e: Entry, slots: nat)
    requires slots > 0
    ensures Place(Take(c, slots), e.pfn, e.page, slots) == Take([e] + Without(c, e.pfn), slots)
  {
    hide IndexOf;
    var t, i := Take(c, slots), IndexOf(c, e.pfn);
    IndexOfPrefix(t, c, e.pfn);
    if i >= |c| {
      assert c[..|c|] == c;
    } else if |c| <= slots {
      assert Without(t, e.pfn) == c[..i] + c[i + 1..];
    } else if i < slots {
      assert Without(t, e.pfn) == c[..i] + c[i + 1..slots];
      assert ([e] + (c[..i] + c[i + 1..]))[..slots] == [e] + (c[..i] + c[i + 1..slots]);
    } else {
      assert t[..slots - 1] == c[..slots - 1];
      assert ([e] + (c[..i] + c[i + 1..]))[..slots] == [e] + c[..slots - 1];
    }
  }

  /** As long as nothing is dropped the cache is as full as it can be. */
  lemma {:induction false} FullUnlessDropped(h: seq<Event>, slots: nat)
    requires slots > 0 && forall i :: 0 <= i < |h| ==> h[i].Use?
    ensures AfterEvents(h, slots) == Take(Recent(h), slots)
    decreases |h|
  {
    if h != [] {
      hide Place, Take, Without;
      FullUnlessDropped(h[..|h| - 1], slots);
      PlaceTake(Recent(h[..|h| - 1]), h[|h| - 1].e, slots);
    }
  }
}
