/** The rearrangement of machine frames in stubdom/grub/kexec.c.

`orig` is the running domain's physical-to-machine table. Pages returned by the allocator are
given by their frame number in that table; `reserved` are the pages of the console, xenstore and
boot frames, which the allocator never returns. */
module Kexec {
  import opened Sequences

  // ------------------------------------------------------ the moved-to chain

  /** Following `moved` from `x` goes strictly up until it leaves the table. */
  ghost predicate Climbs(moved: seq<nat>, x: nat)
    decreases |moved| - x
  {
    x >= |moved| || (x < moved[x] && Climbs(moved, moved[x]))
  }

  /** Where the chain from `x` ends. */
  ghost function Home(moved: seq<nat>, x: nat): (h: nat)
    requires Climbs(moved, x)
    ensures h >= |moved|
    decreases |moved| - x
  {
    if x >= |moved| then x else Home(moved, moved[x])
  }

  lemma {:induction false} ChainExtends(moved: seq<nat>, x: nat, d: nat)
    requires Climbs(moved, x)
    requires Home(moved, x) == |moved| ==> d > |moved|
    ensures Climbs(moved + [d], x)
    ensures Home(moved + [d], x) == if Home(moved, x) == |moved| then d else Home(moved, x)
    decreases |moved| - x
  {
    if x < |moved| {
      ChainExtends(moved, moved[x], d);
    }
  }

  // ------------------------------------------------------------- the invariant

  /** A page the allocator may still hand out. */
  predicate Available(n: nat, taken: seq<nat>, reserved: set<nat>, x: nat) {
    x < n && x !in taken && x !in reserved
  }

  ghost predicate Located(orig: seq<nat>, p2m: seq<nat>, moved: seq<nat>, x: nat)
    requires x < |orig|
  {
    && Climbs(moved, x)
    && Home(moved, x) < |p2m|
    && p2m[Home(moved, x)] == orig[x]
  }

  /** `p2m` holds each original frame once, and the chain from every page that may still be
      handed out ends at the slot that holds its frame. */
  ghost predicate Tracks(orig: seq<nat>, p2m: seq<nat>, taken: seq<nat>, moved: seq<nat>, reserved: set<nat>) {
    && NoRepeat(orig)
    && |p2m| == |orig|
    && multiset(p2m) == multiset(orig)
    && |moved| == |taken| <= |orig|
    && (forall x :: Available(|orig|, taken, reserved, x) ==> Located(orig, p2m, moved, x))
  }

  /** Before any exchange, slot `j` holds the frame of the `j`-th page handed out. */
  ghost predicate Placed(orig: seq<nat>, p2m: seq<nat>, taken: seq<nat>) {
    && |taken| <= |p2m|
    && forall j :: 0 <= j < |taken| ==> taken[j] < |orig| && p2m[j] == orig[taken[j]]
  }

  lemma MultisetSwap(s: seq<nat>, i: nat, j: nat)
    requires i < |s| && j < |s|
    ensures multiset(s[i := s[j]][j := s[i]]) == multiset(s)
  {
  }

  lemma {:induction false} NoRepeatMeansOnce(s: seq<nat>)
    requires NoRepeat(s)
    ensures forall v :: multiset(s)[v] <= 1
    decreases |s|
  {
    if s != [] {
      var front, last := s[..|s| - 1], s[|s| - 1];
      assert s == front + [last];
      assert last !in front;
      NoRepeatMeansOnce(front);
      assert multiset(front)[last] == 0;
    }
  }

  lemma {:induction false} OnceMeansNoRepeat(s: seq<nat>)
    requires forall v :: multiset(s)[v] <= 1
    ensures NoRepeat(s)
  {
    forall i, j | 0 <= i < j < |s|
      ensures s[i] != s[j]
    {
      assert s == s[..j] + [s[j]] + s[j + 1..];
      assert multiset(s)[s[j]] == multiset(s[..j])[s[j]] + 1 + multiset(s[j + 1..])[s[j]];
      assert s[j] !in multiset(s[..j]);
      assert s[..j][i] == s[i];
    }
  }

  /** A table with the same frames as a table without repeats has no repeats either. */
  lemma PermutationNoRepeat(s: seq<nat>, t: seq<nat>)
    requires NoRepeat(s) && multiset(s) == multiset(t)
    ensures NoRepeat(t)
  {
    NoRepeatMeansOnce(s);
    OnceMeansNoRepeat(t);
  }

  /** One round of kexec_allocate: page `a` is handed out for slot `i`. */
  function Exchanged(p2m: seq<nat>, i: nat, d: nat, frame: nat): (r: seq<nat>)
    requires i < |p2m| && d < |p2m|
  {
    p2m[d := p2m[i]][i := frame]
  }

  lemma RoundKeepsTracks(orig: seq<nat>, p2m: seq<nat>, taken: seq<nat>, moved: seq<nat>, reserved: set<nat>, a: nat)
    requires Tracks(orig, p2m, taken, moved, reserved)
    requires |moved| < |orig| && Available(|orig|, taken, reserved, a)
    ensures Climbs(moved, a)
    ensures var d := Home(moved, a);
            && |moved| <= d < |p2m|
            && Tracks(orig, Exchanged(p2m, |moved|, d, orig[a]), taken + [a], moved + [d], reserved)
  {
    var i := |moved|;
    assert Located(orig, p2m, moved, a);
    var d := Home(moved, a);
    var p2m' := Exchanged(p2m, i, d, orig[a]);
    assert p2m' == p2m[d := p2m[i]][i := p2m[d]];
    MultisetSwap(p2m, d, i);
    forall x | Available(|orig|, taken + [a], reserved, x)
      ensures Located(orig, p2m', moved + [d], x)
    {
      assert Available(|orig|, taken, reserved, x) && x != a;
      assert Located(orig, p2m, moved, x);
      assert Home(moved, x) != d;
      ChainExtends(moved, x, d);
    }
  }

  lemma RoundKeepsPlaced(orig: seq<nat>, p2m: seq<nat>, taken: seq<nat>, d: nat, a: nat)
    requires Placed(orig, p2m, taken) && |taken| <= d < |p2m| && a < |orig|
    ensures Placed(orig, Exchanged(p2m, |taken|, d, orig[a]), taken + [a])
  {
  }

  /** do_exchange moves a reserved frame into a slot below the mark. */
  lemma ExchangeKeepsTracks(orig: seq<nat>, p2m: seq<nat>, taken: seq<nat>, moved: seq<nat>, reserved: set<nat>,
                            source: nat, target: nat, e: nat)
    requires Tracks(orig, p2m, taken, moved, reserved)
    requires target < |moved| && source < |p2m|
    requires e in reserved && e < |orig| && p2m[source] == orig[e]
    ensures Tracks(orig, p2m[source := p2m[target]][target := orig[e]], taken, moved, reserved)
  {
    var p2m' := p2m[source := p2m[target]][target := orig[e]];
    assert p2m' == p2m[source := p2m[target]][target := p2m[source]];
    MultisetSwap(p2m, source, target);
    forall x | Available(|orig|, taken, reserved, x)
      ensures Located(orig, p2m', moved, x)
    {
      assert Located(orig, p2m, moved, x);
      assert x != e;
    }
  }

  // ------------------------------------------------------------- whole runs

  /** What a run does to the tables: hand out a page for the next slot, or bring a reserved
      frame to a slot that has its page already. */
  datatype Action = Grant(page: nat) | Swap(target: nat, e: nat)

  datatype Tables = Tables(p2m: seq<nat>, taken: seq<nat>, moved: seq<nat>)

  predicate Legal(orig: seq<nat>, reserved: set<nat>, t: Tables, a: Action) {
    match a
    case Grant(page) => |t.moved| < |orig| && Available(|orig|, t.taken, reserved, page)
    case Swap(target, e) => target < |t.moved| && e in reserved && e < |orig|
  }

  /** `next` is `t` after the action, as the code computes it. */
  ghost predicate Acts(orig: seq<nat>, t: Tables, a: Action, next: Tables) {
    match a
    case Grant(page) =>
      && page < |orig| && |t.moved| < |t.p2m|
      && Climbs(t.moved, page) && Home(t.moved, page) < |t.p2m|
      && var d := Home(t.moved, page);
         next == Tables(Exchanged(t.p2m, |t.moved|, d, orig[page]), t.taken + [page], t.moved + [d])
    case Swap(target, e) =>
      exists source ::
        && 0 <= source < |t.p2m| && target < |t.p2m| && e < |orig|
        && t.p2m[source] == orig[e]
        && next == t.(p2m := t.p2m[source := t.p2m[target]][target := orig[e]])
  }

  ghost predicate IsRun(orig: seq<nat>, reserved: set<nat>, run: seq<Tables>, actions: seq<Action>) {
    && |run| == |actions| + 1
    && run[0] == Tables(orig, [], [])
    && forall i :: 0 <= i < |actions| ==>
         Legal(orig, reserved, run[i], actions[i]) && Acts(orig, run[i], actions[i], run[i + 1])
  }

  lemma ActionKeepsTracks(orig: seq<nat>, reserved: set<nat>, t: Tables, a: Action, next: Tables)
    requires Tracks(orig, t.p2m, t.taken, t.moved, reserved)
    requires Legal(orig, reserved, t, a) && Acts(orig, t, a, next)
    ensures Tracks(orig, next.p2m, next.taken, next.moved, reserved)
  {
    match a {
      case Grant(page) => RoundKeepsTracks(orig, t.p2m, t.taken, t.moved, reserved, page);
      case Swap(target, e) =>
        var source :| && 0 <= source < |t.p2m| && t.p2m[source] == orig[e]
                      && next == t.(p2m := t.p2m[source := t.p2m[target]][target := orig[e]]);
        ExchangeKeepsTracks(orig, t.p2m, t.taken, t.moved, reserved, source, target, e);
    }
  }

  /** Over every run, however allocations and exchanges alternate, the table stays a permutation
      of the original frames and every page not yet handed out can be found by its chain. */
  lemma {:induction false} RunPermutes(orig: seq<nat>, reserved: set<nat>, run: seq<Tables>, actions: seq<Action>, k: nat)
    requires NoRepeat(orig) && IsRun(orig, reserved, run, actions) && k < |run|
    ensures Tracks(orig, run[k].p2m, run[k].taken, run[k].moved, reserved)
    ensures multiset(run[k].p2m) == multiset(orig) && NoRepeat(run[k].p2m)
  {
    if k > 0 {
      RunPermutes(orig, reserved, run, actions, k - 1);
      ActionKeepsTracks(orig, reserved, run[k - 1], actions[k - 1], run[k]);
    }
    PermutationNoRepeat(orig, run[k].p2m);
  }

  // --------------------------------------- when a reserved page is handed out

  /** Handing out page `a` keeps a permutation if and only if its chain still ends at its frame. */
  lemma GrantExact(orig: seq<nat>, t: Tables, a: nat, next: Tables)
    requires NoRepeat(orig) && multiset(t.p2m) == multiset(orig) && Acts(orig, t, Grant(a), next)
    ensures multiset(next.p2m) == multiset(orig) <==> t.p2m[Home(t.moved, a)] == orig[a]
  {
    var i, d := |t.moved|, Home(t.moved, a);
    var swapped := t.p2m[d := t.p2m[i]][i := t.p2m[d]];
    MultisetSwap(t.p2m, d, i);
    assert next.p2m == swapped[i := orig[a]];
    assert multiset(next.p2m) == multiset(swapped) - multiset{t.p2m[d]} + multiset{orig[a]};
  }

  /** A run in which any page may be handed out, once, and any page exchanged. */
  predicate Allowed(orig: seq<nat>, t: Tables, a: Action) {
    match a
    case Grant(page) => |t.moved| < |orig| && page < |orig| && page !in t.taken
    case Swap(target, e) => target < |t.moved| && e < |orig|
  }

  ghost predicate IsFreeRun(orig: seq<nat>, run: seq<Tables>, actions: seq<Action>) {
    && |run| == |actions| + 1
    && run[0] == Tables(orig, [], [])
    && forall i :: 0 <= i < |actions| ==>
         Allowed(orig, run[i], actions[i]) && Acts(orig, run[i], actions[i], run[i + 1])
  }

  /** The pages exchanged by the first `k` actions. */
  function Swapped(actions: seq<Action>, k: nat): (r: set<nat>)
    requires k <= |actions|
  {
    set i | 0 <= i < k && actions[i].Swap? :: actions[i].e
  }

  /** No page is handed out after it was exchanged. */
  predicate Clean(actions: seq<Action>, k: nat)
    requires k <= |actions|
  {
    forall j :: 0 <= j < k && actions[j].Grant? ==> actions[j].page !in Swapped(actions, j)
  }

  /** No page is exchanged twice, and no two are brought to one slot. */
  predicate SwapsOnce(actions: seq<Action>) {
    forall i, j :: 0 <= i < j < |actions| && actions[i].Swap? && actions[j].Swap? ==>
      actions[i].e != actions[j].e && actions[i].target != actions[j].target
  }

  lemma TracksFewer(orig: seq<nat>, t: Tables, reserved: set<nat>, more: set<nat>)
    requires Tracks(orig, t.p2m, t.taken, t.moved, reserved) && reserved <= more
    ensures Tracks(orig, t.p2m, t.taken, t.moved, more)
  {
    forall x | Available(|orig|, t.taken, more, x)
      ensures Located(orig, t.p2m, t.moved, x)
    {
      assert Available(|orig|, t.taken, reserved, x);
    }
  }

  /** While no page is handed out after it was exchanged, the table stays a permutation. */
  lemma {:induction false} CleanPermutes(orig: seq<nat>, run: seq<Tables>, actions: seq<Action>, k: nat)
    requires NoRepeat(orig) && IsFreeRun(orig, run, actions) && k < |run| && Clean(actions, k)
    ensures Tracks(orig, run[k].p2m, run[k].taken, run[k].moved, Swapped(actions, k))
  {
    if k > 0 {
      assert Clean(actions, k - 1);
      CleanPermutes(orig, run, actions, k - 1);
      var s, s' := Swapped(actions, k - 1), Swapped(actions, k);
      TracksFewer(orig, run[k - 1], s, s');
      assert Allowed(orig, run[k - 1], actions[k - 1]);
      hide Tracks;
      assert actions[k - 1].Grant? ==> s == s';
      ActionKeepsTracks(orig, s', run[k - 1], actions[k - 1], run[k]);
    }
  }

  /** The frame of an exchanged page stays in the slot it was brought to. */
  ghost predicate Pinned(orig: seq<nat>, t: Tables, actions: seq<Action>, k: nat)
    requires k <= |actions|
  {
    forall i :: 0 <= i < k && actions[i].Swap? ==>
      && actions[i].target < |t.moved| && actions[i].target < |t.p2m| && actions[i].e < |orig|
      && t.p2m[actions[i].target] == orig[actions[i].e]
  }

  lemma {:induction false} StaysPinned(orig: seq<nat>, run: seq<Tables>, actions: seq<Action>, k: nat)
    requires NoRepeat(orig) && IsFreeRun(orig, run, actions) && k < |run| && SwapsOnce(actions)
    ensures Pinned(orig, run[k], actions, k)
  {
    if k > 0 {
      StaysPinned(orig, run, actions, k - 1);
      var t, t', a := run[k - 1], run[k], actions[k - 1];
      assert Allowed(orig, t, a) && Acts(orig, t, a, t');
      forall i | 0 <= i < k && actions[i].Swap?
        ensures && actions[i].target < |t'.moved| && actions[i].target < |t'.p2m| && actions[i].e < |orig|
                && t'.p2m[actions[i].target] == orig[actions[i].e]
      {
        if a.Swap? && i < k - 1 {
          assert orig[a.e] != orig[actions[i].e];
        }
      }
    }
  }

  /** Handing out an exchanged page loses a frame. */
  lemma DirtyGrantLoses(orig: seq<nat>, run: seq<Tables>, actions: seq<Action>, i: nat, k: nat)
    requires NoRepeat(orig) && IsFreeRun(orig, run, actions) && SwapsOnce(actions)
    requires i < k < |actions| && actions[i].Swap? && actions[k] == Grant(actions[i].e) && Clean(actions, k)
    ensures multiset(run[k + 1].p2m) != multiset(orig)
  {
    var t, e := run[k], actions[i].e;
    CleanPermutes(orig, run, actions, k);
    StaysPinned(orig, run, actions, k);
    PermutationNoRepeat(orig, t.p2m);
    assert Acts(orig, t, Grant(e), run[k + 1]);
    GrantExact(orig, t, e, run[k + 1]);
    assert t.p2m[actions[i].target] == orig[e];
  }

  lemma {:induction false} FirstDirty(actions: seq<Action>, k: nat) returns (j: nat)
    requires k <= |actions| && !Clean(actions, k)
    ensures j < k && Clean(actions, j) && actions[j].Grant? && actions[j].page in Swapped(actions, j)
  {
    if Clean(actions, k - 1) {
      j := k - 1;
    } else {
      j := FirstDirty(actions, k - 1);
    }
  }

  /** The table is a permutation throughout the run if and only if no page is handed out after it was
      exchanged. */
  lemma PermutesExactlyWhenClean(orig: seq<nat>, run: seq<Tables>, actions: seq<Action>)
    requires NoRepeat(orig) && IsFreeRun(orig, run, actions) && SwapsOnce(actions)
    ensures (forall k :: 0 <= k < |run| ==> multiset(run[k].p2m) == multiset(orig)) <==> Clean(actions, |actions|)
  {
    if Clean(actions, |actions|) {
      forall k | 0 <= k < |run|
        ensures multiset(run[k].p2m) == multiset(orig)
      {
        CleanPermutes(orig, run, actions, k);
      }
    } else {
      var j := FirstDirty(actions, |actions|);
      var i :| 0 <= i < j && actions[i].Swap? && actions[i].e == actions[j].page;
      DirtyGrantLoses(orig, run, actions, i, j);
    }
  }

  /** Such a run: the reserved page was exchanged, is handed out all the same, and a frame is lost. */
  lemma ReservedGrantLosesFrame() returns (run: seq<Tables>)
    ensures IsFreeRun([10, 11, 12], run, [Grant(2), Swap(0, 1), Grant(1)])
    ensures 12 !in run[3].p2m
  {
    var orig: seq<nat> := [10, 11, 12];
    var t0 := Tables(orig, [], []);
    var t1 := Tables([12, 11, 10], [2], [2]);
    var t2 := Tables([11, 12, 10], [2], [2]);
    var t3 := Tables([11, 11, 10], [2, 1], [2, 1]);
    assert t1.p2m == Exchanged(orig, 0, 2, 12);
    assert Acts(orig, t0, Grant(2), t1);
    assert t1.p2m[1] == orig[1] && t2 == t1.(p2m := t1.p2m[1 := t1.p2m[0]][0 := orig[1]]);
    assert Acts(orig, t1, Swap(0, 1), t2);
    assert Climbs(t2.moved, 1) && Home(t2.moved, 1) == 1;
    assert t3.p2m == Exchanged(t2.p2m, 1, 1, 11);
    assert t3.p2m == [11, 11, 10];
    run := [t0, t1, t2, t3];
  }

  /** Each page of a list of distinct available pages stays available while those before it go. */
  lemma NextGrant(n: nat, taken: seq<nat>, reserved: set<nat>, grants: seq<nat>, k: nat)
    requires k < |grants| && NoRepeat(grants)
    requires forall g :: g in grants ==> Available(n, taken, reserved, g)
    ensures Available(n, taken + grants[..k], reserved, grants[k])
  {
    assert grants[k] in grants;
  }

  // ------------------------------------------------------------------ the code

  class Builder {
    const orig: seq<nat>
    const reserved: set<nat>
    const p2m: array<nat>
    var pages: seq<nat>
    var pagesMfns: seq<nat>
    var movedTo: seq<nat>
    var mark: nat        // the global `allocated`

    ghost predicate Valid()
      reads this, p2m
    {
      && Tracks(orig, p2m[..], pages, movedTo, reserved)
      && mark == |pages| == |pagesMfns|
      && (forall j :: 0 <= j < |pages| ==> pages[j] < |orig| && pagesMfns[j] == orig[pages[j]])
      && NoRepeat(pages)
    }

    ghost predicate InPlace()
      reads this, p2m
    {
      Placed(orig, p2m[..], pages)
    }

    /** Lines 183-187: start from the current table. */
    constructor (orig: seq<nat>, reserved: set<nat>)
      requires NoRepeat(orig)
      ensures Valid() && InPlace() && this.orig == orig && this.reserved == reserved
      ensures pages == [] && p2m[..] == orig && fresh(p2m)
    {
      this.orig, this.reserved := orig, reserved;
      p2m := new nat[|orig|];
      pages, pagesMfns, movedTo, mark := [], [], [], 0;
      new;
      for i := 0 to p2m.Length
        invariant p2m[..i] == orig[..i]
        invariant fresh(p2m) && pages == [] && pagesMfns == [] && movedTo == [] && mark == 0
      {
        p2m[i] := orig[i];
      }
      assert p2m[..] == orig;
    }

    /** Lines 97-103: follow the chain to where the frame of `page` now lives. */
    method FindHome(page: nat) returns (slot: nat)
      requires Climbs(movedTo, page)
      ensures slot == Home(movedTo, page)
    {
      slot := page;
      while slot < |movedTo|
        invariant Climbs(movedTo, slot) && Home(movedTo, slot) == Home(movedTo, page)
        decreases |movedTo| - slot
      {
        slot := movedTo[slot];
      }
    }

    /** kexec_allocate; `grants` are the pages alloc_page returns, round by round. */
    method Allocate(newMark: nat, grants: seq<nat>)
      requires Valid() && mark <= newMark <= |orig|
      requires |grants| == newMark - mark && NoRepeat(grants)
      requires forall g :: g in grants ==> Available(|orig|, pages, reserved, g)
      modifies this, p2m
      ensures Valid() && mark == newMark && pages == old(pages) + grants
      ensures p2m[..old(mark)] == old(p2m[..mark])
      ensures multiset(p2m[..]) == multiset(orig)
      ensures old(InPlace()) ==> InPlace()
    {
      var first := mark;
      var i := first;
      while i < newMark
        invariant first <= i <= newMark && mark == first
        invariant Tracks(orig, p2m[..], pages, movedTo, reserved)
        invariant pages == old(pages) + grants[..i - first]
        invariant |pagesMfns| == |pages| == i
        invariant forall j :: 0 <= j < |pages| ==> pages[j] < |orig| && pagesMfns[j] == orig[pages[j]]
        invariant NoRepeat(pages)
        invariant p2m[..first] == old(p2m[..mark])
        invariant old(InPlace()) ==> InPlace()
      {
        NextGrant(|orig|, old(pages), reserved, grants, i - first);
        Round(grants[i - first]);
        i := i + 1;
      }
      mark := newMark;
    }

    /** One round of kexec_allocate. */
    method Round(a: nat)
      requires Tracks(orig, p2m[..], pages, movedTo, reserved)
      requires |pages| < |orig| && Available(|orig|, pages, reserved, a)
      modifies this`pages, this`pagesMfns, this`movedTo, p2m
      ensures Tracks(orig, p2m[..], pages, movedTo, reserved)
      ensures pages == old(pages) + [a] && pagesMfns == old(pagesMfns) + [orig[a]]
      ensures p2m[..|old(pages)|] == old(p2m[..|pages|])
      ensures old(InPlace()) ==> InPlace()
    {
      var i := |pages|;
      var oldMfn := p2m[i];
      RoundKeepsTracks(orig, p2m[..], pages, movedTo, reserved, a);
      var newPfn := FindHome(a);
      if InPlace() {
        RoundKeepsPlaced(orig, p2m[..], pages, newPfn, a);
      }
      ghost var expected := Exchanged(p2m[..], i, newPfn, orig[a]);
      pages := pages + [a];
      pagesMfns := pagesMfns + [orig[a]];
      movedTo := movedTo + [newPfn];
      p2m[newPfn] := oldMfn;
      p2m[i] := orig[a];
      assert p2m[..] == expected;
    }

    /** do_exchange: make the frame of reserved page `e` appear at `target`. */
    method Exchange(target: nat, e: nat)
      requires Valid() && target < mark
      requires e in reserved && e < |orig|
      modifies p2m
      ensures Valid() && p2m[target] == orig[e]
      ensures multiset(p2m[..]) == multiset(orig)
      ensures forall j :: 0 <= j < p2m.Length && j != target && old(p2m[j]) != orig[e] ==> p2m[j] == old(p2m[j])
    {
      ghost var before := p2m[..];
      assert orig[e] in multiset(orig);
      assert orig[e] in before;
      var source := 0;
      while p2m[source] != orig[e]
        invariant source < p2m.Length && p2m[..] == before
        invariant orig[e] in p2m[source..]
        decreases p2m.Length - source
      {
        assert p2m[source..] == [p2m[source]] + p2m[source + 1..];
        source := source + 1;
      }
      ExchangeKeepsTracks(orig, p2m[..], pages, movedTo, reserved, source, target, e);
      var targetMfn := p2m[target];
      p2m[source] := targetMfn;
      p2m[target] := orig[e];
      assert p2m[..] == before[source := before[target]][target := orig[e]];
    }

    /** Lines 211-223: the console, xenstore and boot frames go to their slots, and the pages up
        to the end of the boot page tables are allocated afterwards. */
    method PlaceReserved(consoleSlot: nat, storeSlot: nat, bootSlot: nat,
                         console: nat, store: nat, boot: nat,
                         upTo: nat, grants: seq<nat>)
      requires Valid()
      requires consoleSlot < mark && storeSlot < mark && bootSlot < mark
      requires consoleSlot != storeSlot && consoleSlot != bootSlot && storeSlot != bootSlot
      requires console != store && console != boot && store != boot
      requires {console, store, boot} <= reserved
      requires console < |orig| && store < |orig| && boot < |orig|
      requires mark <= upTo <= |orig| && |grants| == upTo - mark && NoRepeat(grants)
      requires forall g :: g in grants ==> Available(|orig|, pages, reserved, g)
      modifies this, p2m
      ensures Valid() && mark == upTo
      ensures multiset(p2m[..]) == multiset(orig)
      ensures p2m[consoleSlot] == orig[console]
      ensures p2m[storeSlot] == orig[store]
      ensures p2m[bootSlot] == orig[boot]
    {
      Exchange(consoleSlot, console);
      Exchange(storeSlot, store);
      Exchange(bootSlot, boot);
      ghost var placed := p2m[..mark];
      Allocate(upTo, grants);
      assert p2m[..|placed|] == placed;
      assert placed[consoleSlot] == p2m[consoleSlot];
    }
  }

  // ------------------------------------------------------ machine-to-physical

  /** The entries worth sending to the hypervisor: those that differ from the current table. */
  function Useful(p2m: seq<nat>, orig: seq<nat>, pfn: nat): (r: seq<(nat, nat)>)
    requires |p2m| == |orig| && pfn <= |p2m|
    decreases |p2m| - pfn
  {
    if pfn == |p2m| then []
    else (if p2m[pfn] != orig[pfn] then [(p2m[pfn], pfn)] else []) + Useful(p2m, orig, pfn + 1)
  }

  /** The hypervisor applies updates in order. */
  function Apply(m2p: map<nat, nat>, updates: seq<(nat, nat)>): map<nat, nat>
    decreases |updates|
  {
    if updates == [] then m2p
    else Apply(m2p[updates[0].0 := updates[0].1], updates[1..])
  }

  /** `m2p` inverts `p2m` on the entries below `k` and, elsewhere, the table `orig`. */
  ghost predicate InvertsUpTo(m2p: map<nat, nat>, p2m: seq<nat>, orig: seq<nat>, k: nat)
    requires |p2m| == |orig| && k <= |p2m|
  {
    && (forall j :: 0 <= j < k ==> p2m[j] in m2p && m2p[p2m[j]] == j)
    && (forall j :: k <= j < |p2m| && orig[j] == p2m[j] ==> orig[j] in m2p && m2p[orig[j]] == j)
  }

  lemma {:induction false} ApplyUseful(m2p: map<nat, nat>, p2m: seq<nat>, orig: seq<nat>, k: nat)
    requires |p2m| == |orig| && k <= |p2m| && NoRepeat(p2m)
    requires InvertsUpTo(m2p, p2m, orig, k)
    ensures InvertsUpTo(Apply(m2p, Useful(p2m, orig, k)), p2m, orig, |p2m|)
    decreases |p2m| - k
  {
    if k < |p2m| {
      if p2m[k] != orig[k] {
        var rest := Useful(p2m, orig, k + 1);
        assert Useful(p2m, orig, k) == [(p2m[k], k)] + rest;
        assert ([(p2m[k], k)] + rest)[1..] == rest;
        var next := m2p[p2m[k] := k];
        assert InvertsUpTo(next, p2m, orig, k + 1);
        ApplyUseful(next, p2m, orig, k + 1);
      } else {
        assert Useful(p2m, orig, k) == Useful(p2m, orig, k + 1);
        ApplyUseful(m2p, p2m, orig, k + 1);
      }
    }
  }

  /** Sending only the changed entries makes the machine-to-physical table the inverse of the
      new table, for any rearrangement of the frames. */
  lemma UpdateInverts(m2p: map<nat, nat>, p2m: seq<nat>, orig: seq<nat>)
    requires NoRepeat(orig) && |p2m| == |orig| && multiset(p2m) == multiset(orig)
    requires forall j :: 0 <= j < |orig| ==> orig[j] in m2p && m2p[orig[j]] == j
    ensures var m := Apply(m2p, Useful(p2m, orig, 0));
            forall j :: 0 <= j < |p2m| ==> p2m[j] in m && m[p2m[j]] == j
  {
    PermutationNoRepeat(orig, p2m);
    ApplyUseful(m2p, p2m, orig, 0);
  }

  /** Lines 291-294: how many entries there are. */
  method CountUpdates(p2m: seq<nat>, orig: seq<nat>) returns (count: nat)
    requires |p2m| == |orig|
    ensures count == |Useful(p2m, orig, 0)|
  {
    count := 0;
    for pfn := 0 to |p2m|
      invariant count + |Useful(p2m, orig, pfn)| == |Useful(p2m, orig, 0)|
    {
      if p2m[pfn] != orig[pfn] {
        count := count + 1;
      }
    }
  }

  lemma UsefulStep(p2m: seq<nat>, orig: seq<nat>, pfn: nat, done: seq<(nat, nat)>)
    requires |p2m| == |orig| && pfn < |p2m|
    ensures var more := if p2m[pfn] != orig[pfn] then [(p2m[pfn], pfn)] else [];
            done + Useful(p2m, orig, pfn) == (done + more) + Useful(p2m, orig, pfn + 1)
  {
  }

  /** Lines 296-302: fill a table of exactly that many entries. */
  method CollectUpdates(p2m: seq<nat>, orig: seq<nat>) returns (updates: array<(nat, nat)>)
    requires |p2m| == |orig|
    ensures updates[..] == Useful(p2m, orig, 0)
  {
    var count := CountUpdates(p2m, orig);
    updates := new (nat, nat)[count](_ => (0, 0));
    var i := 0;
    for pfn := 0 to |p2m|
      invariant i <= count == |Useful(p2m, orig, 0)|
      invariant updates[..i] + Useful(p2m, orig, pfn) == Useful(p2m, orig, 0)
    {
      ghost var done := updates[..i];
      UsefulStep(p2m, orig, pfn, done);
      if p2m[pfn] != orig[pfn] {
        assert |done + [(p2m[pfn], pfn)]| <= count;
        updates[i] := (p2m[pfn], pfn);
        i := i + 1;
        assert updates[..i] == done + [(p2m[pfn], pfn)];
      } else {
        assert done + [] == done;
      }
    }
    assert updates[..i] == updates[..];
  }
}
