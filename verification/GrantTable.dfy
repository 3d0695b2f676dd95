/** The grant table of Mini-OS (extras/mini-os/gnttab.c): a free list threaded through an array, a
semaphore that counts it, and the release of a grant against a remote domain that may be using it. */
module GrantTable {
  import opened Sequences

  const ENTRIES: nat := 2048           // NR_GRANT_ENTRIES
  const RESERVED: nat := 8             // NR_RESERVED_ENTRIES

  // ---------------------------------------------------------------- free list

  function At(free: seq<nat>, i: nat): nat {
    if i < |free| then free[i] else 0
  }

  predicate LinkAt(list: seq<nat>, free: seq<nat>, i: nat)
    requires i < |free| && free[i] < |list|
  {
    list[free[i]] == At(free, i + 1)
  }

  /** From entry 0 the list leads through `free`, each reference once, and ends. */
  predicate Chain(list: seq<nat>, free: seq<nat>) {
    && |list| == ENTRIES && (forall i :: 0 <= i < |free| ==> RESERVED <= free[i] < ENTRIES)
    && NoRepeat(free)
    && list[0] == At(free, 0) && forall i :: 0 <= i < |free| ==> LinkAt(list, free, i)
  }

  function Pushed(list: seq<nat>, ref: nat): seq<nat>
    requires |list| == ENTRIES && ref < ENTRIES
  {
    list[ref := list[0]][0 := ref]
  }

  function Popped(list: seq<nat>): seq<nat>
    requires |list| == ENTRIES && list[0] < ENTRIES
  {
    list[0 := list[list[0]]]
  }

  lemma PushChain(list: seq<nat>, free: seq<nat>, ref: nat)
    requires Chain(list, free) && RESERVED <= ref < ENTRIES && ref !in free
    ensures Chain(Pushed(list, ref), [ref] + free)
  {
    var list', free' := Pushed(list, ref), [ref] + free;
    forall i | 0 <= i < |free'|
      ensures LinkAt(list', free', i)
    {
      assert i > 0 ==> LinkAt(list, free, i - 1);
    }
  }

  lemma PopChain(list: seq<nat>, free: seq<nat>)
    requires Chain(list, free) && free != []
    ensures list[0] == free[0] && Chain(Popped(list), free[1..])
  {
    assert LinkAt(list, free, 0);
    var list', free' := Popped(list), free[1..];
    forall i | 0 <= i < |free'|
      ensures LinkAt(list', free', i)
    {
      assert LinkAt(list, free, i + 1);
    }
  }

  class FreeList {
    var list: seq<nat>
    ghost var free: seq<nat>

    /** put_free_entry, without the semaphore. */
    method Put(ref: nat)
      requires Chain(list, free) && RESERVED <= ref < ENTRIES && ref !in free
      modifies this
      ensures Chain(list, free) && free == [ref] + old(free) && list == Pushed(old(list), ref)
    {
      PushChain(list, free, ref);
      list := list[ref := list[0]];
      list := list[0 := ref];
      free := [ref] + free;
    }

    /** get_free_entry, past the semaphore: the reference is never out of bounds. */
    method Get() returns (ref: nat)
      requires Chain(list, free) && free != []
      modifies this
      ensures RESERVED <= ref < ENTRIES && old(free) == [ref] + free
      ensures Chain(list, free) && list == Popped(old(list))
    {
      PopChain(list, free);
      ref := list[0];
      list := list[0 := list[ref]];
      free := free[1..];
    }

    /** The free-list part of init_gnttab. */
    constructor ()
      ensures Chain(list, free) && |free| == ENTRIES - RESERVED
      ensures forall ref :: RESERVED <= ref < ENTRIES ==> ref in free
    {
      list := seq(ENTRIES, _ => 0);
      free := [];
      new;
      for i := RESERVED to ENTRIES
        invariant Chain(list, free) && |free| == i - RESERVED
        invariant forall ref :: ref in free <==> RESERVED <= ref < i
      {
        Put(i);
      }
    }
  }

  // ------------------------------------------------------------------- states

  /** GTF_permit_access, GTF_readonly, GTF_reading and GTF_writing. */
  datatype Flags = Flags(permit: bool, readonly: bool, reading: bool, writing: bool)

  const NONE := Flags(false, false, false, false)

  /** Who has a reference: nobody, a thread that has yet to grant it, the remote domain, a thread
      that is ending the grant and has read these flags, or a thread that has ended it. */
  datatype Status = Free | Taken | Granted | Ending(seen: Flags) | Ended

  datatype State = State(
    list: seq<nat>,
    count: int,                       // gnttab_sem
    takers: nat,                      // threads past the semaphore and before the list
    givers: nat,                      // threads past the list and before the semaphore
    flags: seq<Flags>,
    status: seq<Status>,
    free: seq<nat>)                   // ghost: the free references in list order

  datatype Step =
    | Down
    | Pop
    | Grant(ref: nat, readonly: bool)
    | RemoteMap(ref: nat, write: bool)
    | RemoteUnmap(ref: nat)
    | EndStart(ref: nat)
    | EndTry(ref: nat)
    | Push(ref: nat)
    | Up

  predicate IsRef(ref: int) {
    RESERVED <= ref < ENTRIES
  }

  predicate Shape(s: State) {
    |s.list| == |s.flags| == |s.status| == ENTRIES
  }

  predicate Busy(f: Flags) {
    f.reading || f.writing
  }

  predicate Enabled(s: State, step: Step)
    requires Shape(s)
  {
    match step
    case Down => s.count > 0
    case Pop => s.takers > 0
    case Grant(ref, _) => IsRef(ref) && s.status[ref] == Taken
    case RemoteMap(ref, write) => ref < ENTRIES && s.flags[ref].permit && !(write && s.flags[ref].readonly)
    case RemoteUnmap(ref) => ref < ENTRIES && Busy(s.flags[ref])
    case EndStart(ref) => IsRef(ref) && s.status[ref] == Granted
    case EndTry(ref) => IsRef(ref) && s.status[ref].Ending?
    case Push(ref) => IsRef(ref) && s.status[ref] == Ended
    case Up => s.givers > 0
  }

  /** One turn of the loop of gnttab_end_access: give up while the remote domain uses the grant, and
      clear the flags only if they are still what was read. */
  function TryStep(s: State, ref: nat): State
    requires Shape(s) && IsRef(ref) && s.status[ref].Ending?
  {
    var seen := s.status[ref].seen;
    if Busy(seen) then s.(status := s.status[ref := Granted])
    else if s.flags[ref] == seen then s.(flags := s.flags[ref := NONE], status := s.status[ref := Ended])
    else s.(status := s.status[ref := Ending(s.flags[ref])])
  }

  /** A reference out of bounds would be a BUG. */
  function PopStep(s: State): State
    requires Shape(s) && s.takers > 0
  {
    var ref := s.list[0];
    if IsRef(ref) then
      s.(list := Popped(s.list), takers := s.takers - 1, status := s.status[ref := Taken],
         free := if s.free == [] then [] else s.free[1..])
    else s
  }

  function Next(s: State, step: Step): State
    requires Shape(s) && Enabled(s, step)
  {
    match step
    case Down => s.(count := s.count - 1, takers := s.takers + 1)
    case Pop => PopStep(s)
    case Grant(ref, ro) =>
      s.(flags := s.flags[ref := Flags(true, ro, false, false)], status := s.status[ref := Granted])
    case RemoteMap(ref, write) =>
      s.(flags := s.flags[ref := s.flags[ref].(reading := true, writing := s.flags[ref].writing || write)])
    case RemoteUnmap(ref) => s.(flags := s.flags[ref := s.flags[ref].(reading := false, writing := false)])
    case EndStart(ref) => s.(status := s.status[ref := Ending(s.flags[ref])])
    case EndTry(ref) => TryStep(s, ref)
    case Push(ref) =>
      s.(list := Pushed(s.list, ref), givers := s.givers + 1, status := s.status[ref := Free], free := [ref] + s.free)
    case Up => s.(count := s.count + 1, givers := s.givers - 1)
  }

  /** The state init_gnttab leaves: every reference free and counted. */
  ghost predicate Init(s: State) {
    && Shape(s) && Chain(s.list, s.free) && s.count == |s.free| && s.takers == s.givers == 0
    && (forall ref :: 0 <= ref < ENTRIES ==> s.flags[ref] == NONE && s.status[ref] == Free)
    && (forall ref :: IsRef(ref) ==> ref in s.free)
  }

  // --------------------------------------------------------------- invariants

  /** The chain holds exactly the free references, and the settled count is its length. */
  ghost predicate Counted(s: State)
    requires Shape(s)
  {
    && Chain(s.list, s.free) && |s.free| == s.count + s.takers + s.givers && s.count >= 0
    && forall ref :: IsRef(ref) ==> (ref in s.free <==> s.status[ref] == Free)
  }

  /** Nothing is permitted unless it is granted. */
  predicate Guarded(s: State)
    requires Shape(s)
  {
    forall ref :: 0 <= ref < ENTRIES && (s.status[ref].Free? || s.status[ref].Taken? || s.status[ref].Ended?) ==>
      s.flags[ref] == NONE
  }

  ghost predicate Inv(s: State) {
    Shape(s) && Counted(s) && Guarded(s)
  }

  lemma CountedKept(s: State, step: Step)
    requires Inv(s) && Enabled(s, step)
    ensures Shape(Next(s, step)) && Counted(Next(s, step))
  {
    if step.Pop? {
      PopChain(s.list, s.free);
      assert s.free == [s.free[0]] + s.free[1..];
    } else if step.Push? {
      PushChain(s.list, s.free, step.ref);
    }
    hide Chain;
  }

  lemma GuardedKept(s: State, step: Step)
    requires Inv(s) && Enabled(s, step)
    ensures Shape(Next(s, step)) && Guarded(Next(s, step))
  {
    if step.Pop? {
      PopChain(s.list, s.free);
      assert s.free[0] in s.free;
    }
    hide Chain;
  }

  ghost predicate Run(states: seq<State>, steps: seq<Step>) {
    && |states| == |steps| + 1 && Init(states[0])
    && forall i :: 0 <= i < |steps| ==>
         Shape(states[i]) && Enabled(states[i], steps[i]) && states[i + 1] == Next(states[i], steps[i])
  }

  ghost predicate Reachable(s: State) {
    exists states, steps :: Run(states, steps) && s == states[|steps|]
  }

  lemma {:induction false} RunInv(states: seq<State>, steps: seq<Step>, k: nat)
    requires Run(states, steps) && k <= |steps|
    ensures Inv(states[k])
  {
    if k > 0 {
      RunInv(states, steps, k - 1);
      hide Next, Enabled, Counted, Guarded;
      CountedKept(states[k - 1], steps[k - 1]);
      GuardedKept(states[k - 1], steps[k - 1]);
    }
  }

  lemma ReachableInv(s: State)
    requires Reachable(s)
    ensures Inv(s)
  {
    var states, steps :| Run(states, steps) && s == states[|steps|];
    RunInv(states, steps, |steps|);
  }

  /** In every run the list is an acyclic chain of exactly the unused references, as long as the
      settled count; so a thread past the semaphore always gets a proper reference that nobody has. */
  lemma FreeListExact(s: State)
    requires Reachable(s)
    ensures Shape(s) && Chain(s.list, s.free) && |s.free| == s.count + s.takers + s.givers
    ensures forall ref :: IsRef(ref) ==> (ref in s.free <==> s.status[ref] == Free)
    ensures s.takers > 0 ==> IsRef(s.list[0]) && s.status[s.list[0]] == Free
  {
    hide Reachable;
    ReachableInv(s);
    if s.takers > 0 {
      PopChain(s.list, s.free);
      assert s.free[0] in s.free;
    }
  }

  /** A grant ends only at an instant at which the remote domain was neither reading nor writing, and
      from then until it is granted again the remote domain can do neither. */
  lemma EndIsSafe(s: State, ref: nat)
    requires Reachable(s) && IsRef(ref)
    ensures Shape(s)
    ensures Enabled(s, EndTry(ref)) && Next(s, EndTry(ref)).status[ref] == Ended ==> !Busy(s.flags[ref])
    ensures s.status[ref].Free? || s.status[ref].Taken? || s.status[ref].Ended? ==>
              !Busy(s.flags[ref]) && forall write :: !Enabled(s, RemoteMap(ref, write))
  {
    hide Reachable, Chain;
    ReachableInv(s);
  }
}
