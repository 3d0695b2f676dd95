/** The invariant of the vchan protocol and its preservation by every atomic step. */
module VchanInvariant {
  import opened Sequences
  import opened PowersOfTwo
  import opened Vchan

  // --------------------------------------------------------- stream content

  function Ready(q: RingState): int {
    |q.sent| - |q.rcvd|
  }

  function Space(q: RingState): int {
    q.Size() - Ready(q)
  }

  /** The indices are the history lengths modulo 2^32, what was consumed is a prefix of what
      was published, and every published unread byte still sits in its slot. */
  ghost predicate RingOk(q: Ring) {
    && q.prod == |q.sent| % TWO32
    && q.cons == |q.rcvd| % TWO32
    && q.rcvd <= q.sent
    && Ready(q) <= q.Size()
    && forall i :: |q.rcvd| <= i < |q.sent| ==> q.buf[i % q.Size()] == q.sent[i]
  }

  /** Exactly the first `pos` bytes of the running call have been published. */
  ghost predicate Published(w: Endpoint, q: Ring, pos: int) {
    && w.op.Writes() && 0 <= pos <= |w.op.data|
    && w.start + pos == |q.sent|
    && q.sent[w.start..] == w.op.data[..pos]
  }

  ghost predicate Copied(q: Ring, chunk: seq<Byte>, k: nat) {
    && k <= |chunk| <= Space(q)
    && forall j :: 0 <= j < k ==> q.buf[(|q.sent| + j) % q.Size()] == chunk[j]
  }

  ghost predicate WriterOk(w: Endpoint, q: Ring) {
    match w.pc
    case Writing(p) => Published(w, q, p.pos) && (p.Filling? ==> Copied(q, p.chunk, p.k))
    case Done(ret, _) => w.op.Writes() ==> WriteResult(w, q, ret)
    case _ => true
  }

  /** What the return value of a finished send or write says. */
  ghost predicate WriteResult(w: Endpoint, q: Ring, ret: int)
    requires w.op.Writes()
  {
    if ret == -1 then w.op.Send? && |w.op.data| > q.Size() && Published(w, q, 0)
    else
      && Published(w, q, ret)
      && (w.blocking ==> ret == |w.op.data|)
      && (w.op.Send? ==> ret == |w.op.data| || ret == 0)
  }

  /** The call has handed over exactly `got`, and `got` is what it consumed from the stream. */
  ghost predicate Delivered(r: Endpoint, q: Ring, got: seq<Byte>) {
    && r.op.Reads()
    && r.start + |got| == |q.rcvd|
    && got == q.rcvd[r.start..]
    && (r.op.Recv? ==> |got| == r.op.size)
    && (r.op.Read? ==> |got| <= r.op.size && (r.op.size > 0 ==> |got| > 0))
  }

  ghost predicate Drained(r: Endpoint, q: Ring, n: nat, got: seq<Byte>) {
    && r.op.Reads() && r.start == |q.rcvd|
    && |got| <= n <= Ready(q)
    && (r.op.Recv? ==> n == r.op.size)
    && (r.op.Read? && r.op.size > 0 ==> n > 0)
    && got == q.sent[|q.rcvd|..|q.rcvd| + |got|]
  }

  ghost predicate ReaderOk(r: Endpoint, q: Ring) {
    match r.pc
    case Reading(p) => ReadPhaseOk(r, p, q)
    case Done(ret, got) => r.op.Reads() ==> ReadResult(r, q, ret, got)
    case _ => true
  }

  ghost predicate ReadPhaseOk(r: Endpoint, p: ReadPhase, q: Ring) {
    match p
    case Draining(n, got) => Drained(r, q, n, got)
    case ClearRead(got) => Delivered(r, q, got)
    case PostRead(got) => Delivered(r, q, got)
    case _ => r.start == |q.rcvd|
  }

  /** What the return value of a finished recv or read says. */
  ghost predicate ReadResult(r: Endpoint, q: Ring, ret: int, got: seq<Byte>)
    requires r.op.Reads()
  {
    if ret == -1 then r.op.Recv? && r.op.size > q.Size() && r.start == |q.rcvd|
    else if !r.blocking && ret == 0 then |got| == 0 && r.start == |q.rcvd|
    else ret == |got| && Delivered(r, q, got)
  }

  ghost predicate StreamHalf(w: Endpoint, r: Endpoint, q: Ring) {
    RingOk(q) && WriterOk(w, q) && ReaderOk(r, q)
  }

  // --------------------------------------------------------- index arithmetic

  lemma RingSize(q: Ring)
    ensures 1024 <= q.Size() <= 0x10_0000
    ensures exists k: nat :: k > 0 && TWO32 == q.Size() * k
  {
    Pow2Monotone(10, q.order);
    Pow2Monotone(q.order, 20);
    Pow2Split(q.order, 32 - q.order);
    assert Pow2(10) == 1024;
    assert Pow2(20) == 0x10_0000 by { Pow2Split(10, 10); }
    assert Pow2(32) == TWO32 by { Pow2Split(20, 12); Pow2Split(10, 2); }
  }

  /** Subtracting 32-bit counters gives the true difference when that is small. */
  lemma CounterDifference(a: nat, b: nat)
    requires b <= a < b + TWO31
    ensures ToInt(a % TWO32 - b % TWO32) == a - b
  {
    var qa, qb := a / TWO32, b / TWO32;
    assert a % TWO32 - b % TWO32 == (a - b) - TWO32 * (qa - qb);
    assert (a % TWO32 - b % TWO32) % TWO32 == a - b;
  }

  lemma CounterSpace(size: nat, a: nat, b: nat)
    requires b <= a <= b + size < b + TWO31
    ensures ToInt(size - (a % TWO32 - b % TWO32)) == size - (a - b)
  {
    var qa, qb := a / TWO32, b / TWO32;
    assert a % TWO32 - b % TWO32 == (a - b) - TWO32 * (qa - qb);
    assert (size - (a % TWO32 - b % TWO32)) % TWO32 == size - (a - b);
  }

  /** The 32-bit differences the code computes are the true amounts, also across index wrap. */
  lemma SeenIsTrue(q: Ring)
    requires RingOk(q)
    ensures ReadySeen(q) == Ready(q) && 0 <= Ready(q) <= q.Size() < TWO31
    ensures SpaceSeen(q) == Space(q) && 0 <= Space(q) <= q.Size()
    ensures ToSize(ReadySeen(q)) == Ready(q) && ToSize(SpaceSeen(q)) == Space(q)
  {
    RingSize(q);
    CounterDifference(|q.sent|, |q.rcvd|);
    CounterSpace(q.Size(), |q.sent|, |q.rcvd|);
  }

  /** The two-part copy addresses the slot of stream position `total + j`. */
  lemma SlotIsPosition(q: Ring, total: nat, n: nat, j: nat)
    requires j < n <= q.Size()
    ensures SlotOf(total % TWO32, q.Size(), n, j) == (total + j) % q.Size()
    ensures 0 <= (total + j) % q.Size() < |q.buf|
  {
    RingSize(q);
    var size := q.Size();
    var k: nat :| k > 0 && TWO32 == size * k;
    ModOfMod(total, size, k);
    var a := total % size;
    assert total == size * (total / size) + a;
    if a + j < size {
      DivModUnique(total + j, size, total / size, a + j);
    } else {
      assert size * (total / size + 1) == size * (total / size) + size;
      DivModUnique(total + j, size, total / size + 1, a + j - size);
    }
  }

  lemma NextIndex(total: nat, n: nat)
    ensures (total % TWO32 + n) % TWO32 == (total + n) % TWO32
  {
  }

  // ------------------------------------------------- stream steps: the writer

  /** Copying one more byte of the chunk touches no unread byte and no copied byte. */
  lemma FillByte(q: Ring, chunk: seq<Byte>, k: nat) returns (slot: nat)
    requires RingOk(q) && Copied(q, chunk, k) && k < |chunk|
    ensures slot == SlotOf(q.prod, q.Size(), |chunk|, k) && slot < |q.buf|
    ensures forall i :: |q.rcvd| <= i < |q.sent| ==> i % q.Size() != slot
    ensures var q' := q.(buf := q.buf[slot := chunk[k]]);
            RingOk(q') && Copied(q', chunk, k + 1)
  {
    SlotIsPosition(q, |q.sent|, |chunk|, k);
    slot := SlotOf(q.prod, q.Size(), |chunk|, k);
    var p := |q.sent| + k;
    forall i | |q.rcvd| <= i < p
      ensures i % q.Size() != slot
    {
      ModDistinct(i, p, q.Size());
    }
    var q' := q.(buf := q.buf[slot := chunk[k]]);
    forall j | 0 <= j < k + 1
      ensures q'.buf[(|q'.sent| + j) % q'.Size()] == chunk[j]
    {
      if j < k {
        assert q.buf[(|q.sent| + j) % q.Size()] == chunk[j];
        assert (|q.sent| + j) % q.Size() != slot;
      }
    }
  }

  /** Publishing the producer index turns the copied chunk into stream content. */
  lemma PublishChunk(q: Ring, chunk: seq<Byte>)
    requires RingOk(q) && Copied(q, chunk, |chunk|)
    ensures RingOk(q.(prod := (q.prod + |chunk|) % TWO32, sent := q.sent + chunk))
  {
    NextIndex(|q.sent|, |chunk|);
    var q': Ring := q.(prod := (q.prod + |chunk|) % TWO32, sent := q.sent + chunk);
    forall i | |q'.rcvd| <= i < |q'.sent|
      ensures q'.buf[i % q'.Size()] == q'.sent[i]
    {
      if i >= |q.sent| {
        assert q.buf[(|q.sent| + (i - |q.sent|)) % q.Size()] == chunk[i - |q.sent|];
      }
    }
  }

  lemma ReaderKeepsOnFill(r: Endpoint, q: Ring, slot: nat, b: Byte)
    requires slot < |q.buf| && ReaderOk(r, q)
    ensures ReaderOk(r, q.(buf := q.buf[slot := b]))
  {
  }

  lemma ReaderKeepsOnPublish(r: Endpoint, q: Ring, q': Ring)
    requires ReaderOk(r, q) && q.rcvd <= q.sent && q.sent <= q'.sent
    requires q'.rcvd == q.rcvd && q'.order == q.order
    ensures ReaderOk(r, q')
  {
    if r.pc.Reading? && r.pc.r.Draining? {
      var n := |r.pc.r.got|;
      assert q'.sent[|q.rcvd|..|q.rcvd| + n] == q.sent[|q.rcvd|..|q.rcvd| + n];
    }
  }

  // ------------------------------------------------- stream steps: the reader

  /** Copying one more byte out delivers the next byte of the stream. */
  lemma DrainByte(q: Ring, n: nat, got: seq<Byte>)
    requires RingOk(q) && |got| < n <= Ready(q)
    requires got == q.sent[|q.rcvd|..|q.rcvd| + |got|]
    ensures var slot := SlotOf(q.cons, q.Size(), n, |got|);
            0 <= slot < |q.buf| && got + [q.buf[slot]] == q.sent[|q.rcvd|..|q.rcvd| + |got| + 1]
  {
    SlotIsPosition(q, |q.rcvd|, n, |got|);
    assert q.buf[(|q.rcvd| + |got|) % q.Size()] == q.sent[|q.rcvd| + |got|];
  }

  /** Publishing the consumer index turns the copied bytes into consumed ones. */
  lemma ConsumeChunk(q: Ring, got: seq<Byte>)
    requires RingOk(q) && |got| <= Ready(q)
    requires got == q.sent[|q.rcvd|..|q.rcvd| + |got|]
    ensures RingOk(q.(cons := (q.cons + |got|) % TWO32, rcvd := q.rcvd + got))
  {
    NextIndex(|q.rcvd|, |got|);
    assert q.rcvd + got == q.sent[..|q.rcvd| + |got|];
  }

  lemma WriterKeepsOnConsume(w: Endpoint, q: Ring, q': Ring)
    requires WriterOk(w, q) && |q.rcvd| <= |q'.rcvd|
    requires q'.sent == q.sent && q'.order == q.order && q'.buf == q.buf
    ensures WriterOk(w, q')
  {
  }

  // ------------------------------------------------------------------ wakeups

  /** The reader has published its index and not yet fetched the writer's bit. */
  predicate Consuming(r: Endpoint) { r.pc.Reading? && r.pc.r.ClearRead? }
  predicate PostingRead(r: Endpoint) { r.pc.Reading? && r.pc.r.PostRead? }
  predicate Publishing(w: Endpoint) { w.pc.Writing? && w.pc.w.ClearBit? }
  predicate PostingWrite(w: Endpoint) { w.pc.Writing? && w.pc.w.Post? }

  /** The writer asked, in this round, to be told when the reader consumes. */
  predicate Armed(p: WritePhase) {
    match p
    case SpaceFirst(_) => false
    case SpaceRequest(_) => false
    case SpaceReread(_) => true
    case _ => p.armed
  }

  /** The space there is if the reader has consumed nothing since the writer looked. */
  predicate SpaceAsSeen(p: WritePhase, q: Ring) {
    match p
    case Filling(_, chunk, _, _, left) => Space(q) == left + |chunk|
    case ClearBit(_, _, left) => Space(q) == left
    case Post(_, _, left) => Space(q) == left
    case Blocked(_, _, left) => Space(q) == left
    case _ => true
  }

  /** A request is answered by its bit, by a latched event, or by a peer about to post one;
      and while the bit stands, nothing has been consumed behind the writer's back except by
      a reader that has yet to look at the bit. */
  predicate WriterWake(w: Endpoint, r: Endpoint, q: Ring) {
    w.pc.Writing? && Armed(w.pc.w) ==>
      && (w.wantRead || w.pending || PostingRead(r))
      && (w.wantRead && !Consuming(r) ==> SpaceAsSeen(w.pc.w, q))
  }

  predicate ReaderArmed(p: ReadPhase) {
    p.ReadyReread? || (p.BlockedRead? && p.armed)
  }

  predicate ReaderWake(w: Endpoint, r: Endpoint, q: Ring) {
    r.pc.Reading? && ReaderArmed(r.pc.r) ==>
      && (r.wantWrite || r.pending || PostingWrite(w))
      && (r.pc.r.BlockedRead? && r.wantWrite && !Publishing(w) ==> Ready(q) == r.pc.r.left)
  }

  ghost predicate Half(w: Endpoint, r: Endpoint, q: Ring) {
    StreamHalf(w, r, q) && WriterWake(w, r, q) && ReaderWake(w, r, q)
  }

  ghost predicate Good(v: View) {
    && LocalShape(v.me) && LocalShape(v.peer)
    && Half(v.me, v.peer, v.out)
    && Half(v.peer, v.me, v.inp)
  }

  // --------------------------------------- the half a step is not concerned with

  predicate NotReading(e: Endpoint) {
    !e.pc.Reading? && (e.pc.Done? ==> !e.op.Reads())
  }

  predicate NotWriting(e: Endpoint) {
    !e.pc.Writing? && (e.pc.Done? ==> !e.op.Writes())
  }

  /** `e'` differs from `e` at most by what its peer may change: a bit cleared, an event latched. */
  predicate Touched(e: Endpoint, e': Endpoint) {
    && e'.pc == e.pc && e'.op == e.op && e'.blocking == e.blocking && e'.start == e.start
    && (e.pending ==> e'.pending)
  }

  lemma ReaderElsewhere(w: Endpoint, w': Endpoint, r: Endpoint, r': Endpoint, q: Ring)
    requires Half(w, r, q)
    requires Touched(w, w') && w'.wantRead == w.wantRead
    requires NotReading(r) && NotReading(r')
    ensures Half(w', r', q)
  {
  }

  lemma WriterElsewhere(w: Endpoint, w': Endpoint, r: Endpoint, r': Endpoint, q: Ring)
    requires Half(w, r, q)
    requires Touched(r, r') && r'.wantWrite == r.wantWrite
    requires NotWriting(w) && NotWriting(w')
    ensures Half(w', r', q)
  {
  }

  // ------------------------------------------------------- the writer moves

  lemma SendLooks(e: Endpoint, q: Ring, pos: nat, armed: bool)
    requires e.op.Send? && pos == 0 && Published(e, q, pos) && Space(q) >= 0
    requires armed || Space(q) >= |e.op.data|
    ensures var e' := e.(pc := AfterSpace(e, q.Size(), pos, Space(q), armed));
            && LocalShape(e') && NotReading(e') && WriterOk(e', q)
            && (e'.pc.Writing? ==> !e'.pc.w.SpaceReread? && Armed(e'.pc.w) == armed && SpaceAsSeen(e'.pc.w, q))
  {
    assert e.op.data[0..|e.op.data|] == e.op.data;
  }

  lemma WriteLooks(e: Endpoint, q: Ring, pos: nat, armed: bool)
    requires e.op.Write? && Published(e, q, pos) && Space(q) >= 0
    requires armed || Space(q) >= |e.op.data| - pos
    ensures var e' := e.(pc := AfterSpace(e, q.Size(), pos, Space(q), armed));
            && LocalShape(e') && NotReading(e') && WriterOk(e', q)
            && (e'.pc.Writing? ==> !e'.pc.w.SpaceReread? && Armed(e'.pc.w) == armed && SpaceAsSeen(e'.pc.w, q))
  {
  }

  lemma LookAtSpace(v: View, pos: nat, armed: bool)
    requires LocalShape(v.me) && Half(v.me, v.peer, v.out) && Space(v.out) >= 0
    requires v.me.pc == Writing(if armed then SpaceReread(pos) else SpaceFirst(pos))
    ensures var v' := SpaceLook(v, pos, Space(v.out), armed);
            LocalShape(v'.me) && NotReading(v'.me) && Half(v'.me, v.peer, v.out)
  {
    if armed || Space(v.out) >= |v.me.op.data| - pos {
      if v.me.op.Send? {
        SendLooks(v.me, v.out, pos, armed);
      } else {
        WriteLooks(v.me, v.out, pos, armed);
      }
    }
  }

  lemma AskForSpace(v: View, pos: nat)
    requires LocalShape(v.me) && Half(v.me, v.peer, v.out)
    requires v.me.pc == Writing(SpaceRequest(pos))
    ensures var e' := v.me.(wantRead := true, pc := Writing(SpaceReread(pos)));
            LocalShape(e') && Half(e', v.peer, v.out)
  {
  }

  /** Returning from do_send keeps whatever held of the request. */
  lemma ReturnFromSend(e: Endpoint, r: Endpoint, q: Ring, pos: nat, armed: bool, left: nat)
    requires LocalShape(e) && Half(e, r, q)
    requires e.pc == Writing(ClearBit(pos, armed, left)) || e.pc == Writing(Post(pos, armed, left))
    ensures var e' := e.(pc := AfterSend(e, pos, armed, left));
            LocalShape(e') && NotReading(e') && WriterOk(e', q) && WriterWake(e', r, q)
  {
  }

  lemma ClearWriteBit(v: View, pos: nat, armed: bool, left: nat)
    requires LocalShape(v.me) && Half(v.me, v.peer, v.out)
    requires v.me.pc == Writing(ClearBit(pos, armed, left))
    ensures var v' := WriteStep(v, v.me.pc.w);
            LocalShape(v'.me) && NotReading(v'.me) && Half(v'.me, v'.peer, v.out)
  {
    ReturnFromSend(v.me, v.peer, v.out, pos, armed, left);
    var v' := WriteStep(v, v.me.pc.w);
    assert ReaderOk(v'.peer, v.out);
  }

  lemma PostWriteEvent(v: View, pos: nat, armed: bool, left: nat)
    requires LocalShape(v.me) && Half(v.me, v.peer, v.out)
    requires v.me.pc == Writing(Post(pos, armed, left))
    ensures var v' := WriteStep(v, v.me.pc.w);
            LocalShape(v'.me) && NotReading(v'.me) && Half(v'.me, v'.peer, v.out)
  {
    ReturnFromSend(v.me, v.peer, v.out, pos, armed, left);
    var v' := WriteStep(v, v.me.pc.w);
    assert ReaderOk(v'.peer, v.out);
  }

  lemma WakeWriter(v: View, pos: nat, armed: bool, left: nat)
    requires LocalShape(v.me) && Half(v.me, v.peer, v.out)
    requires v.me.pc == Writing(Blocked(pos, armed, left))
    ensures var v' := WriteStep(v, v.me.pc.w);
            LocalShape(v'.me) && NotReading(v'.me) && Half(v'.me, v.peer, v.out)
  {
  }

  lemma FillStream(v: View, p: WritePhase) returns (slot: nat)
    requires StreamHalf(v.me, v.peer, v.out)
    requires v.me.pc == Writing(p) && p.Filling? && p.k < |p.chunk|
    ensures slot < |v.out.buf| && slot == SlotOf(v.out.prod, v.out.Size(), |p.chunk|, p.k)
    ensures var q' := v.out.(buf := v.out.buf[slot := p.chunk[p.k]]);
            && RingOk(q') && ReaderOk(v.peer, q') && Copied(q', p.chunk, p.k + 1)
            && Published(v.me, q', p.pos)
  {
    slot := FillByte(v.out, p.chunk, p.k);
    ReaderKeepsOnFill(v.peer, v.out, slot, p.chunk[p.k]);
  }

  lemma FillWake(v: View, p: WritePhase, slot: nat)
    requires WriterWake(v.me, v.peer, v.out) && ReaderWake(v.me, v.peer, v.out)
    requires v.me.pc == Writing(p) && p.Filling? && p.k < |p.chunk|
    requires slot < |v.out.buf| && slot == SlotOf(v.out.prod, v.out.Size(), |p.chunk|, p.k)
    ensures var v' := FillOrPublish(v, p.pos, p.chunk, p.k, p.armed, p.left);
            WriterWake(v'.me, v.peer, v'.out) && ReaderWake(v'.me, v.peer, v'.out)
  {
    hide SlotOf;
  }

  lemma FillChunk(v: View, p: WritePhase)
    requires LocalShape(v.me) && Half(v.me, v.peer, v.out)
    requires v.me.pc == Writing(p) && p.Filling? && p.k < |p.chunk|
    ensures var v' := FillOrPublish(v, p.pos, p.chunk, p.k, p.armed, p.left);
            LocalShape(v'.me) && NotReading(v'.me) && Half(v'.me, v.peer, v'.out)
  {
    hide RingOk, Copied, ReaderOk, WriterWake, ReaderWake, SlotOf;
    var slot := FillStream(v, p);
    FillWake(v, p, slot);
  }

  lemma PublishFilled(v: View, p: WritePhase)
    requires LocalShape(v.me) && StreamHalf(v.me, v.peer, v.out)
    requires v.me.pc == Writing(p) && p.Filling? && p.k == |p.chunk|
    ensures var v' := WriteStep(v, p);
            && LocalShape(v'.me) && NotReading(v'.me)
            && StreamHalf(v'.me, v.peer, v'.out)
            && Space(v'.out) == Space(v.out) - |p.chunk|
  {
    PublishChunk(v.out, p.chunk);
    var q' := WriteStep(v, p).out;
    assert v.me.op.data[..p.pos + |p.chunk|] == v.me.op.data[..p.pos] + p.chunk;
    assert q'.sent[v.me.start..] == v.out.sent[v.me.start..] + p.chunk;
    ReaderKeepsOnPublish(v.peer, v.out, q');
  }

  lemma PublishHalf(v: View, p: WritePhase)
    requires LocalShape(v.me) && Half(v.me, v.peer, v.out)
    requires v.me.pc == Writing(p) && p.Filling? && p.k == |p.chunk|
    ensures var v' := WriteStep(v, p);
            LocalShape(v'.me) && NotReading(v'.me) && Half(v'.me, v.peer, v'.out)
  {
    PublishFilled(v, p);
  }

  /** The writer's own direction after any step of a send or write. */
  lemma WriterHalf(v: View, p: WritePhase)
    requires LocalShape(v.me) && Half(v.me, v.peer, v.out) && v.me.pc == Writing(p)
    ensures var v' := WriteStep(v, p);
            LocalShape(v'.me) && NotReading(v'.me) && Half(v'.me, v'.peer, v'.out)
  {
    SeenIsTrue(v.out);
    match p {
      case SpaceFirst(pos) => LookAtSpace(v, pos, false);
      case SpaceRequest(pos) => AskForSpace(v, pos);
      case SpaceReread(pos) => LookAtSpace(v, pos, true);
      case Filling(_, chunk, k, _, _) =>
        if k < |chunk| {
          FillChunk(v, p);
        } else {
          PublishHalf(v, p);
        }
      case ClearBit(pos, armed, left) => ClearWriteBit(v, pos, armed, left);
      case Post(pos, armed, left) => PostWriteEvent(v, pos, armed, left);
      case Blocked(pos, armed, left) => WakeWriter(v, pos, armed, left);
    }
  }

  lemma WriterFrame(v: View, p: WritePhase)
    requires v.me.op.Writes() && p.pos <= |v.me.op.data|
    ensures var v' := WriteStep(v, p);
            v'.inp == v.inp && Touched(v.peer, v'.peer) && v'.peer.wantRead == v.peer.wantRead
  {
  }

  lemma WriterMoved(v: View, v': View)
    requires Good(v) && v.me.pc.Writing?
    requires LocalShape(v'.me) && NotReading(v'.me) && Half(v'.me, v'.peer, v'.out)
    requires v'.inp == v.inp && Touched(v.peer, v'.peer) && v'.peer.wantRead == v.peer.wantRead
    ensures Good(v')
  {
    ReaderElsewhere(v.peer, v'.peer, v.me, v'.me, v.inp);
  }

  lemma WriterStepKeeps(v: View, p: WritePhase)
    requires Good(v) && v.me.pc == Writing(p)
    ensures Good(WriteStep(v, p))
  {
    WriterHalf(v, p);
    WriterFrame(v, p);
    WriterMoved(v, WriteStep(v, p));
  }

  // ------------------------------------------------------- the reader moves

  lemma ReceiverLooks(e: Endpoint, q: Ring, armed: bool)
    requires e.op.Reads() && e.start == |q.rcvd| <= |q.sent|
    requires if armed then e.op.size > 0 else Ready(q) >= e.op.size
    ensures var e' := e.(pc := AfterReady(e, q.Size(), Ready(q), armed));
            && LocalShape(e') && NotWriting(e') && ReaderOk(e', q)
            && (e'.pc.Reading? ==> !e'.pc.r.ReadyReread? && (e'.pc.r.BlockedRead? ==> e'.pc.r.left == Ready(q)))
            && (e'.pc.Reading? && ReaderArmed(e'.pc.r) ==> armed)
  {
    assert q.sent[|q.rcvd|..|q.rcvd| + 0] == [];
  }

  lemma LookAtData(v: View, armed: bool)
    requires LocalShape(v.me) && Half(v.peer, v.me, v.inp) && Ready(v.inp) >= 0
    requires v.me.pc == Reading(if armed then ReadyReread else ReadyFirst)
    ensures var v' := ReadyLook(v, Ready(v.inp), armed);
            LocalShape(v'.me) && NotWriting(v'.me) && Half(v.peer, v'.me, v.inp)
  {
    if armed || Ready(v.inp) >= v.me.op.size {
      ReceiverLooks(v.me, v.inp, armed);
    }
  }

  lemma AskForData(v: View)
    requires LocalShape(v.me) && Half(v.peer, v.me, v.inp)
    requires v.me.pc == Reading(ReadyRequest)
    ensures var e' := v.me.(wantWrite := true, pc := Reading(ReadyReread));
            LocalShape(e') && Half(v.peer, e', v.inp)
  {
  }

  lemma DrainChunk(v: View, n: nat, got: seq<Byte>)
    requires LocalShape(v.me) && Half(v.peer, v.me, v.inp)
    requires v.me.pc == Reading(Draining(n, got)) && |got| < n
    ensures var v' := DrainOrConsume(v, n, got);
            LocalShape(v'.me) && NotWriting(v'.me) && Half(v.peer, v'.me, v.inp)
  {
    DrainByte(v.inp, n, got);
  }

  lemma ConsumeDrained(v: View, n: nat, got: seq<Byte>)
    requires LocalShape(v.me) && StreamHalf(v.peer, v.me, v.inp)
    requires v.me.pc == Reading(Draining(n, got)) && |got| == n
    ensures var v' := DrainOrConsume(v, n, got);
            && LocalShape(v'.me) && NotWriting(v'.me)
            && StreamHalf(v.peer, v'.me, v'.inp)
            && Ready(v'.inp) == Ready(v.inp) - n
  {
    ConsumeChunk(v.inp, got);
    var q' := DrainOrConsume(v, n, got).inp;
    assert q'.rcvd[v.me.start..] == got;
    WriterKeepsOnConsume(v.peer, v.inp, q');
  }

  lemma ConsumeHalf(v: View, n: nat, got: seq<Byte>)
    requires LocalShape(v.me) && Half(v.peer, v.me, v.inp)
    requires v.me.pc == Reading(Draining(n, got)) && |got| == n
    ensures var v' := DrainOrConsume(v, n, got);
            LocalShape(v'.me) && NotWriting(v'.me) && Half(v.peer, v'.me, v'.inp)
  {
    ConsumeDrained(v, n, got);
  }

  lemma ClearReadBit(v: View, got: seq<Byte>)
    requires LocalShape(v.me) && Half(v.peer, v.me, v.inp)
    requires v.me.pc == Reading(ClearRead(got))
    ensures var v' := ReadStep(v, v.me.pc.r);
            LocalShape(v'.me) && NotWriting(v'.me) && Half(v'.peer, v'.me, v.inp)
  {
    var v' := ReadStep(v, v.me.pc.r);
    assert WriterOk(v'.peer, v.inp);
    assert ReaderOk(v'.me, v.inp);
  }

  lemma PostReadEvent(v: View, got: seq<Byte>)
    requires LocalShape(v.me) && Half(v.peer, v.me, v.inp)
    requires v.me.pc == Reading(PostRead(got))
    ensures var v' := ReadStep(v, v.me.pc.r);
            LocalShape(v'.me) && NotWriting(v'.me) && Half(v'.peer, v'.me, v.inp)
  {
    var v' := ReadStep(v, v.me.pc.r);
    assert WriterOk(v'.peer, v.inp);
    assert ReaderOk(v'.me, v.inp);
  }

  lemma WakeReader(v: View, p: ReadPhase)
    requires LocalShape(v.me) && Half(v.peer, v.me, v.inp)
    requires v.me.pc == Reading(p) && p.BlockedRead?
    ensures var v' := ReadStep(v, p);
            LocalShape(v'.me) && NotWriting(v'.me) && Half(v.peer, v'.me, v.inp)
  {
  }

  /** The reader's own direction after any step of a recv or read. */
  lemma ReaderHalf(v: View, p: ReadPhase)
    requires LocalShape(v.me) && Half(v.peer, v.me, v.inp) && v.me.pc == Reading(p)
    ensures var v' := ReadStep(v, p);
            LocalShape(v'.me) && NotWriting(v'.me) && Half(v'.peer, v'.me, v'.inp)
  {
    SeenIsTrue(v.inp);
    match p {
      case ReadyFirst => LookAtData(v, false);
      case ReadyRequest => AskForData(v);
      case ReadyReread => LookAtData(v, true);
      case Draining(n, got) =>
        if |got| < n {
          DrainChunk(v, n, got);
        } else {
          ConsumeHalf(v, n, got);
        }
      case ClearRead(got) => ClearReadBit(v, got);
      case PostRead(got) => PostReadEvent(v, got);
      case BlockedRead(_, _) => WakeReader(v, p);
    }
  }

  lemma ReaderFrame(v: View, p: ReadPhase)
    requires v.me.op.Reads()
    ensures var v' := ReadStep(v, p);
            v'.out == v.out && Touched(v.peer, v'.peer) && v'.peer.wantWrite == v.peer.wantWrite
  {
  }

  lemma ReaderMoved(v: View, v': View)
    requires Good(v) && v.me.pc.Reading?
    requires LocalShape(v'.me) && NotWriting(v'.me) && Half(v'.peer, v'.me, v'.inp)
    requires v'.out == v.out && Touched(v.peer, v'.peer) && v'.peer.wantWrite == v.peer.wantWrite
    ensures Good(v')
  {
    WriterElsewhere(v.me, v'.me, v.peer, v'.peer, v.out);
  }

  lemma ReaderStepKeeps(v: View, p: ReadPhase)
    requires Good(v) && v.me.pc == Reading(p)
    ensures Good(ReadStep(v, p))
  {
    ReaderHalf(v, p);
    ReaderFrame(v, p);
    ReaderMoved(v, ReadStep(v, p));
  }

  // ------------------------------------------------------------ the other steps

  lemma IdleMoved(v: View, e': Endpoint)
    requires Good(v) && LocalShape(e')
    requires !v.me.pc.Writing? && !v.me.pc.Reading?
    requires e'.pc.Idle? || e'.pc.Querying? || (e'.pc.Done? && !e'.op.Writes() && !e'.op.Reads())
    ensures Good(v.(me := e'))
  {
  }

  lemma QueryStepKeeps(v: View, p: QueryPhase)
    requires Good(v) && v.me.pc == Querying(p)
    ensures Good(QueryStep(v, p))
  {
    IdleMoved(v, QueryStep(v, p).me);
  }

  lemma BeginKeeps(v: View, op: Op, blocking: bool)
    requires Good(v) && v.me.pc.Idle?
    ensures Good(Begin(v, op, blocking))
  {
    assert v.out.sent[|v.out.sent|..] == [];
  }

  /** Every atomic step of either endpoint keeps the invariant. */
  lemma StepKeeps(v: View, c: Choice)
    requires Good(v)
    ensures Good(StepView(v, c))
  {
    match c {
      case Call(op, blocking) =>
        if v.me.pc.Idle? {
          BeginKeeps(v, op, blocking);
        }
      case Proceed =>
        match v.me.pc {
          case Idle =>
          case Done(_, _) => IdleMoved(v, v.me.(pc := Idle));
          case Writing(p) => WriterStepKeeps(v, p);
          case Reading(p) => ReaderStepKeeps(v, p);
          case Querying(p) => QueryStepKeeps(v, p);
        }
    }
  }
}
