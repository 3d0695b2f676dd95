/** The inter-domain byte channel of tools/libvchan/io.c.

Two endpoints share two single-producer/single-consumer rings with free-running
32-bit indices, one notification byte for each side and one event channel. Every
access to shared memory is one atomic step, and a schedule lets the two endpoints
take steps in any order. */
module Vchan {
  import opened Sequences
  import opened PowersOfTwo

  const TWO32: int := 0x1_0000_0000
  const TWO31: int := 0x8000_0000
  const TWO64: int := 0x1_0000_0000_0000_0000

  // ------------------------------------------------------------------ rings

  /** One direction. `prod`, `cons` and `buf` are the shared memory; `sent` and `rcvd`
      are the whole history of bytes published by the writer and consumed by the reader. */
  datatype RingState = RingState(
    order: nat, prod: nat, cons: nat, buf: seq<Byte>,
    sent: seq<Byte>, rcvd: seq<Byte>)
  {
    function Size(): (r: nat)
      ensures r >= 1
    {
      Pow2(order)
    }
  }

  ghost predicate RingShape(q: RingState) {
    && 10 <= q.order <= 20
    && |q.buf| == q.Size()
    && q.prod < TWO32
    && q.cons < TWO32
  }

  type Ring = q: RingState | RingShape(q)
    ghost witness RingState(10, 0, 0, seq(Pow2(10), _ => 0), [], [])

  /** The value of a `uint32_t` read into an `int`. */
  function ToInt(x: int): int {
    var u := x % TWO32;
    if u < TWO31 then u else u - TWO32
  }

  /** The value of an `int` compared with or stored into a `size_t`. */
  function ToSize(x: int): (r: nat)
    requires -TWO31 <= x < TWO31
  {
    if x >= 0 then x else x + TWO64
  }

  /** `rd_prod - rd_cons`. */
  function ReadySeen(q: RingState): (r: int)
    ensures -TWO31 <= r < TWO31
  {
    ToInt(q.prod - q.cons)
  }

  /** `wr_ring_size - (wr_prod - wr_cons)`. */
  function SpaceSeen(q: RingState): (r: int)
    ensures -TWO31 <= r < TWO31
  {
    ToInt(q.Size() - (q.prod - q.cons))
  }

  function Min(a: nat, b: nat): nat {
    if a <= b then a else b
  }

  /** Where byte `j` of an `n`-byte transfer starting at index `idx` lives: the first copy
      runs to the end of the ring, the second one starts over at its beginning. */
  function SlotOf(idx: nat, size: nat, n: nat, j: nat): (r: int)
    requires size > 0
  {
    var realIdx := idx % size;
    var contig := Min(size - realIdx, n);
    if j < contig then realIdx + j else j - contig
  }

  // -------------------------------------------------------------- endpoints

  datatype Op =
    | Send(data: seq<Byte>)     // libxenvchan_send
    | Write(data: seq<Byte>)    // libxenvchan_write
    | Recv(size: nat)           // libxenvchan_recv
    | Read(size: nat)           // libxenvchan_read
    | DataReady                 // libxenvchan_data_ready
    | BufferSpace               // libxenvchan_buffer_space
    | Wait                      // libxenvchan_wait called by the application
  {
    predicate Writes() { Send? || Write? }
    predicate Reads() { Recv? || Read? }
  }

  /** Where a send or write is, with the locals it holds there. `pos` bytes of the data are
      published; `armed` says that this round of the call posted a notification request;
      `left` is the space the last index read showed, less what was published since. */
  datatype WritePhase =
    | SpaceFirst(pos: nat)      // fast_get_buffer_space
    | SpaceRequest(pos: nat)
    | SpaceReread(pos: nat)
    | Filling(pos: nat, chunk: seq<Byte>, k: nat, armed: bool, left: nat)   // do_send
    | ClearBit(pos: nat, armed: bool, left: nat)                            // send_notify
    | Post(pos: nat, armed: bool, left: nat)
    | Blocked(pos: nat, armed: bool, left: nat)                             // libxenvchan_wait

  /** Where a recv or read is; `got` is what it has copied out. */
  datatype ReadPhase =
    | ReadyFirst                // fast_get_data_ready
    | ReadyRequest
    | ReadyReread
    | Draining(n: nat, got: seq<Byte>)     // do_recv
    | ClearRead(got: seq<Byte>)            // send_notify
    | PostRead(got: seq<Byte>)
    | BlockedRead(armed: bool, left: nat)  // libxenvchan_wait

  /** Where libxenvchan_data_ready, libxenvchan_buffer_space or libxenvchan_wait is. */
  datatype QueryPhase = ReadyAsk | ReadyTell | SpaceAsk | SpaceTell | Waiting

  datatype PC =
    | Idle
    | Done(ret: int, got: seq<Byte>)
    | Writing(w: WritePhase)
    | Reading(r: ReadPhase)
    | Querying(q: QueryPhase)

  /** `wantWrite` and `wantRead` are the bits VCHAN_NOTIFY_WRITE and VCHAN_NOTIFY_READ that
      this endpoint sets and its peer fetches and clears; `pending` is the latched event;
      `start` is the length of the history of the ring it uses when the call began. */
  datatype Endpoint = Endpoint(
    pc: PC, op: Op, blocking: bool, start: nat,
    wantWrite: bool, wantRead: bool, pending: bool)

  /** One endpoint's view of the shared state: it writes `out` and reads `inp`. */
  datatype View = View(me: Endpoint, peer: Endpoint, out: Ring, inp: Ring)

  // ------------------------------------------------------------------ steps

  /** What a sender does with the space it saw. */
  function AfterSpace(e: Endpoint, size: nat, pos: nat, avail: nat, armed: bool): PC
    requires e.op.Writes() && pos <= |e.op.data|
  {
    var data := e.op.data;
    if e.op.Send? then
      if |data| <= avail then Writing(Filling(0, data, 0, armed, avail - |data|))
      else if !e.blocking then Done(0, [])
      else if |data| > size then Done(-1, [])
      else Writing(Blocked(pos, armed, avail))
    else
      var n := Min(avail, |data| - pos);
      if n > 0 then Writing(Filling(pos, data[pos..pos + n], 0, armed, avail - n))
      else if !e.blocking || pos == |data| then Done(pos, [])
      else Writing(Blocked(pos, armed, avail))
  }

  /** What a sender does when do_send has returned. */
  function AfterSend(e: Endpoint, pos: nat, armed: bool, left: nat): PC {
    if e.op.Write? && e.blocking && pos != |e.op.data| then Writing(Blocked(pos, armed, left))
    else Done(pos, [])
  }

  /** What a receiver does with the amount of data it saw. */
  function AfterReady(e: Endpoint, size: nat, avail: nat, armed: bool): PC
    requires e.op.Reads()
  {
    if e.op.Recv? then
      if e.op.size <= avail then Reading(Draining(e.op.size, []))
      else if !e.blocking then Done(0, [])
      else if e.op.size > size then Done(-1, [])
      else Reading(BlockedRead(armed, avail))
    else
      if avail != 0 then Reading(Draining(Min(e.op.size, avail), []))
      else if !e.blocking then Done(0, [])
      else Reading(BlockedRead(armed, avail))
  }

  /** The shape the locals of a call always have. */
  predicate LocalShape(e: Endpoint) {
    match e.pc
    case Writing(p) => e.op.Writes() && WriteShape(p, e.op, e.blocking)
    case Reading(p) => e.op.Reads() && ReadShape(p, e.op)
    case Querying(_) => !e.op.Writes() && !e.op.Reads()
    case _ => true
  }

  predicate WriteShape(p: WritePhase, op: Op, blocking: bool)
    requires op.Writes()
  {
    && p.pos <= |op.data|
    && match p
       case Filling(pos, chunk, k, armed, left) =>
         && k <= |chunk|
         && pos + |chunk| <= |op.data| && chunk == op.data[pos..pos + |chunk|]
         && (op.Send? ==> pos == 0)
         && SentShape(op, blocking, pos + |chunk|, armed, left)
       case ClearBit(pos, armed, left) => SentShape(op, blocking, pos, armed, left)
       case Post(pos, armed, left) => SentShape(op, blocking, pos, armed, left)
       case Blocked(pos, armed, left) =>
         armed && if op.Send? then left < |op.data| && pos == 0 else left == 0 && pos < |op.data|
       case _ => op.Send? ==> p.pos == 0
  }

  /** A transfer ending at `pos` that leaves data over is one that used up all it was shown. */
  predicate SentShape(op: Op, blocking: bool, pos: nat, armed: bool, left: nat)
    requires op.Writes()
  {
    && (op.Send? ==> pos == |op.data|)
    && (blocking && pos < |op.data| ==> armed && left == 0)
  }

  predicate ReadShape(p: ReadPhase, op: Op)
    requires op.Reads()
  {
    match p
    case ReadyRequest => op.size > 0
    case ReadyReread => op.size > 0
    case Draining(n, got) => |got| <= n <= op.size
    case BlockedRead(armed, left) =>
      && (if op.Recv? then left < op.size else left == 0)
      && (armed <==> op != Read(0))
    case _ => true
  }

  function Goto(v: View, pc: PC): View {
    v.(me := v.me.(pc := pc))
  }

  /** Lines 146-156: the first look at the space, and the look after the request. */
  function SpaceLook(v: View, pos: nat, avail: nat, armed: bool): View
    requires v.me.op.Writes() && pos <= |v.me.op.data|
  {
    if armed || avail >= |v.me.op.data| - pos
    then Goto(v, AfterSpace(v.me, v.out.Size(), pos, avail, armed))
    else Goto(v, Writing(SpaceRequest(pos)))
  }

  /** Lines 182-194: copy one byte, or publish the producer index when all are copied. */
  function FillOrPublish(v: View, pos: nat, chunk: seq<Byte>, k: nat, armed: bool, left: nat): View {
    if k < |chunk| then
      var slot := SlotOf(v.out.prod, v.out.Size(), |chunk|, k);
      if 0 <= slot < |v.out.buf| then
        Goto(v, Writing(Filling(pos, chunk, k + 1, armed, left)))
          .(out := v.out.(buf := v.out.buf[slot := chunk[k]]))
      else v
    else
      Goto(v, Writing(ClearBit(pos + |chunk|, armed, left)))
        .(out := v.out.(prod := (v.out.prod + |chunk|) % TWO32, sent := v.out.sent + chunk))
  }

  /** Lines 253-265: copy one byte, or publish the consumer index when all are copied. */
  function DrainOrConsume(v: View, n: nat, got: seq<Byte>): View {
    if |got| < n then
      var slot := SlotOf(v.inp.cons, v.inp.Size(), n, |got|);
      if 0 <= slot < |v.inp.buf| then Goto(v, Reading(Draining(n, got + [v.inp.buf[slot]]))) else v
    else
      Goto(v, Reading(ClearRead(got)))
        .(inp := v.inp.(cons := (v.inp.cons + n) % TWO32, rcvd := v.inp.rcvd + got))
  }

  /** Lines 119-129: the first look at the data, and the look after the request. */
  function ReadyLook(v: View, avail: nat, armed: bool): View
    requires v.me.op.Reads()
  {
    if armed || avail >= v.me.op.size
    then Goto(v, AfterReady(v.me, v.inp.Size(), avail, armed))
    else Goto(v, Reading(ReadyRequest))
  }

  /** One step of libxenvchan_send or libxenvchan_write. */
  function WriteStep(v: View, p: WritePhase): View
    requires v.me.op.Writes() && p.pos <= |v.me.op.data|
  {
    match p
    case SpaceFirst(pos) => SpaceLook(v, pos, ToSize(SpaceSeen(v.out)), false)
    case SpaceRequest(pos) => v.(me := v.me.(wantRead := true, pc := Writing(SpaceReread(pos))))
    case SpaceReread(pos) => SpaceLook(v, pos, ToSize(SpaceSeen(v.out)), true)
    case Filling(pos, chunk, k, armed, left) => FillOrPublish(v, pos, chunk, k, armed, left)
    case ClearBit(pos, armed, left) =>
      var pc := if v.peer.wantWrite then Writing(Post(pos, armed, left))
                else AfterSend(v.me, pos, armed, left);
      Goto(v, pc).(peer := v.peer.(wantWrite := false))
    case Post(pos, armed, left) =>
      Goto(v, AfterSend(v.me, pos, armed, left)).(peer := v.peer.(pending := true))
    case Blocked(pos, _, _) =>
      if v.me.pending then v.(me := v.me.(pending := false, pc := Writing(SpaceFirst(pos)))) else v
  }

  /** One step of libxenvchan_recv or libxenvchan_read. */
  function ReadStep(v: View, p: ReadPhase): View
    requires v.me.op.Reads()
  {
    match p
    case ReadyFirst => ReadyLook(v, ToSize(ReadySeen(v.inp)), false)
    case ReadyRequest => v.(me := v.me.(wantWrite := true, pc := Reading(ReadyReread)))
    case ReadyReread => ReadyLook(v, ToSize(ReadySeen(v.inp)), true)
    case Draining(n, got) => DrainOrConsume(v, n, got)
    case ClearRead(got) =>
      var pc := if v.peer.wantRead then Reading(PostRead(got)) else Done(|got|, got);
      Goto(v, pc).(peer := v.peer.(wantRead := false))
    case PostRead(got) =>
      Goto(v, Done(|got|, got)).(peer := v.peer.(pending := true))
    case BlockedRead(_, _) =>
      if v.me.pending then v.(me := v.me.(pending := false, pc := Reading(ReadyFirst))) else v
  }

  /** One step of a call that moves no data. */
  function QueryStep(v: View, p: QueryPhase): View {
    match p
    case ReadyAsk => v.(me := v.me.(wantWrite := true, pc := Querying(ReadyTell)))
    case ReadyTell => Goto(v, Done(ReadySeen(v.inp), []))
    case SpaceAsk => v.(me := v.me.(wantRead := true, pc := Querying(SpaceTell)))
    case SpaceTell => Goto(v, Done(SpaceSeen(v.out), []))
    case Waiting =>
      if v.me.pending then v.(me := v.me.(pending := false, pc := Done(0, []))) else v
  }

  /** One atomic step of the code in which `me` is executing. */
  function Advance(v: View): View
    requires LocalShape(v.me)
  {
    match v.me.pc
    case Idle => v
    case Done(_, _) => Goto(v, Idle)
    case Writing(p) => WriteStep(v, p)
    case Reading(p) => ReadStep(v, p)
    case Querying(p) => QueryStep(v, p)
  }

  /** The application starts a call. */
  function Begin(v: View, op: Op, blocking: bool): View {
    var pc := match op
      case Send(_) => Writing(SpaceFirst(0))
      case Write(_) => Writing(SpaceFirst(0))
      case Recv(_) => Reading(ReadyFirst)
      case Read(_) => Reading(ReadyFirst)
      case DataReady => Querying(ReadyAsk)
      case BufferSpace => Querying(SpaceAsk)
      case Wait => Querying(Waiting);
    var start := if op.Writes() then |v.out.sent| else |v.inp.rcvd|;
    v.(me := v.me.(pc := pc, op := op, blocking := blocking, start := start))
  }

  /** What the scheduler lets one endpoint do: start a call when it is idle, or go on. */
  datatype Choice = Call(op: Op, blocking: bool) | Proceed

  function StepView(v: View, c: Choice): View
    requires LocalShape(v.me)
  {
    match c
    case Call(op, blocking) => if v.me.pc.Idle? then Begin(v, op, blocking) else v
    case Proceed => Advance(v)
  }
}
