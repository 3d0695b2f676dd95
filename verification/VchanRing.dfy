/** The two data-moving routines of tools/libvchan/io.c on the ring they update in place. */
module VchanRing {
  import opened Sequences
  import opened PowersOfTwo
  import opened Vchan
  import opened VchanInvariant

  class SharedRing {
    const order: nat
    var prod: nat
    var cons: nat
    const buf: array<Byte>
    ghost var sent: seq<Byte>
    ghost var rcvd: seq<Byte>

    /** The ring as the transition system sees it. */
    ghost function Abstract(): RingState
      reads this, buf
    {
      RingState(order, prod, cons, buf[..], sent, rcvd)
    }

    ghost predicate Valid()
      reads this, buf
    {
      RingShape(Abstract()) && RingOk(Abstract())
    }

    constructor (order: nat)
      requires 10 <= order <= 20
      ensures Valid() && fresh(buf) && this.order == order && sent == [] && rcvd == []
    {
      this.order := order;
      prod, cons := 0, 0;
      buf := new Byte[Pow2(order)](_ => 0);
      sent, rcvd := [], [];
    }

    /** One byte of either copy. */
    method PutByte(ghost data: seq<Byte>, ghost k: nat, at: nat, b: Byte)
      requires Valid() && Copied(Abstract(), data, k) && k < |data| && b == data[k]
      requires at == SlotOf(prod, Pow2(order), |data|, k)
      modifies buf
      ensures Valid() && Copied(Abstract(), data, k + 1)
    {
      ghost var slot := FillByte(Abstract(), data, k);
      ghost var before := buf[..];
      buf[at] := b;
      assert buf[..] == before[slot := b];
    }

    /** do_send without its notification: both copies, then the producer index. */
    method DoSend(data: seq<Byte>)
      requires Valid() && |data| <= Space(Abstract())
      modifies this`prod, this`sent, buf
      ensures Valid() && sent == old(sent) + data && rcvd == old(rcvd) && cons == old(cons)
    {
      var size := Pow2(order);
      var realIdx := prod % size;
      var contig := Min(size - realIdx, |data|);
      var k := 0;
      while k < contig
        modifies buf
        invariant k <= contig && Valid() && Copied(Abstract(), data, k)
      {
        PutByte(data, k, realIdx + k, data[k]);
        k := k + 1;
      }
      while k < |data|
        modifies buf
        invariant contig <= k <= |data| && Valid() && Copied(Abstract(), data, k)
      {
        PutByte(data, k, k - contig, data[k]);
        k := k + 1;
      }
      PublishChunk(Abstract(), data);
      prod := (prod + |data|) % TWO32;
      sent := sent + data;
    }

    /** do_recv without its notification: both copies, then the consumer index. */
    method DoRecv(n: nat) returns (data: seq<Byte>)
      requires Valid() && n <= Ready(Abstract())
      modifies this`cons, this`rcvd
      ensures Valid() && rcvd == old(rcvd) + data && sent == old(sent) && prod == old(prod)
      ensures |data| == n && data == sent[|old(rcvd)|..|old(rcvd)| + n]
    {
      hide RingOk;
      var size := Pow2(order);
      var realIdx := cons % size;
      var contig := Min(size - realIdx, n);
      data := [];
      while |data| < contig
        modifies {}
        invariant |data| <= contig && data == sent[|rcvd|..|rcvd| + |data|]
      {
        DrainByte(Abstract(), n, data);
        data := data + [buf[realIdx + |data|]];
      }
      while |data| < n
        modifies {}
        invariant contig <= |data| <= n && data == sent[|rcvd|..|rcvd| + |data|]
      {
        DrainByte(Abstract(), n, data);
        data := data + [buf[|data| - contig]];
      }
      ConsumeChunk(Abstract(), data);
      cons := (cons + n) % TWO32;
      rcvd := rcvd + data;
    }
  }
}
