/** MemoryBuffer, and the buffer pointers of NvnBackendData that grow from frame to frame. */
module Buffers {
  import opened Alignment
  import opened Bytes
  import opened Pools

  class MemoryBuffer {
    var memBuffer: array<u8>
    var poolSize: nat
    var mIsReady: bool
    /** How often the buffer has been finalised. */
    ghost var finalized: nat

    constructor (size: nat, setup: Setup)
      ensures fresh(memBuffer) && memBuffer[..] == Zeros(Page(size))
      ensures State() == NewPool(Request(size, setup))
      ensures mIsReady <==> setup == Works
      ensures poolSize == if setup.PoolFails? then setup.reported else Page(size)
      ensures mIsReady <==> setup == Works
      ensures poolSize == if setup.PoolFails? then setup.reported else Page(size)
      ensures finalized == 0
      ensures mIsReady ==> poolSize == memBuffer.Length
    {
      var alignedSize := Page(size);
      var zeros := new u8[alignedSize](_ => 0);
      memBuffer := zeros;
      poolSize := if setup.PoolFails? then setup.reported else alignedSize;
      mIsReady := setup.Works?;
      finalized := 0;
      new;
      assert memBuffer[..] == Zeros(alignedSize);
    }

    function State(): Pool
      reads this
    {
      Pool(poolSize, mIsReady)
    }

    method Finalize()
      modifies this`finalized
      ensures finalized == old(finalized) + 1
    {
      finalized := finalized + 1;
    }
  }

  /** `bd->vtxBuffer` or `bd->idxBuffer`, with what it has been asked for and what it has replaced. */
  class GrowingBuffer {
    var buffer: MemoryBuffer?
    ghost var requests: seq<Request>
    ghost var retired: set<MemoryBuffer>
    ghost var Repr: set<object>

    /** What the class owns: one live buffer and the retired ones, each of those finalised once. */
    ghost predicate Owned()
      reads this, Repr
      ensures Owned() ==> this in Repr
    {
      && this in Repr && retired <= Repr
      && (forall o <- retired :: o.finalized == 1)
      && buffer != null && buffer in Repr && buffer.memBuffer in Repr
      && buffer !in retired && buffer.finalized == 0
      && (buffer.mIsReady ==> buffer.poolSize == buffer.memBuffer.Length)
    }

    ghost predicate Valid()
      reads this, Repr
      ensures Valid() ==> this in Repr
    {
      && this in Repr && retired <= Repr
      && (forall o <- retired :: o.finalized == 1)
      && |retired| + (if buffer == null then 0 else 1) == Allocations(requests)
      && (buffer == null ==> ServeAll(requests) == NoPool)
      && (buffer != null ==>
        && buffer in Repr && buffer.memBuffer in Repr
        && buffer !in retired && buffer.finalized == 0
        && (buffer.mIsReady ==> buffer.poolSize == buffer.memBuffer.Length)
        && ServeAll(requests) == buffer.State())
    }

    constructor ()
      ensures Valid() && fresh(Repr) && requests == []
    {
      buffer, requests, retired, Repr := null, [], {}, {this};
    }

    /** Finalise the buffer, if there is one, and allocate another. */
    method Replace(bytes: nat, setup: Setup)
      requires Valid()
      modifies Repr
      ensures Owned() && fresh(Repr - old(Repr)) && requests == old(requests)
      ensures |retired| == Allocations(requests)
      ensures buffer.State() == NewPool(Request(bytes, setup))
      ensures fresh(buffer) && fresh(buffer.memBuffer) && buffer.memBuffer[..] == Zeros(Page(bytes))
      ensures retired == old(retired + (if buffer == null then {} else {buffer}))
    {
      if buffer != null {
        buffer.Finalize();
        retired := retired + {buffer};
      }
      buffer := new MemoryBuffer(bytes, setup);
      Repr := Repr + {buffer, buffer.memBuffer};
    }

    /** Keep the buffer if it is large enough; otherwise replace it. */
    method Resize(bytes: nat, setup: Setup)
      requires Valid()
      modifies Repr
      ensures Valid() && fresh(Repr - old(Repr))
      ensures requests == old(requests) + [Request(bytes, setup)]
      ensures buffer != null && (buffer.mIsReady ==> bytes <= buffer.memBuffer.Length)
      ensures old(Grows(ServeAll(requests), Request(bytes, setup))) ==>
        && fresh(buffer) && fresh(buffer.memBuffer) && buffer.memBuffer[..] == Zeros(Page(bytes))
        && retired == old(retired + (if buffer == null then {} else {buffer}))
      ensures !old(Grows(ServeAll(requests), Request(bytes, setup))) ==>
        buffer == old(buffer) && retired == old(retired) && unchanged(buffer) && unchanged(buffer.memBuffer)
    {
      ServeSnoc(requests, Request(bytes, setup));
      if buffer == null || buffer.poolSize < bytes {
        Replace(bytes, setup);
      }
      requests := requests + [Request(bytes, setup)];
    }

    /** The pool is as large as the largest request so far, in whole pages; all earlier buffers are finalised once. */
    lemma Capacity()
      requires Valid() && requests != [] && AllWork(requests)
      ensures buffer != null && buffer.mIsReady && buffer.memBuffer.Length == buffer.poolSize == Page(Largest(requests))
      ensures buffer.finalized == 0 && forall o <- retired :: o.finalized == 1
      ensures |retired| == Allocations(requests) - 1
    {
      CapacityClosedForm(requests);
    }
  }
}
