/**
  How a vertex or index buffer grows over the frames: it is kept while it is large
  enough and otherwise replaced by one of the requested size, in whole pages.
 */
module Pools {
  import opened Alignment

  /** How the driver answers while a buffer is being set up. */
  datatype Setup = Works | BufferFails | PoolFails(reported: nat)

  /** What one frame asks of a buffer, and how setting up a new one would go. */
  datatype Request = Request(bytes: nat, setup: Setup)

  /** The buffer a backend holds: the size its pool reports, and whether it can be used. */
  datatype Pool = NoPool | Pool(size: nat, ready: bool)

  function NewPool(r: Request): Pool {
    Pool(if r.setup.PoolFails? then r.setup.reported else Page(r.bytes), r.setup.Works?)
  }

  predicate Grows(p: Pool, r: Request) {
    p.NoPool? || p.size < r.bytes
  }

  function Serve(p: Pool, r: Request): Pool {
    if Grows(p, r) then NewPool(r) else p
  }

  function ServeAll(rs: seq<Request>): Pool {
    if rs == [] then NoPool else Serve(ServeAll(rs[..|rs| - 1]), rs[|rs| - 1])
  }

  /** After these requests the buffer can be drawn from. */
  predicate Usable(rs: seq<Request>) {
    ServeAll(rs).Pool? && ServeAll(rs).ready
  }

  /** How many buffers have been allocated. */
  function Allocations(rs: seq<Request>): nat {
    if rs == [] then 0
    else Allocations(rs[..|rs| - 1]) + (if Grows(ServeAll(rs[..|rs| - 1]), rs[|rs| - 1]) then 1 else 0)
  }

  lemma ServeSnoc(rs: seq<Request>, r: Request)
    ensures ServeAll(rs + [r]) == Serve(ServeAll(rs), r)
    ensures Allocations(rs + [r]) == Allocations(rs) + (if Grows(ServeAll(rs), r) then 1 else 0)
  {
    assert (rs + [r])[..|rs|] == rs;
  }

  ghost predicate AllWork(rs: seq<Request>) {
    forall i :: 0 <= i < |rs| ==> rs[i].setup.Works?
  }

  /** The largest number of bytes asked for. */
  function Largest(rs: seq<Request>): (m: nat)
    ensures forall i :: 0 <= i < |rs| ==> rs[i].bytes <= m
    ensures rs != [] ==> exists i :: 0 <= i < |rs| && rs[i].bytes == m
  {
    if rs == [] then 0
    else
      var n := |rs| - 1;
      var m, last := Largest(rs[..n]), rs[n].bytes;
      assert rs == rs[..n] + [rs[n]];
      if n == 0 || last > m then last
      else
        assert exists i :: 0 <= i < n && rs[..n][i].bytes == m;
        m
  }

  /** The size is the largest request so far in whole pages, and it is usable. */
  lemma {:induction false} CapacityClosedForm(rs: seq<Request>)
    requires AllWork(rs)
    ensures ServeAll(rs) == if rs == [] then NoPool else Pool(Page(Largest(rs)), true)
  {
    if rs != [] {
      var n := |rs| - 1;
      CapacityClosedForm(rs[..n]);
      LargestSnoc(rs);
      if n > 0 { PageKeepsOrder(Largest(rs[..n]), rs[n].bytes); }
    }
  }

  lemma LargestSnoc(rs: seq<Request>)
    requires rs != []
    ensures var n := |rs| - 1;
      Largest(rs) == if n == 0 || rs[n].bytes > Largest(rs[..n]) then rs[n].bytes else Largest(rs[..n])
  {
  }

  lemma PageKeepsOrder(m: nat, b: nat)
    ensures b <= Page(m) && m <= b ==> Page(b) == Page(m)
  {
  }

  /**
    When every set-up works: the pool covers the request, never shrinks, and is replaced
    exactly when it strictly grows.
   */
  lemma ServingGrows(rs: seq<Request>, r: Request)
    requires AllWork(rs + [r])
    ensures var before, after := ServeAll(rs), ServeAll(rs + [r]);
      && after.Pool? && after.ready && r.bytes <= after.size
      && (before.Pool? ==> before.size <= after.size)
      && (before.Pool? ==> (Grows(before, r) <==> before.size < after.size))
  {
    assert forall i :: 0 <= i < |rs| ==> (rs + [r])[i] == rs[i];
    CapacityClosedForm(rs);
    CapacityClosedForm(rs + [r]);
    ServeSnoc(rs, r);
    assert (rs + [r])[|rs|] == r;
  }

  /**
    Usable or not, a buffer is kept through further frames exactly while none of them asks
    for more than it reports; and then nothing about it changes.
   */
  lemma {:induction false} KeptIff(rs: seq<Request>, more: seq<Request>)
    requires ServeAll(rs).Pool?
    ensures Allocations(rs) <= Allocations(rs + more)
    ensures Allocations(rs + more) == Allocations(rs) <==>
      forall i :: 0 <= i < |more| ==> more[i].bytes <= ServeAll(rs).size
    ensures Allocations(rs + more) == Allocations(rs) ==> ServeAll(rs + more) == ServeAll(rs)
  {
    if more == [] {
      assert rs + more == rs;
    } else {
      var earlier, last := more[..|more| - 1], more[|more| - 1];
      KeptIff(rs, earlier);
      assert rs + more == rs + earlier + [last];
      ServeSnoc(rs + earlier, last);
      assert more == earlier + [last];
    }
  }

  /** Request `i` was the last to replace the buffer: every later one fitted into what it set up. */
  ghost predicate LastReplacement(rs: seq<Request>, i: nat)
    requires i < |rs|
  {
    && Allocations(rs[..i + 1]) == Allocations(rs[..i]) + 1
    && Allocations(rs) == Allocations(rs[..i + 1])
  }

  /**
    The buffer is the one set up for the last request that replaced it: usable exactly when
    both its pool and its buffer came up, of whole pages unless the pool failed.
   */
  lemma {:induction false} LastReplacementDecides(rs: seq<Request>, i: nat)
    requires i < |rs| && LastReplacement(rs, i)
    ensures Usable(rs) <==> rs[i].setup == Works
    ensures ServeAll(rs).Pool?
    ensures !rs[i].setup.PoolFails? ==> ServeAll(rs).size == Page(rs[i].bytes)
    ensures rs[i].setup.PoolFails? ==> ServeAll(rs).size == rs[i].setup.reported
    ensures forall j | i < j < |rs| :: rs[j].bytes <= ServeAll(rs).size
  {
    var upTo, later := rs[..i + 1], rs[i + 1..];
    assert upTo[..i] == rs[..i] && rs == upTo + later;
    KeptIff(upTo, later);
    forall j | i < j < |rs| ensures rs[j].bytes <= ServeAll(rs).size {
      assert rs[j] == later[j - i - 1];
    }
  }

  /** After the first request there always is such a request. */
  lemma {:induction false} LastReplacementExists(rs: seq<Request>) returns (i: nat)
    requires rs != []
    ensures i < |rs| && LastReplacement(rs, i)
  {
    var n := |rs| - 1;
    assert rs[..n + 1] == rs;
    if Grows(ServeAll(rs[..n]), rs[n]) {
      i := n;
    } else {
      i := LastReplacementExists(rs[..n]);
      assert rs[..n][..i + 1] == rs[..i + 1] && rs[..n][..i] == rs[..i];
    }
  }

  /** In particular, a buffer whose set-up failed is not retried until a frame asks for more than it reports. */
  lemma FailureSticks(rs: seq<Request>, more: seq<Request>)
    requires ServeAll(rs).Pool? && !ServeAll(rs).ready
    requires forall i :: 0 <= i < |more| ==> more[i].bytes <= ServeAll(rs).size
    ensures ServeAll(rs + more) == ServeAll(rs)
  {
    KeptIff(rs, more);
  }
}
