/**
 The event channel of sdl.c: a non-blocking pipe that carries whole GEvent
 records from the input thread to the control thread. The pipe is modelled
 as a bounded FIFO of records; its capacity (the pipe buffer divided by the
 record size) is a parameter. A non-blocking transfer either moves the whole
 record or fails, and only a transfer of exactly one record's bytes reports
 success.
 */
module EventChan {
  import opened Gui

  /** sizeof(GEvent): a type tag and a union of at most three 32-bit ints. */
  const RecordSize: int := 16

  /** Which end of the pipe an operation uses: reads on ChanIn, writes on ChanOut. */
  datatype ChanSide = ChanIn | ChanOut

  /** The queue after a put whose result is ignored: the record is dropped when the queue is full. */
  function Offered(queue: seq<GEvent>, capacity: nat, out: Option<GEvent>): (r: seq<GEvent>)
    requires |queue| <= capacity
    ensures |r| <= capacity
    ensures out.None? ==> r == queue
    ensures out.Some? ==> r == if |queue| < capacity then queue + [out.value] else queue
  {
    if out.Some? && |queue| < capacity then queue + [out.value] else queue
  }

  /**
   The queue after a run of puts with no consumer: it takes records until it is
   full, and every later put finds it full.
   */
  function Filled(queue: seq<GEvent>, capacity: nat, records: seq<GEvent>): (r: seq<GEvent>)
    requires |queue| <= capacity
    ensures queue <= r <= queue + records
    ensures |r| == if |queue| + |records| <= capacity then |queue| + |records| else capacity
  {
    var all := queue + records;
    if |all| <= capacity then all else all[..capacity]
  }

  /** Filling is what a sequence of dropping puts does, one record at a time. */
  lemma FilledOffered(queue: seq<GEvent>, capacity: nat, records: seq<GEvent>, out: Option<GEvent>)
    requires |queue| <= capacity
    ensures |Filled(queue, capacity, records)| <= capacity
    ensures Offered(Filled(queue, capacity, records), capacity, out)
            == Filled(queue, capacity, records + AsSeq(out))
  {
    var all := queue + records;
    assert queue + (records + AsSeq(out)) == all + AsSeq(out);
    if out.Some? && |all| >= capacity {
      assert (all + AsSeq(out))[..capacity] == all[..capacity];
    }
  }

  class GEventChan {
    /** The records written and not yet read, oldest first. */
    var queue: seq<GEvent>
    /** How many records the pipe buffer holds. */
    const capacity: nat

    ghost predicate Valid()
      reads this
    {
      |queue| <= capacity
    }

    /** An empty channel (the pipe-creation failure path is not modelled). */
    constructor (capacity: nat)
      ensures Valid() && queue == [] && this.capacity == capacity
    {
      this.capacity := capacity;
      queue := [];
    }

    /**
     One non-blocking transfer of a record on the given end. `ev` is the
     record buffer: written from on ChanOut, read into on ChanIn; `out` is the
     buffer's content afterwards, unchanged by a failed read.
     */
    method Op(side: ChanSide, ev: GEvent) returns (rc: int, out: GEvent)
      requires Valid()
      modifies this
      ensures Valid()
      ensures rc == 0 || rc == -1
      ensures side == ChanOut ==>
        && (rc == 0 <==> |old(queue)| < capacity)
        && out == ev
        && queue == (if rc == 0 then old(queue) + [ev] else old(queue))
      ensures side == ChanIn ==>
        && (rc == 0 <==> old(queue) != [])
        && out == (if rc == 0 then old(queue)[0] else ev)
        && queue == (if rc == 0 then old(queue)[1..] else old(queue))
    {
      // `moved` is what write(2)/read(2) return: the whole record, or -1 (EAGAIN).
      var moved: int;
      out := ev;
      if side == ChanOut {
        if |queue| < capacity {
          queue := queue + [ev];
          moved := RecordSize;
        } else {
          moved := -1;
        }
      } else {
        if queue != [] {
          out := queue[0];
          queue := queue[1..];
          moved := RecordSize;
        } else {
          moved := -1;
        }
      }
      rc := if moved == RecordSize then 0 else -1;
    }

    /** Reads the oldest record into the buffer `dst`; fails on an empty channel. */
    method Get(dst: GEvent) returns (rc: int, ev: GEvent)
      requires Valid()
      modifies this
      ensures Valid()
      ensures rc == 0 || rc == -1
      ensures rc == 0 <==> old(queue) != []
      ensures rc == 0 ==> ev == old(queue)[0] && queue == old(queue)[1..]
      ensures rc == -1 ==> ev == dst && queue == old(queue)
    {
      rc, ev := Op(ChanIn, dst);
    }

    /** Appends one record; fails, changing nothing, on a full channel. */
    method Put(ev: GEvent) returns (rc: int)
      requires Valid()
      modifies this
      ensures Valid()
      ensures rc == 0 || rc == -1
      ensures rc == 0 <==> |old(queue)| < capacity
      ensures rc == 0 ==> queue == old(queue) + [ev]
      ensures rc == -1 ==> queue == old(queue)
    {
      var written;
      rc, written := Op(ChanOut, ev);
    }
  }

  /**
   N puts on a fresh channel followed by N gets: the gets return the records
   in put order, each once; the puts beyond the capacity fail; a get on the
   drained channel fails; and a put after that works again.
   */
  method PutThenGet(records: seq<GEvent>, capacity: nat)
    returns (putRcs: seq<int>, getRcs: seq<int>, got: seq<GEvent>, emptyRc: int, againRc: int)
    ensures |putRcs| == |records| && |getRcs| == |records|
    ensures forall i :: 0 <= i < |records| ==> putRcs[i] == (if i < capacity then 0 else -1)
    ensures forall i :: 0 <= i < |records| ==> getRcs[i] == (if i < capacity then 0 else -1)
    ensures got == if |records| <= capacity then records else records[..capacity]
    ensures emptyRc == -1
    ensures againRc == (if capacity > 0 then 0 else -1)
  {
    var chan := new GEventChan(capacity);
    var n := |records|;
    putRcs := [];
    var i := 0;
    while i < n
      invariant 0 <= i <= n && |putRcs| == i
      invariant chan.Valid() && chan.capacity == capacity
      invariant chan.queue == if i <= capacity then records[..i] else records[..capacity]
      invariant forall k :: 0 <= k < i ==> putRcs[k] == (if k < capacity then 0 else -1)
    {
      var rc := chan.Put(records[i]);
      assert i < capacity ==> records[..i + 1] == records[..i] + [records[i]];
      putRcs := putRcs + [rc];
      i := i + 1;
    }
    var stored := chan.queue;
    getRcs, got := [], [];
    var ev := GKey(0);
    i := 0;
    while i < n
      invariant 0 <= i <= n && |getRcs| == i
      invariant chan.Valid() && chan.capacity == capacity
      invariant i <= |stored| ==> got == stored[..i] && chan.queue == stored[i..]
      invariant i > |stored| ==> got == stored && chan.queue == []
      invariant forall k :: 0 <= k < i ==> getRcs[k] == (if k < capacity then 0 else -1)
    {
      var rc;
      rc, ev := chan.Get(ev);
      if rc == 0 {
        assert stored[..i + 1] == stored[..i] + [stored[i]];
        got := got + [ev];
      }
      getRcs := getRcs + [rc];
      i := i + 1;
    }
    assert n <= capacity ==> stored[..n] == stored;
    emptyRc, ev := chan.Get(ev);
    againRc := chan.Put(GKey(0));
  }

  /**
   The records the puts among the first `n` steps of a schedule got in with,
   in order, given each step's return code (`Some(ev)` is a put of `ev`,
   `None` a get).
   */
  function KeptPuts(schedule: seq<Option<GEvent>>, rcs: seq<int>, n: nat): (r: seq<GEvent>)
    requires n <= |schedule| && n <= |rcs|
    ensures |r| <= n
  {
    if n == 0 then []
    else
      KeptPuts(schedule, rcs, n - 1)
      + (if schedule[n - 1].Some? && rcs[n - 1] == 0 then [schedule[n - 1].value] else [])
  }

  /** How many records are pending after the first `n` steps: successful puts minus successful gets. */
  function Pending(schedule: seq<Option<GEvent>>, rcs: seq<int>, n: nat): int
    requires n <= |schedule| && n <= |rcs|
  {
    if n == 0 then 0
    else
      Pending(schedule, rcs, n - 1)
      + (if rcs[n - 1] != 0 then 0 else if schedule[n - 1].Some? then 1 else -1)
  }

  /**
   The return codes of the first `n` steps are what the channel gives: 0 or
   -1, a put succeeding exactly when fewer than `capacity` records are
   pending, a get exactly when one is.
   */
  ghost predicate ChannelCodes(schedule: seq<Option<GEvent>>, rcs: seq<int>, n: nat, capacity: nat)
    requires n <= |schedule| && n <= |rcs|
  {
    forall k :: 0 <= k < n ==>
      && (rcs[k] == 0 || rcs[k] == -1)
      && (schedule[k].Some? ==> (rcs[k] == 0 <==> Pending(schedule, rcs, k) < capacity))
      && (schedule[k].None? ==> (rcs[k] == 0 <==> Pending(schedule, rcs, k) > 0))
  }

  /** Recording one more return code does not change what the earlier steps did. */
  lemma {:induction false} StepsFrame(schedule: seq<Option<GEvent>>, rcs: seq<int>, rc: int, n: nat)
    requires n <= |rcs| < |schedule|
    ensures KeptPuts(schedule, rcs + [rc], n) == KeptPuts(schedule, rcs, n)
    ensures Pending(schedule, rcs + [rc], n) == Pending(schedule, rcs, n)
  {
    if n > 0 {
      assert (rcs + [rc])[n - 1] == rcs[n - 1];
      StepsFrame(schedule, rcs, rc, n - 1);
    }
  }

  /** A step whose return code is the channel's extends the agreeing codes by one. */
  lemma StepRecorded(schedule: seq<Option<GEvent>>, rcs: seq<int>, rc: int, capacity: nat)
    requires |rcs| < |schedule| && ChannelCodes(schedule, rcs, |rcs|, capacity)
    requires rc == 0 || rc == -1
    requires schedule[|rcs|].Some? ==> (rc == 0 <==> Pending(schedule, rcs, |rcs|) < capacity)
    requires schedule[|rcs|].None? ==> (rc == 0 <==> Pending(schedule, rcs, |rcs|) > 0)
    ensures ChannelCodes(schedule, rcs + [rc], |rcs| + 1, capacity)
    ensures KeptPuts(schedule, rcs + [rc], |rcs| + 1) == KeptPuts(schedule, rcs, |rcs|)
              + (if schedule[|rcs|].Some? && rc == 0 then [schedule[|rcs|].value] else [])
    ensures Pending(schedule, rcs + [rc], |rcs| + 1) == Pending(schedule, rcs, |rcs|)
              + (if rc != 0 then 0 else if schedule[|rcs|].Some? then 1 else -1)
  {
    var next, n := rcs + [rc], |rcs|;
    forall k | 0 <= k < n + 1
      ensures && (next[k] == 0 || next[k] == -1)
              && (schedule[k].Some? ==> (next[k] == 0 <==> Pending(schedule, next, k) < capacity))
              && (schedule[k].None? ==> (next[k] == 0 <==> Pending(schedule, next, k) > 0))
    {
      StepsFrame(schedule, rcs, rc, k);
      if k < n {
        assert next[k] == rcs[k];
      } else {
        assert next[k] == rc;
      }
    }
    StepsFrame(schedule, rcs, rc, n);
    assert next[n] == rc;
  }

  /** The channel after the steps whose codes are `rcs`: the records kept and how many are pending. */
  ghost predicate Tracks(schedule: seq<Option<GEvent>>, rcs: seq<int>, capacity: nat, accepted: seq<GEvent>, pending: int)
    requires |rcs| <= |schedule|
  {
    && ChannelCodes(schedule, rcs, |rcs|, capacity)
    && accepted == KeptPuts(schedule, rcs, |rcs|)
    && pending == Pending(schedule, rcs, |rcs|)
  }

  /** One more step whose code is the channel's keeps the tracking in step. */
  lemma TracksStep(schedule: seq<Option<GEvent>>, rcs: seq<int>, rc: int, capacity: nat, accepted: seq<GEvent>, pending: int)
    requires |rcs| < |schedule| && Tracks(schedule, rcs, capacity, accepted, pending)
    requires rc == 0 || rc == -1
    requires schedule[|rcs|].Some? ==> (rc == 0 <==> pending < capacity)
    requires schedule[|rcs|].None? ==> (rc == 0 <==> pending > 0)
    ensures Tracks(schedule, rcs + [rc], capacity,
                   accepted + (if schedule[|rcs|].Some? && rc == 0 then [schedule[|rcs|].value] else []),
                   pending + (if rc != 0 then 0 else if schedule[|rcs|].Some? then 1 else -1))
  {
    StepRecorded(schedule, rcs, rc, capacity);
  }

  /**
   What agreeing return codes imply: the kept puts are some of the schedule's
   puts, between none and `capacity` records are pending, and when the
   schedule puts no more than `capacity` records, every put is kept.
   */
  lemma {:induction false} KeptPutsBound(schedule: seq<Option<GEvent>>, rcs: seq<int>, n: nat, capacity: nat)
    requires n <= |schedule| && n <= |rcs| && ChannelCodes(schedule, rcs, n, capacity)
    ensures |KeptPuts(schedule, rcs, n)| <= |Somes(schedule[..n])|
    ensures 0 <= Pending(schedule, rcs, n) <= |KeptPuts(schedule, rcs, n)|
    ensures Pending(schedule, rcs, n) <= capacity
    ensures |Somes(schedule[..n])| <= capacity ==> KeptPuts(schedule, rcs, n) == Somes(schedule[..n])
  {
    if n > 0 {
      assert ChannelCodes(schedule, rcs, n - 1, capacity);
      KeptPutsBound(schedule, rcs, n - 1, capacity);
      SomesSnoc(schedule, n - 1);
      assert rcs[n - 1] == 0 || rcs[n - 1] == -1;
      if schedule[n - 1].Some? {
        assert rcs[n - 1] == 0 <==> Pending(schedule, rcs, n - 1) < capacity;
      } else {
        assert rcs[n - 1] == 0 <==> Pending(schedule, rcs, n - 1) > 0;
      }
    } else {
      assert schedule[..0] == [];
    }
  }

  /**
   Any interleaving of producer puts and consumer gets on one fresh channel
   (`Some(ev)` in the schedule is a put of `ev`, `None` a get), with each
   step's return code in `rcs`: a put succeeds exactly when fewer than
   `capacity` records are pending, a get exactly when one is. The channel
   keeps exactly the successful puts, in order; what is read is the oldest of
   them, and the rest are still pending. When the schedule never puts more
   than the capacity, every put is accepted.
   */
  method Interleave(schedule: seq<Option<GEvent>>, capacity: nat)
    returns (rcs: seq<int>, accepted: seq<GEvent>, delivered: seq<GEvent>)
    ensures |rcs| == |schedule| && ChannelCodes(schedule, rcs, |schedule|, capacity)
    ensures accepted == KeptPuts(schedule, rcs, |schedule|)
    ensures delivered <= accepted
    ensures |accepted| - |delivered| == Pending(schedule, rcs, |schedule|) <= capacity
    ensures |accepted| <= |Somes(schedule)|
    ensures |Somes(schedule)| <= capacity ==> accepted == Somes(schedule)
  {
    var chan := new GEventChan(capacity);
    rcs, accepted, delivered := [], [], [];
    var ev := GKey(0);
    var i := 0;
    while i < |schedule|
      invariant 0 <= i <= |schedule| && |rcs| == i
      invariant chan.Valid() && chan.capacity == capacity
      invariant delivered + chan.queue == accepted
      invariant Tracks(schedule, rcs, capacity, accepted, |chan.queue|)
    {
      ghost var pending, before := chan.queue, accepted;
      var rc;
      if schedule[i].Some? {
        rc := chan.Put(schedule[i].value);
        if rc == 0 {
          assert delivered + (pending + [schedule[i].value]) == accepted + [schedule[i].value];
          accepted := accepted + [schedule[i].value];
        }
      } else {
        rc, ev := chan.Get(ev);
        if rc == 0 {
          assert pending == [ev] + chan.queue;
          assert (delivered + [ev]) + chan.queue == delivered + pending;
          delivered := delivered + [ev];
        }
      }
      assert |chan.queue| == |pending| + (if rc != 0 then 0 else if schedule[i].Some? then 1 else -1);
      assert accepted == before + (if schedule[i].Some? && rc == 0 then [schedule[i].value] else []);
      TracksStep(schedule, rcs, rc, capacity, before, |pending|);
      rcs := rcs + [rc];
      i := i + 1;
    }
    KeptPutsBound(schedule, rcs, |schedule|, capacity);
    assert schedule[..|schedule|] == schedule;
    assert accepted[..|delivered|] == delivered;
  }
}
