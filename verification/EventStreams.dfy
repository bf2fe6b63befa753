/** One open events stream: `EventStream` of src/llm_redact/connections.py. */
module EventStreams {

  /** A row for the dashboard, or WAKE. */
  datatype Item = Row(row: nat) | Wake

  class EventStream {
    /** The queue's bound; 0 is none, as in asyncio. */
    const capacity: nat
    var queue: seq<Item>
    var closed: bool
    var atShutdown: bool
    /** Calls of `_wake` handed to the stream's loop. */
    ghost var wakes: nat

    ghost predicate Valid()
      reads this
    {
      && (capacity > 0 ==> |queue| <= capacity)
      && (atShutdown ==> closed)
      && wakes == if closed then 1 else 0
    }

    constructor (capacity: nat)
      ensures Valid() && !closed && queue == [] && this.capacity == capacity
    {
      this.capacity := capacity;
      queue, closed, atShutdown, wakes := [], false, false, 0;
    }

    /** `_end`: only the first call ends the stream and schedules its waking. */
    method End(shutdown: bool) returns (ended: bool)
      requires Valid()
      modifies this
      ensures Valid() && closed && ended == !old(closed) && queue == old(queue)
      ensures atShutdown == if ended then shutdown else old(atShutdown)
    {
      if closed {
        return false;
      }
      closed, atShutdown, wakes := true, shutdown, wakes + 1;
      return true;
    }

    /** `_wake`: a full queue gives up its oldest row, so the waking always gets in, last. */
    method WakeUp()
      requires Valid()
      modifies `queue
      ensures Valid()
      ensures queue == (if capacity > 0 && |old(queue)| == capacity then old(queue)[1..] else old(queue)) + [Wake]
    {
      if capacity > 0 && |queue| >= capacity {
        queue := queue[1..];
      }
      if capacity == 0 || |queue| < capacity {
        queue := queue + [Wake];
      }
    }
  }

  /** Any number of closes and shutdowns of one stream: one of them ends it, the first, and decides
      whether it ended at shutdown. */
  method EndMany(stream: EventStream, shutdowns: seq<bool>) returns (ended: seq<bool>)
    requires stream.Valid() && !stream.closed && shutdowns != []
    modifies stream
    ensures stream.Valid() && stream.closed && stream.wakes == 1 && stream.atShutdown == shutdowns[0]
    ensures |ended| == |shutdowns| && ended[0] && forall i :: 0 < i < |ended| ==> !ended[i]
  {
    ended := [];
    for k := 0 to |shutdowns|
      invariant stream.Valid() && |ended| == k
      invariant stream.closed <==> k > 0
      invariant k > 0 ==> stream.atShutdown == shutdowns[0]
      invariant forall i :: 0 <= i < k ==> (ended[i] <==> i == 0)
    {
      var one := stream.End(shutdowns[k]);
      ended := ended + [one];
    }
  }
}
