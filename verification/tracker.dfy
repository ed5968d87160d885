/**
 The unique-pageview handler of one entity: a bounded recency window of
 visitor identifiers, kept both as a set (for the membership test) and as a
 FIFO queue (for the eviction order), with a capacity fixed at construction.
 */
module Tracker {
  import opened Sequences

  /** The source's `int`: a 32-bit signed integer. */
  newtype Int32 = x: int | -0x8000_0000 <= x < 0x8000_0000

  /** The constructor's one failure: a maximum queue size that is not positive. */
  datatype Error = InvalidQueueSize(requested: Int32)

  datatype Result<T> = Ok(value: T) | Err(error: Error)

  /**
   The handler's state: `tracked` is the set of recently seen identifiers,
   `queue` the same identifiers oldest first, and `maxSize` the capacity.
   */
  datatype Handler = Handler(tracked: set<string>, queue: seq<string>, maxSize: Int32)

  /** The answer to one page view and the handler's state after it. */
  datatype Outcome = Outcome(unique: bool, next: Handler)

  /**
   The handler's invariant: a positive capacity, a duplicate-free queue that
   holds exactly the tracked identifiers, and no more of them than the capacity.
   */
  predicate Valid(h: Handler)
  {
    && 0 < h.maxSize
    && NoDuplicates(h.queue)
    && Elements(h.queue) == h.tracked
    && |h.queue| <= h.maxSize as int
  }

  /** The queue is full: the next unique visit evicts its oldest entry. */
  predicate Full(h: Handler)
  {
    |h.queue| == h.maxSize as int
  }

  /**
   Construction: a non-positive maximum queue size is refused; any positive one
   gives an empty, valid handler with that capacity.
   */
  function New(maximumQueueSize: Int32): (r: Result<Handler>)
    ensures r.Err? <==> maximumQueueSize <= 0
    ensures r.Err? ==> r.error == InvalidQueueSize(maximumQueueSize)
    ensures r.Ok? ==> Valid(r.value) && r.value.maxSize == maximumQueueSize
    ensures r.Ok? ==> r.value.tracked == {} && r.value.queue == []
  {
    if maximumQueueSize <= 0 then Err(InvalidQueueSize(maximumQueueSize))
    else Ok(Handler({}, [], maximumQueueSize))
  }

  /**
   One page view from `ip`. A tracked identifier is a repeat and changes
   nothing. An untracked one is unique: when the queue is full its oldest
   identifier is dequeued and forgotten first, then `ip` is enqueued and tracked.
   */
  function Process(h: Handler, ip: string): (r: Outcome)
    requires Valid(h)
    ensures Valid(r.next)
    ensures r.next.maxSize == h.maxSize
    ensures r.unique <==> ip !in h.tracked
    // a repeat changes neither the set nor the queue order
    ensures !r.unique ==> r.next == h
    // a unique visit becomes the newest entry of the window
    ensures r.unique ==> ip in r.next.tracked && r.next.queue[|r.next.queue| - 1] == ip
    // with room left nothing is forgotten
    ensures r.unique && !Full(h) ==>
              r.next.queue == h.queue + [ip] && r.next.tracked == h.tracked + {ip}
    // with the queue full exactly the oldest identifier is forgotten
    ensures r.unique && Full(h) ==>
              && r.next.queue == h.queue[1..] + [ip]
              && r.next.tracked == h.tracked - {h.queue[0]} + {ip}
              && h.queue[0] !in r.next.tracked
    ensures forall x :: x in h.tracked && x !in r.next.tracked ==> Full(h) && x == h.queue[0]
  {
    if ip in h.tracked then
      Outcome(false, h)
    else
      var kept :=
        if Full(h) then
          DropFront(h.queue);
          Handler(h.tracked - {h.queue[0]}, h.queue[1..], h.maxSize)
        else
          h;
      AppendFresh(kept.queue, ip);
      var next := Handler(kept.tracked + {ip}, kept.queue + [ip], h.maxSize);
      Outcome(true, next)
  }

  /** The window never holds more distinct identifiers than the capacity. */
  lemma WindowBound(h: Handler)
    requires Valid(h)
    ensures |h.tracked| == |h.queue| <= h.maxSize as int
  {
    DistinctCardinality(h.queue);
  }
}
