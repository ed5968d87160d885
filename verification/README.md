# Unique pageview handler — Dafny model

This project models `UniquePageviewHandler` from `Tracker.cs`. The handler approximates
unique-visitor counting for one entity (a page or a post). It remembers only the last
`MaximumQueueSize` visitor identifiers it counted as unique (typically IP addresses), in the
order they were counted. A visit counts as unique exactly when its identifier is not among
them. A repeat visit does not refresh an identifier: with capacity 2, the stream a, b, a, c, a
counts the last a again, because c evicted a as the oldest counted identifier.

The handler's state is a `HashSet<string>` (`TrackedViews`) paired with a FIFO
`Queue<string>` (`OrderedTrackedViews`). It also has a capacity fixed at construction.
`ProcessPageView` answers whether an identifier is new:
- A tracked identifier is a repeat and changes nothing.
- An untracked identifier is unique. When the queue is full, its front (oldest) identifier is
  dequeued and forgotten first. Then the new identifier is enqueued and tracked.

Layout:
- `sequences.dfy` (module `Sequences`): the set of elements of a sequence, duplicate-freedom,
  and how both behave when the front is dropped or an element is appended.
- `tracker.dfy` (module `Tracker`): the state `Handler(tracked, queue, maxSize)` and the
  invariant `Valid`. The constructor is `New`, which returns a `Result` instead of throwing.
  `ProcessPageView` is the pure function `Process`, which returns the verdict and the next state.
- `visits.dfy` (module `Visits`): `Run` feeds a stream of visits to a handler. `Counted` is an
  independent reference description of the same behaviour, with no set, no queue and no
  eviction step: a visit counts when its identifier is not among the last `maxSize` visits that
  counted. The module also proves the FIFO, idempotence and window properties, plus worked
  scenarios over arbitrary distinct identifiers.

The C# `int` parameter of the constructor is the newtype `Int32`. The queue length is at most
the capacity, so no count can overflow.

`Process` requires `Valid(h)`, the class invariant. The constructor is private and
`ProcessPageView` is the only mutator, so every reachable handler satisfies it. `New`
establishes it and `Process` preserves it.

With capacity 2, after the stream a, b, c, a the queue is [c, a], so a following b counts
again (`EvictedIdentifierCountsAgain`), while after a, b, c a visit from b is a repeat
(`FifoEviction`).

## Model

| member | source | states |
|---|---|---|
| Tracker.New | Tracker.cs:14-20 | A maximum queue size <= 0 is refused with an error. Any positive size gives an empty set, an empty queue and that capacity, and the result satisfies the invariant. |
| Tracker.Process | Tracker.cs:26-43 | Returns true exactly when the identifier is not tracked. Keeps the invariant and never changes the capacity. A repeat leaves the set and the queue unchanged. A unique visit becomes the last queue element and is tracked. With room left, nothing is removed. With a full queue, exactly the front identifier is removed from both the queue and the set. No other tracked identifier is ever dropped. |
| Tracker.WindowBound | Tracker.cs:10-12 | Under the invariant, the set and the queue have the same size, and it is at most the capacity. |
| Visits.Run | Tracker.cs:26-43 | Any stream of calls gives one verdict per visit. It preserves the invariant (set equals queue elements, no duplicates, size at most the capacity) and leaves the capacity unchanged. |
| Visits.ReferenceStep | Tracker.cs:30-39 | One call keeps a handler in step with the reference. If the queue holds the last `maxSize` counted visits, the call returns true exactly when the identifier is not among them. On true, the new queue is the last `maxSize` counted visits once this one is counted. |
| Visits.RunMatchesReference | Tracker.cs:30-39 | For every stream on a fresh handler, the verdicts equal the reference's verdicts. The queue is exactly the last `maxSize` counted visits, oldest first, and the set holds the same identifiers. So eviction is first-in first-out over counted visits, and repeats never reorder it. |
| Visits.NoEvictionWithinCapacity | Tracker.cs:32-39 | If a stream from a fresh handler names at most `maxSize` distinct identifiers, nothing is evicted: the handler ends up tracking every identifier in the stream. |
| Visits.FirstVisitsWithinCapacity | Tracker.cs:30-41 | Under the same bound, a visit counts exactly when its identifier did not occur earlier in the stream, so each identifier counts once, at its first visit. |
| Visits.RepeatedVisits | Tracker.cs:30-39 | On a valid handler, n >= 1 consecutive visits from one identifier: the first counts exactly when the identifier was untracked, every later one is a repeat, and the identifier ends up tracked. |
| Visits.RevisitDoesNotRefresh | Tracker.cs:30-36 | With a full queue, revisiting its oldest identifier is a repeat. A following new identifier still evicts that oldest identifier and keeps every other one. This is FIFO, not LRU. |
| Visits.RepeatInWindow | Tracker.cs:30 | For capacity >= 2 and distinct a, b, the stream a, b, a gives true, true, false and leaves the queue [a, b]. |
| Visits.EvictOldest | Tracker.cs:32-39 | For capacity 2 and distinct a, b, c, the stream a, b, c counts every visit and leaves the queue [b, c]. |
| Visits.FifoEviction | Tracker.cs:30-39 | For capacity 2, a, b, c, b gives true, true, true, false. a, b, c, a gives four trues and leaves the queue [c, a]. |
| Visits.EvictedIdentifierCountsAgain | Tracker.cs:30-41 | For capacity 2 and distinct a, b, c, the stream a, b, c, a, b counts all five visits. |
| Visits.RepeatKeepsOrder | Tracker.cs:30-39 | For capacity 2 and distinct a, b, c, the stream a, b, a, c gives true, true, false, true and leaves the queue [b, c]: the repeat of a did not move it behind b. |
| Visits.NotLeastRecentlyUsed | Tracker.cs:30-41 | For capacity 2 and distinct a, b, c, the stream a, b, a, c, a counts the last a, although a and c are the two most recently seen identifiers. |
| Visits.CapacityOneRepeat | Tracker.cs:30 | For capacity 1, a, a gives true, false and the queue stays [a]. |
| Visits.CapacityOneEvicts | Tracker.cs:32-39 | For capacity 1, a, a, b gives true, false, true and leaves the queue [b]. |
| Visits.CapacityOne | Tracker.cs:30-41 | For capacity 1, a, a, b, a gives true, false, true, true: one identifier is remembered until the next distinct one arrives. |

## Left out

- `GetPageviewHandler` (Tracker.cs:45-74) is not modelled. It is double-checked locking over a
  concurrent dictionary of per-key lock objects. Its one property, single construction per key
  under racing first access, is about concurrency, which a sequential model cannot state.
- The ASP.NET cache (`Common.GetCache()`, sliding expiry, `CacheItemPriority`) and the
  `Settings.Entities.*` configuration are not modelled. They are foreign calls whose behaviour is
  not visible. The capacity is simply a parameter of `New`.
- `MiniProfiler.Current.Step` (Tracker.cs:28) is not modelled: it is instrumentation with no
  effect on the result.
- The exception thrown at Tracker.cs:16 is modelled as the error value `InvalidQueueSize`. Its
  .NET exception type is not modelled.
- `HashSet` and `Queue` are abstracted as `set<string>` and `seq<string>`. Their performance and
  the queue's initial allocation size (Tracker.cs:19) are not modelled.
- Tracker.New: allocation failure is not modelled. `new Queue<string>(maximumQueueSize)` at
  Tracker.cs:19 pre-allocates that many slots, so a very large positive size can throw an
  out-of-memory exception, whereas `New` succeeds for every positive size.
- Identifiers are Dafny `string`s, so a null identifier and strings holding lone UTF-16
  surrogates are not modelled. The handler only compares identifiers for equality, so any such
  value would behave like one more distinct identifier.
- Concurrent calls to `ProcessPageView` on one handler are unsynchronised in the source and are
  not modelled: each call is one atomic step.
