/**
 Streams of page views through one handler, and an independent description of
 what the handler remembers: the last `maxSize` visits that it counted as
 unique, in the order they were counted.
 */
module Visits {
  import opened Sequences
  import opened Tracker

  /** The answers to a stream of page views and the handler's state after them. */
  datatype Trace = Trace(verdicts: seq<bool>, final: Handler)

  /** Feeds `visits` to the handler one after another, oldest first. */
  function Run(h: Handler, visits: seq<string>): (t: Trace)
    requires Valid(h)
    ensures |t.verdicts| == |visits|
    ensures Valid(t.final) && t.final.maxSize == h.maxSize
    decreases |visits|
  {
    if visits == [] then
      Trace([], h)
    else
      var before := Run(h, visits[..|visits| - 1]);
      var step := Process(before.final, visits[|visits| - 1]);
      Trace(before.verdicts + [step.unique], step.next)
  }

  /** Feeding one more visit answers it against the state the earlier ones left. */
  lemma RunAppend(h: Handler, visits: seq<string>, v: string)
    requires Valid(h)
    ensures var before := Run(h, visits);
            var step := Process(before.final, v);
            Run(h, visits + [v]) == Trace(before.verdicts + [step.unique], step.next)
  {
  }

  /** The last `n` elements of `s`, or all of `s` when it is shorter. */
  function LastN(s: seq<string>, n: nat): (w: seq<string>)
    ensures |w| == if |s| <= n then |s| else n
  {
    if |s| <= n then s else s[|s| - n..]
  }

  /** The verdicts of the reference description and the visits it counted, in order. */
  datatype Reference = Reference(verdicts: seq<bool>, counted: seq<string>)

  /**
   The reference description of a handler of capacity `cap`: a visit is unique
   exactly when its identifier is not among the last `cap` counted visits.
   There is no set, no queue and no eviction step here.
   */
  function Counted(cap: nat, visits: seq<string>): (ref: Reference)
    ensures |ref.verdicts| == |visits|
    decreases |visits|
  {
    if visits == [] then
      Reference([], [])
    else
      var before := Counted(cap, visits[..|visits| - 1]);
      var v := visits[|visits| - 1];
      if v in LastN(before.counted, cap) then
        Reference(before.verdicts + [false], before.counted)
      else
        Reference(before.verdicts + [true], before.counted + [v])
  }

  /**
   One page view keeps a handler in step with the reference: if the queue is
   the last `maxSize` counted visits, the visit is unique exactly when the
   reference counts it, and the new queue is the last `maxSize` counted visits
   once it is counted.
   */
  lemma ReferenceStep(h: Handler, counted: seq<string>, ip: string)
    requires Valid(h) && h.queue == LastN(counted, h.maxSize as int)
    ensures Process(h, ip).unique == (ip !in LastN(counted, h.maxSize as int))
    ensures Process(h, ip).unique ==>
              Process(h, ip).next.queue == LastN(counted + [ip], h.maxSize as int)
  {
  }

  /**
   A fresh handler agrees with the reference on every stream: same verdicts,
   and its queue is exactly the last `maxSize` counted visits, oldest first.
   So eviction is first-in first-out over counted visits, whatever repeats
   happen in between.
   */
  lemma {:induction false} RunMatchesReference(maxSize: Int32, visits: seq<string>)
    requires 0 < maxSize
    ensures var t := Run(New(maxSize).value, visits);
            var ref := Counted(maxSize as int, visits);
            && t.verdicts == ref.verdicts
            && t.final.queue == LastN(ref.counted, maxSize as int)
            && t.final.tracked == Elements(LastN(ref.counted, maxSize as int))
    decreases |visits|
  {
    if visits != [] {
      var prefix := visits[..|visits| - 1];
      RunMatchesReference(maxSize, prefix);
      ReferenceStep(Run(New(maxSize).value, prefix).final, Counted(maxSize as int, prefix).counted, visits[|visits| - 1]);
    }
  }

  /**
   While a stream from a fresh handler names no more distinct identifiers than
   the capacity, nothing is ever evicted: the handler tracks every identifier seen.
   */
  lemma {:induction false} NoEvictionWithinCapacity(maxSize: Int32, visits: seq<string>)
    requires 0 < maxSize && |Elements(visits)| <= maxSize as int
    ensures Run(New(maxSize).value, visits).final.tracked == Elements(visits)
    decreases |visits|
  {
    if visits != [] {
      var prefix := visits[..|visits| - 1];
      var v := visits[|visits| - 1];
      assert visits == prefix + [v];
      assert Elements(visits) == Elements(prefix) + {v};
      if v !in Elements(prefix) {
        assert |Elements(visits)| == |Elements(prefix)| + 1;
      }
      NoEvictionWithinCapacity(maxSize, prefix);
      RunAppend(New(maxSize).value, prefix, v);
      WindowBound(Run(New(maxSize).value, prefix).final);
    }
  }

  /**
   Under the same bound every identifier is unique at its first visit and at
   no later one.
   */
  lemma {:induction false} FirstVisitsWithinCapacity(maxSize: Int32, visits: seq<string>)
    requires 0 < maxSize && |Elements(visits)| <= maxSize as int
    ensures var t := Run(New(maxSize).value, visits);
            forall i :: 0 <= i < |visits| ==> t.verdicts[i] == (visits[i] !in visits[..i])
    decreases |visits|
  {
    if visits != [] {
      var last := |visits| - 1;
      var prefix := visits[..last];
      var v := visits[last];
      assert visits == prefix + [v];
      assert Elements(prefix) <= Elements(visits);
      assert |Elements(prefix)| <= |Elements(visits)| by {
        if v !in Elements(prefix) {
          assert Elements(visits) == Elements(prefix) + {v};
        } else {
          assert Elements(visits) == Elements(prefix);
        }
      }
      FirstVisitsWithinCapacity(maxSize, prefix);
      NoEvictionWithinCapacity(maxSize, prefix);
      RunAppend(New(maxSize).value, prefix, v);
      var t := Run(New(maxSize).value, visits);
      assert t.verdicts[last] == (v !in prefix);
      forall i | 0 <= i < last
        ensures t.verdicts[i] == (visits[i] !in visits[..i])
      {
        assert visits[..i] == prefix[..i];
      }
    }
  }

  /** `n` page views in a row from the same identifier. */
  function Repeat(ip: string, n: nat): (s: seq<string>)
    ensures |s| == n
    ensures forall i :: 0 <= i < n ==> s[i] == ip
  {
    seq(n, _ => ip)
  }

  /**
   Repeated visits from one identifier: only the first can be unique (and is
   exactly when the identifier was not tracked); every later one is a repeat.
   */
  lemma {:induction false} RepeatedVisits(h: Handler, ip: string, n: nat)
    requires Valid(h) && 0 < n
    ensures var t := Run(h, Repeat(ip, n));
            && t.verdicts[0] == (ip !in h.tracked)
            && (forall i :: 0 < i < n ==> !t.verdicts[i])
            && ip in t.final.tracked
    decreases n
  {
    if n == 1 {
      assert Repeat(ip, 1)[..0] == [];
    } else {
      assert Repeat(ip, n)[..n - 1] == Repeat(ip, n - 1);
      RepeatedVisits(h, ip, n - 1);
    }
  }

  /**
   A repeat does not refresh an identifier: revisiting the oldest identifier of
   a full window and then visiting a new one still evicts that oldest
   identifier, and no other.
   */
  lemma RevisitDoesNotRefresh(h: Handler, newcomer: string)
    requires Valid(h) && Full(h) && newcomer !in h.tracked
    ensures var t := Run(h, [h.queue[0], newcomer]);
            && t.verdicts == [false, true]
            && h.queue[0] !in t.final.tracked
            && forall x :: x in h.tracked && x != h.queue[0] ==> x in t.final.tracked
  {
    RunAppend(h, [], h.queue[0]);
    RunAppend(h, [h.queue[0]], newcomer);
    assert [h.queue[0]] + [newcomer] == [h.queue[0], newcomer];
  }

  /** The first visit to an empty handler counts and fills the first slot. */
  lemma FirstVisit(h: Handler, a: string)
    requires Valid(h) && h.queue == []
    ensures Run(h, [a]).verdicts == [true] && Run(h, [a]).final.queue == [a]
  {
  }

  /** Two distinct visits to a fresh handler of capacity 2 or more both count. */
  lemma TwoDistinctVisits(maxSize: Int32, a: string, b: string)
    requires 2 <= maxSize && a != b
    ensures Run(New(maxSize).value, [a, b]).verdicts == [true, true]
    ensures Run(New(maxSize).value, [a, b]).final.queue == [a, b]
  {
    var h := New(maxSize).value;
    FirstVisit(h, a);
    RunAppend(h, [a], b);
    assert [a] + [b] == [a, b];
  }

  /** Capacity 2 or more, stream a, b, a: the second a is still in the window. */
  lemma RepeatInWindow(maxSize: Int32, a: string, b: string)
    requires 2 <= maxSize && a != b
    ensures Run(New(maxSize).value, [a, b, a]).verdicts == [true, true, false]
    ensures Run(New(maxSize).value, [a, b, a]).final.queue == [a, b]
  {
    var h := New(maxSize).value;
    TwoDistinctVisits(maxSize, a, b);
    RunAppend(h, [a, b], a);
    assert [a, b] + [a] == [a, b, a];
  }

  /** Capacity 2, distinct a, b, c: c counts and evicts a, the oldest, leaving [b, c]. */
  lemma EvictOldest(a: string, b: string, c: string)
    requires a != b && b != c && a != c
    ensures Run(New(2).value, [a, b, c]).verdicts == [true, true, true]
    ensures Run(New(2).value, [a, b, c]).final.queue == [b, c]
  {
    TwoDistinctVisits(2, a, b);
    RunAppend(New(2).value, [a, b], c);
    assert [a, b] + [c] == [a, b, c];
  }

  /**
   Capacity 2, distinct a, b, c: after a, b, c the identifier b is still in
   the window, while a counts again and in turn evicts b.
   */
  lemma FifoEviction(a: string, b: string, c: string)
    requires a != b && b != c && a != c
    ensures Run(New(2).value, [a, b, c, b]).verdicts == [true, true, true, false]
    ensures Run(New(2).value, [a, b, c, a]).verdicts == [true, true, true, true]
    ensures Run(New(2).value, [a, b, c, a]).final.queue == [c, a]
  {
    EvictOldest(a, b, c);
    RunAppend(New(2).value, [a, b, c], b);
    assert [a, b, c] + [b] == [a, b, c, b];
    RunAppend(New(2).value, [a, b, c], a);
    assert [a, b, c] + [a] == [a, b, c, a];
  }

  /** Capacity 2, stream a, b, c, a, b of distinct a, b, c: every visit counts. */
  lemma EvictedIdentifierCountsAgain(a: string, b: string, c: string)
    requires a != b && b != c && a != c
    ensures Run(New(2).value, [a, b, c, a, b]).verdicts == [true, true, true, true, true]
  {
    FifoEviction(a, b, c);
    RunAppend(New(2).value, [a, b, c, a], b);
    assert [a, b, c, a] + [b] == [a, b, c, a, b];
  }

  /**
   Capacity 2, distinct a, b, c, stream a, b, a, c: the repeat of a does not
   move it to the back, so c evicts a and the window is [b, c].
   */
  lemma RepeatKeepsOrder(a: string, b: string, c: string)
    requires a != b && b != c && a != c
    ensures Run(New(2).value, [a, b, a, c]).verdicts == [true, true, false, true]
    ensures Run(New(2).value, [a, b, a, c]).final.queue == [b, c]
  {
    var h := New(2).value;
    RepeatInWindow(2, a, b);
    RunAppend(h, [a, b, a], c);
    assert [a, b, a] + [c] == [a, b, a, c];
  }

  /**
   Capacity 2, stream a, b, a, c, a: just before the last a, the two most
   recently seen identifiers are c and a, yet a counts again. The window is
   the last identifiers counted, not the last identifiers seen.
   */
  lemma NotLeastRecentlyUsed(a: string, b: string, c: string)
    requires a != b && b != c && a != c
    ensures Run(New(2).value, [a, b, a, c, a]).verdicts == [true, true, false, true, true]
  {
    RepeatKeepsOrder(a, b, c);
    RunAppend(New(2).value, [a, b, a, c], a);
    assert [a, b, a, c] + [a] == [a, b, a, c, a];
  }

  /** Capacity 1, stream a, a: the repeat is caught and the window stays [a]. */
  lemma CapacityOneRepeat(a: string)
    ensures Run(New(1).value, [a, a]).verdicts == [true, false]
    ensures Run(New(1).value, [a, a]).final.queue == [a]
  {
    FirstVisit(New(1).value, a);
    RunAppend(New(1).value, [a], a);
    assert [a] + [a] == [a, a];
  }

  /** Capacity 1, stream a, a, b: b counts and evicts a. */
  lemma CapacityOneEvicts(a: string, b: string)
    requires a != b
    ensures Run(New(1).value, [a, a, b]).verdicts == [true, false, true]
    ensures Run(New(1).value, [a, a, b]).final.queue == [b]
  {
    CapacityOneRepeat(a);
    RunAppend(New(1).value, [a, a], b);
    assert [a, a] + [b] == [a, a, b];
  }

  /** Capacity 1, stream a, a, b, a: one identifier is remembered until the next distinct one. */
  lemma CapacityOne(a: string, b: string)
    requires a != b
    ensures Run(New(1).value, [a, a, b, a]).verdicts == [true, false, true, true]
  {
    CapacityOneEvicts(a, b);
    RunAppend(New(1).value, [a, a, b], a);
    assert [a, a, b] + [a] == [a, a, b, a];
  }
}
