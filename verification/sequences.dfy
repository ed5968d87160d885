/**
 Facts about sequences used as queues: the set of elements a sequence holds,
 duplicate-freedom, and how both behave when the front is dropped or an
 element is appended at the back.
 */
module Sequences {

  /** The set of elements that occur in `s`. */
  function Elements<T>(s: seq<T>): set<T>
  {
    set x | x in s
  }

  /** No element occurs twice in `s`. */
  predicate NoDuplicates<T(==)>(s: seq<T>)
  {
    forall i, j :: 0 <= i < j < |s| ==> s[i] != s[j]
  }

  /** A duplicate-free sequence has exactly as many elements as its set. */
  lemma {:induction false} DistinctCardinality<T>(s: seq<T>)
    requires NoDuplicates(s)
    ensures |Elements(s)| == |s|
  {
    if s != [] {
      DropFront(s);
      DistinctCardinality(s[1..]);
      assert Elements(s) == Elements(s[1..]) + {s[0]};
    }
  }

  /** Dropping the front of a duplicate-free sequence removes exactly that element. */
  lemma DropFront<T>(s: seq<T>)
    requires NoDuplicates(s) && |s| > 0
    ensures NoDuplicates(s[1..])
    ensures s[0] !in s[1..]
    ensures Elements(s[1..]) == Elements(s) - {s[0]}
  {
  }

  /** Appending a fresh element keeps a sequence duplicate-free and adds it to the set. */
  lemma AppendFresh<T>(s: seq<T>, x: T)
    requires NoDuplicates(s) && x !in s
    ensures NoDuplicates(s + [x])
    ensures Elements(s + [x]) == Elements(s) + {x}
  {
  }
}
