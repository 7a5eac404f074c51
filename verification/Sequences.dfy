/** Lists of parts and their concatenation: reads, frames, batches and messages. */
module Sequences {

  /** All the parts, one after the other. */
  function Concat<T>(parts: seq<seq<T>>): seq<T> {
    if parts == [] then [] else Concat(parts[..|parts| - 1]) + parts[|parts| - 1]
  }

  lemma ConcatAppend<T>(parts: seq<seq<T>>, part: seq<T>)
    ensures Concat(parts + [part]) == Concat(parts) + part
  {
    assert (parts + [part])[..|parts|] == parts;
  }

  /** The same list taken apart at the front. */
  lemma {:induction false} ConcatFront<T>(parts: seq<seq<T>>)
    requires parts != []
    ensures Concat(parts) == parts[0] + Concat(parts[1..])
  {
    var front, last := parts[..|parts| - 1], parts[|parts| - 1];
    if front != [] {
      ConcatFront(front);
      assert front[1..] + [last] == parts[1..];
      ConcatAppend(front[1..], last);
      assert (front[0] + Concat(front[1..])) + last == front[0] + (Concat(front[1..]) + last);
    }
  }

  lemma {:induction false} ConcatPrefix<T>(parts: seq<seq<T>>, i: nat, j: nat)
    requires i < |parts| && j <= |parts[i]|
    ensures Concat(parts[..i]) + parts[i][..j] <= Concat(parts)
    ensures Concat(parts[..i + 1]) == Concat(parts[..i]) + parts[i]
  {
    var front, last := parts[..|parts| - 1], parts[|parts| - 1];
    assert parts[..i + 1][..i] == parts[..i];
    if i < |parts| - 1 {
      ConcatPrefix(front, i, j);
      assert front[..i] == parts[..i] && front[i] == parts[i];
    }
  }

  lemma {:induction false} ConcatMember<T>(parts: seq<seq<T>>, i: nat, x: T)
    requires i < |parts| && x in parts[i]
    ensures x in Concat(parts)
  {
    if i < |parts| - 1 {
      ConcatMember(parts[..|parts| - 1], i, x);
    }
  }
}
