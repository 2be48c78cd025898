/** Sequence primitives behind the project list: `Vec::remove`, `Vec::insert`
    and the remove-then-insert move that drag-and-drop reordering performs. */
module Seqs {

  /** No element occurs twice (the keys of a JSON object, for one). */
  predicate Distinct<T(==)>(s: seq<T>) {
    forall i, j :: 0 <= i < j < |s| ==> s[i] != s[j]
  }

  /** `s` without the element at `i`; the later elements shift down by one. */
  function Remove<T>(s: seq<T>, i: nat): (r: seq<T>)
    requires i < |s|
    ensures |r| == |s| - 1
    ensures forall k :: 0 <= k < i ==> r[k] == s[k]
    ensures forall k :: i <= k < |r| ==> r[k] == s[k + 1]
    ensures multiset(r) + multiset{s[i]} == multiset(s)
  {
    assert s == s[..i] + [s[i]] + s[i + 1..];
    s[..i] + s[i + 1..]
  }

  /** `s` with `x` placed at position `i`; the elements from `i` on shift up by one. */
  function Insert<T>(s: seq<T>, i: nat, x: T): (r: seq<T>)
    requires i <= |s|
    ensures |r| == |s| + 1
    ensures r[i] == x
    ensures forall k :: 0 <= k < i ==> r[k] == s[k]
    ensures forall k :: i < k < |r| ==> r[k] == s[k - 1]
    ensures multiset(r) == multiset(s) + multiset{x}
  {
    assert s == s[..i] + s[i..];
    s[..i] + [x] + s[i..]
  }

  /** Takes the element at `from` out and puts it back at `to`. */
  function Move<T>(s: seq<T>, from: nat, to: nat): (r: seq<T>)
    requires from < |s| && to < |s|
    ensures |r| == |s|
    ensures multiset(r) == multiset(s)
    ensures r[to] == s[from]
    ensures from <= to ==>
      && (forall k :: 0 <= k < from ==> r[k] == s[k])
      && (forall k :: from <= k < to ==> r[k] == s[k + 1])
      && (forall k :: to < k < |s| ==> r[k] == s[k])
    ensures to <= from ==>
      && (forall k :: 0 <= k < to ==> r[k] == s[k])
      && (forall k :: to < k <= from ==> r[k] == s[k - 1])
      && (forall k :: from < k < |s| ==> r[k] == s[k])
  {
    Insert(Remove(s, from), to, s[from])
  }

  /** Moving an element and then moving it back restores the sequence. */
  lemma MoveBackRestores<T>(s: seq<T>, from: nat, to: nat)
    requires from < |s| && to < |s|
    ensures Move(Move(s, from, to), to, from) == s
  {
    var back := Move(Move(s, from, to), to, from);
    assert |back| == |s|;
    forall k | 0 <= k < |s|
      ensures back[k] == s[k]
    {
    }
  }
}
