/**
 * `Array.prototype.splice` over sequences, with ECMAScript's clamping of
 * the start index and of the delete count.
 */
module JsArray {

  /** The start position `splice` actually uses: a negative start counts
      back from the end (and stops at 0), a start past the end is the end. */
  function SpliceStart(len: nat, start: int): (a: nat)
    ensures a <= len
    ensures 0 <= start <= len ==> a == start
    ensures start > len ==> a == len
    ensures start < 0 ==> a == if len + start < 0 then 0 else len + start
  {
    if start < 0 then (if len + start < 0 then 0 else len + start)
    else if start > len then len
    else start
  }

  /** The number of elements `splice` actually deletes from position `a`. */
  function SpliceCount(len: nat, a: nat, deleteCount: int): (d: nat)
    requires a <= len
    ensures a + d <= len
    ensures 0 <= deleteCount <= len - a ==> d == deleteCount
  {
    if deleteCount < 0 then 0
    else if deleteCount > len - a then len - a
    else deleteCount
  }

  /** The array after `s.splice(start, deleteCount, ...items)`. */
  function Splice<T>(s: seq<T>, start: int, deleteCount: int, items: seq<T>): (r: seq<T>)
    ensures |r| == |s| - SpliceCount(|s|, SpliceStart(|s|, start), deleteCount) + |items|
  {
    var a := SpliceStart(|s|, start);
    var d := SpliceCount(|s|, a, deleteCount);
    s[..a] + items + s[a + d..]
  }

  /** The elements `s.splice(start, deleteCount, ...)` returns. */
  function Spliced<T>(s: seq<T>, start: int, deleteCount: int): seq<T> {
    var a := SpliceStart(|s|, start);
    s[a..a + SpliceCount(|s|, a, deleteCount)]
  }

  /** What is deleted and what is inserted together account for every
      element before and after. */
  lemma SpliceMultiset<T>(s: seq<T>, start: int, deleteCount: int, items: seq<T>)
    ensures multiset(Splice(s, start, deleteCount, items)) + multiset(Spliced(s, start, deleteCount)) ==
            multiset(s) + multiset(items)
  {
    var a := SpliceStart(|s|, start);
    var d := SpliceCount(|s|, a, deleteCount);
    assert s == s[..a] + s[a..a + d] + s[a + d..];
  }

  /** Removing one element at an index inside the array. */
  lemma SpliceRemoveOne<T>(s: seq<T>, i: int)
    requires 0 <= i < |s|
    ensures Splice(s, i, 1, []) == s[..i] + s[i + 1..]
    ensures Spliced(s, i, 1) == [s[i]]
  {
  }

  /** Inserting one element without deleting: it lands at the index, with
      what came before on its left and the rest on its right. */
  lemma SpliceInsert<T>(s: seq<T>, i: int, x: T)
    requires 0 <= i <= |s|
    ensures Splice(s, i, 0, [x]) == s[..i] + [x] + s[i..]
    ensures var r := Splice(s, i, 0, [x]);
      r[i] == x && r[..i] == s[..i] && r[i + 1..] == s[i..] &&
      multiset(r) == multiset(s) + multiset{x}
  {
    var r := s[..i] + [x] + s[i..];
    assert r[..i] == s[..i];
    assert r[i + 1..] == s[i..];
    assert s == s[..i] + s[i..];
  }
}
