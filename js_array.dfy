/**
 * The two JavaScript array operations the route handlers use on a copy of
 * the waypoint list: `filter((_, i) => i !== index)` and
 * `splice(start, 0, item)`.
 */
module JsArray {

  /** `s.filter((_, i) => i !== index)`: keeps, in order, every element whose position is not `index`. */
  function WithoutIndex<T>(s: seq<T>, index: int): (r: seq<T>)
    ensures 0 <= index < |s| ==> r == s[..index] + s[index + 1..]
    ensures !(0 <= index < |s|) ==> r == s
  {
    if |s| == 0 then []
    else WithoutIndex(s[..|s| - 1], index) + (if |s| - 1 == index then [] else [s[|s| - 1]])
  }

  /**
   * Where `splice(start, ...)` starts on an array of length `len`: a negative
   * start counts from the end, and the result is clamped to `0..len`.
   */
  function SpliceStart(start: int, len: nat): (k: nat)
    ensures k <= len
    ensures 0 <= start <= len ==> k == start
    ensures start > len ==> k == len
    ensures start < 0 ==> k == if len + start < 0 then 0 else len + start
  {
    if start < 0 then (if len + start < 0 then 0 else len + start)
    else if start > len then len
    else start
  }

  /** A negative start within the array names the same position as its distance from the start. */
  lemma NegativeCountsFromEnd(start: int, len: nat)
    requires -(len as int) <= start < 0
    ensures SpliceStart(start, len) == SpliceStart(len + start, len)
    ensures SpliceStart(start, len) < len
  {
  }

  /**
   * `a[index] = x` on a copy of `s`: an index in range replaces that
   * element, the index `|s|` appends, and a negative index sets a property
   * that is not an element, leaving the elements as they were.
   */
  function AssignAt<T>(s: seq<T>, index: int, x: T): (r: seq<T>)
    requires index <= |s|
    ensures index < 0 ==> r == s
    ensures 0 <= index < |s| ==> |r| == |s|
    ensures index == |s| ==> |r| == |s| + 1
    ensures 0 <= index ==> r[index] == x
    ensures forall k :: 0 <= k < |s| && k != index ==> r[k] == s[k]
  {
    if index < 0 then s else if index == |s| then s + [x] else s[index := x]
  }

  /** `a.splice(start, 0, x)` on a copy of `s`: the array with `x` inserted at the splice position. */
  function SpliceInsert<T>(s: seq<T>, start: int, x: T): (r: seq<T>)
    ensures |r| == |s| + 1
    ensures r[SpliceStart(start, |s|)] == x
    ensures forall i :: 0 <= i < SpliceStart(start, |s|) ==> r[i] == s[i]
    ensures forall i :: SpliceStart(start, |s|) <= i < |s| ==> r[i + 1] == s[i]
  {
    var k := SpliceStart(start, |s|);
    s[..k] + [x] + s[k..]
  }

  /** Inserting an element and then filtering out its position gives the original array back. */
  lemma RemoveUndoesInsert<T>(s: seq<T>, index: int, x: T)
    requires 0 <= index <= |s|
    ensures WithoutIndex(SpliceInsert(s, index, x), index) == s
  {
    var r := SpliceInsert(s, index, x);
    assert r == s[..index] + [x] + s[index..];
    assert r[..index] == s[..index] && r[index + 1..] == s[index..];
    assert s[..index] + s[index..] == s;
  }

  /** Filtering out a position and then inserting its element there again gives the original array back. */
  lemma InsertUndoesRemove<T>(s: seq<T>, index: int)
    requires 0 <= index < |s|
    ensures SpliceInsert(WithoutIndex(s, index), index, s[index]) == s
  {
    var front, back := s[..index], s[index + 1..];
    assert WithoutIndex(s, index) == front + back;
    SpliceBetween(front, s[index], back);
    Reassemble(s, index);
  }

  /** An array is its part before `index`, its element at `index` and its part after. */
  lemma Reassemble<T>(s: seq<T>, index: int)
    requires 0 <= index < |s|
    ensures s[..index] + [s[index]] + s[index + 1..] == s
  {
    assert s[..index] + [s[index]] == s[..index + 1];
  }

  /** Splicing at the end of `a` in `a + b` puts the element between the two. */
  lemma SpliceBetween<T>(a: seq<T>, x: T, b: seq<T>)
    ensures SpliceInsert(a + b, |a|, x) == a + [x] + b
  {
    assert (a + b)[..|a|] == a && (a + b)[|a|..] == b;
  }
}
