/**
 * The two forms of JavaScript's Array.prototype.splice that the editor applies
 * to its line array: inserting one line, and removing one line. Both clamp an
 * index past the end as JavaScript does.
 */
module LineArray {
  import opened TextMetrics

  /** lines.splice(i, 0, x): insert `x` before index `i` (at the end when `i` is past it). */
  function InsertAt(lines: seq<string>, i: nat, x: string): (r: seq<string>)
    ensures |r| == |lines| + 1
    ensures r[Min(i, |lines|)] == x
    ensures forall k :: 0 <= k < Min(i, |lines|) ==> r[k] == lines[k]
    ensures forall k :: Min(i, |lines|) <= k < |lines| ==> r[k + 1] == lines[k]
  {
    var j := Min(i, |lines|);
    lines[..j] + [x] + lines[j..]
  }

  /** lines.splice(i, 1): remove the line at index `i`; nothing happens when there is none. */
  function RemoveAt(lines: seq<string>, i: nat): (r: seq<string>)
    ensures i < |lines| ==> |r| == |lines| - 1
    ensures i >= |lines| ==> r == lines
    ensures forall k :: 0 <= k < Min(i, |r|) ==> r[k] == lines[k]
    ensures forall k :: i <= k < |r| ==> r[k] == lines[k + 1]
  {
    if i < |lines| then lines[..i] + lines[i + 1..] else lines
  }

  /**
   * lines[i] = x: overwrite the line at index `i`, or append `x` when `i` is
   * the length of the array (an index further out would leave a hole).
   */
  function SetAt(lines: seq<string>, i: nat, x: string): (r: seq<string>)
    requires i <= |lines|
    ensures |r| == Max(|lines|, i + 1)
    ensures r[i] == x
    ensures forall k :: 0 <= k < |lines| && k != i ==> r[k] == lines[k]
  {
    if i < |lines| then lines[i := x] else lines + [x]
  }

  /** Removing the line right after a prefix drops the first line of what follows it. */
  lemma RemoveAfter(head: seq<string>, rest: seq<string>)
    requires |rest| >= 1
    ensures RemoveAt(head + rest, |head|) == head + rest[1..]
  {
    assert (head + rest)[..|head|] == head;
    assert (head + rest)[|head| + 1..] == rest[1..];
  }
}
