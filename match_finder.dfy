/**
 * The first-fit, single-candidate match finder (`find_repeat_element`,
 * src/lib.rs:60-107).
 *
 * The scan walks `searchBuf[searchOffset..]`. Until the first byte of
 * `data` is seen nothing is counted; from there the run is extended byte by
 * byte and the scan stops at the first mismatch, when all of `data` has
 * matched, or at the end of the buffer. No other alignment is tried.
 * Indices in a `Match` are relative to the scanned slice.
 */
module MatchFinder {
  import opened Types

  /** `(length, distance, stop index)` as the source returns them. */
  datatype Match = Match(length: nat, distance: nat, stop: nat)

  /** Position of the first `x` in `s`, or `|s|` when there is none. */
  function FirstIndexOf(s: seq<byte>, x: byte): nat
  {
    if s == [] then 0
    else if s[0] == x then 0
    else 1 + FirstIndexOf(s[1..], x)
  }

  /** Length of the longest common prefix of `a` and `b`. */
  function CommonPrefix(a: seq<byte>, b: seq<byte>): nat
  {
    if a == [] || b == [] || a[0] != b[0] then 0
    else 1 + CommonPrefix(a[1..], b[1..])
  }

  /**
   * The result of `find_repeat_element`. The run starts at the first
   * occurrence `p` of `data[0]` in the scanned slice and covers the common
   * prefix of the slice from `p` and `data`; the stop index is the position
   * after the run, or the last position when the run reaches the end. A run
   * is reported only when `dataOffset + length` exceeds the stop index.
   */
  function Find(searchBuf: seq<byte>, data: seq<byte>, dataOffset: nat, searchOffset: nat): Option<Match>
    requires searchOffset <= |searchBuf|
  {
    var s := searchBuf[searchOffset..];
    if data == [] then None
    else
      var p := FirstIndexOf(s, data[0]);
      if p >= |s| then None
      else
        var length := CommonPrefix(s[p..], data);
        var stop := if p + length < |s| then p + length else |s| - 1;
        if dataOffset + length > stop then Some(Match(length, dataOffset + length - stop, stop))
        else None
  }

  /** `FirstIndexOf` finds the first occurrence, and `|s|` means there is none. */
  lemma {:induction false} FirstIndexOfSpec(s: seq<byte>, x: byte)
    ensures FirstIndexOf(s, x) <= |s|
    ensures FirstIndexOf(s, x) < |s| ==> s[FirstIndexOf(s, x)] == x
    ensures forall q :: 0 <= q < FirstIndexOf(s, x) ==> s[q] != x
  {
    if s != [] && s[0] != x {
      FirstIndexOfSpec(s[1..], x);
    }
  }

  /** `CommonPrefix` is a common prefix that ends at a mismatch or at the end of either sequence. */
  lemma {:induction false} CommonPrefixSpec(a: seq<byte>, b: seq<byte>)
    ensures CommonPrefix(a, b) <= |a| && CommonPrefix(a, b) <= |b|
    ensures a[..CommonPrefix(a, b)] == b[..CommonPrefix(a, b)]
    ensures var l := CommonPrefix(a, b); l == |a| || l == |b| || a[l] != b[l]
  {
    if a != [] && b != [] && a[0] == b[0] {
      CommonPrefixSpec(a[1..], b[1..]);
      var l := CommonPrefix(a, b);
      assert a[..l] == [a[0]] + a[1..][..l - 1];
      assert b[..l] == [b[0]] + b[1..][..l - 1];
    }
  }

  /**
   * What a reported match satisfies: `1 <= length <= |data|`, the stop
   * index lies in the scanned slice and before `dataOffset + length`, and
   * the distance is `dataOffset + length - stop`, at least 1.
   */
  lemma FindBounds(searchBuf: seq<byte>, data: seq<byte>, dataOffset: nat, searchOffset: nat)
    requires searchOffset <= |searchBuf|
    ensures var r := Find(searchBuf, data, dataOffset, searchOffset);
      r.Some? ==>
        && 1 <= r.value.length <= |data|
        && r.value.stop < |searchBuf| - searchOffset
        && r.value.stop < dataOffset + r.value.length
        && 1 <= r.value.distance == dataOffset + r.value.length - r.value.stop
  {
    var s := searchBuf[searchOffset..];
    if data != [] {
      var p := FirstIndexOf(s, data[0]);
      FirstIndexOfSpec(s, data[0]);
      if p < |s| {
        CommonPrefixSpec(s[p..], data);
        assert s[p..][0] == data[0];
      }
    }
  }

  /** `find_repeat_element`: one pass over the slice with `break` and `continue`. */
  method FindRepeatElement(searchBuf: seq<byte>, data: seq<byte>, dataOffset: nat, searchOffset: nat)
    returns (coords: Option<Match>)
    requires searchOffset <= |searchBuf|
    ensures coords == Find(searchBuf, data, dataOffset, searchOffset)
  {
    var s := searchBuf[searchOffset..];
    var length: nat := 0;
    var lastIdx: nat := 0;
    var isPrevMatch := false;
    ghost var end := |s|;
    for i := 0 to |s|
      invariant end == |s|
      invariant lastIdx == if i == 0 then 0 else i - 1
      invariant !isPrevMatch ==> length == 0
      invariant !isPrevMatch && i > 0 ==> data != [] && forall q :: 0 <= q < i ==> s[q] != data[0]
      invariant isPrevMatch ==> 1 <= length <= i && length <= |data|
      invariant isPrevMatch ==> s[i - length..i] == data[..length]
      invariant isPrevMatch ==> forall q :: 0 <= q < i - length ==> s[q] != data[0]
    {
      lastIdx := i;
      if |data| <= length {
        end := i;
        break;
      }
      if data[length] == s[i] {
        assert s[i - length..i + 1] == s[i - length..i] + [s[i]];
        assert data[..length + 1] == data[..length] + [data[length]];
        isPrevMatch := true;
        length := length + 1;
        continue;
      }
      if isPrevMatch {
        end := i;
        break;
      }
      length := 0;
    }

    if length != 0 && dataOffset + length > lastIdx {
      var dist := dataOffset + length - lastIdx;
      coords := Some(Match(length, dist, lastIdx));
    } else {
      coords := None;
    }

    if isPrevMatch {
      FindFirstFit(searchBuf, data, dataOffset, searchOffset, end - length, length);
    } else {
      FindNone(searchBuf, data, dataOffset, searchOffset);
    }
  }

  lemma FirstIndexOfUnique(s: seq<byte>, x: byte, p: nat)
    requires p < |s| && s[p] == x
    requires forall q :: 0 <= q < p ==> s[q] != x
    ensures FirstIndexOf(s, x) == p
  {
    FirstIndexOfSpec(s, x);
  }

  lemma CommonPrefixUnique(a: seq<byte>, b: seq<byte>, l: nat)
    requires l <= |a| && l <= |b| && a[..l] == b[..l]
    requires l == |a| || l == |b| || a[l] != b[l]
    ensures CommonPrefix(a, b) == l
  {
    CommonPrefixSpec(a, b);
  }

  /**
   * First fit: when `p` is the first position of the scanned slice
   * `searchBuf[searchOffset..]` holding `data[0]`, and the slice from `p`
   * agrees with `data` on `l` bytes up to a mismatch, the end of `data` or
   * the end of the buffer, then the finder reports exactly that run, stopping
   * after it (or on the last position) -- or nothing, when the offset check
   * fails.
   */
  lemma FindFirstFit(searchBuf: seq<byte>, data: seq<byte>, dataOffset: nat, searchOffset: nat, p: nat, l: nat)
    requires searchOffset <= |searchBuf| && data != []
    requires var s := searchBuf[searchOffset..];
      && p < |s| && s[p] == data[0]
      && (forall q :: 0 <= q < p ==> s[q] != data[0])
      && p + l <= |s| && l <= |data| && s[p..p + l] == data[..l]
      && (l == |data| || p + l == |s| || s[p + l] != data[l])
    ensures var s := searchBuf[searchOffset..];
      var stop := if p + l < |s| then p + l else |s| - 1;
      Find(searchBuf, data, dataOffset, searchOffset)
      == if dataOffset + l > stop then Some(Match(l, dataOffset + l - stop, stop)) else None
  {
    var s := searchBuf[searchOffset..];
    FirstIndexOfUnique(s, data[0], p);
    assert s[p..][..l] == s[p..p + l];
    CommonPrefixUnique(s[p..], data, l);
  }

  /** Nothing is found for empty `data`, or when `data[0]` does not occur in the scanned slice. */
  lemma FindNone(searchBuf: seq<byte>, data: seq<byte>, dataOffset: nat, searchOffset: nat)
    requires searchOffset <= |searchBuf|
    requires data == [] || data[0] !in searchBuf[searchOffset..]
    ensures Find(searchBuf, data, dataOffset, searchOffset) == None
  {
    if data != [] {
      FirstIndexOfSpec(searchBuf[searchOffset..], data[0]);
    }
  }

  /** Finder test vector: the whole of `data` matches the start of the buffer. */
  lemma FindVectorWholeRun()
    ensures Find([10, 20, 30, 40, 10, 20, 30, 40, 50], [10, 20, 30, 40], 4, 0) == Some(Match(4, 4, 4))
  {
    var buf: seq<byte> := [10, 20, 30, 40, 10, 20, 30, 40, 50];
    var data: seq<byte> := [10, 20, 30, 40];
    assert buf[0..4] == data[..4];
    FindFirstFit(buf, data, 4, 0, 0, 4);
    assert Find(buf, data, 4, 0) == Some(Match(4, 4, 4));
  }

  /** Finder test vector: only the first two bytes match before a mismatch ends the run. */
  lemma FindVectorBrokenRun()
    ensures Find([10, 20, 20, 40, 10, 20, 30, 40, 50], [10, 20, 30, 40], 9, 0) == Some(Match(2, 9, 2))
  {
    var buf: seq<byte> := [10, 20, 20, 40, 10, 20, 30, 40, 50];
    var data: seq<byte> := [10, 20, 30, 40];
    assert buf[0..2] == data[..2];
    FindFirstFit(buf, data, 9, 0, 0, 2);
    assert Find(buf, data, 9, 0) == Some(Match(2, 9, 2));
  }

  /** Finder test vector: the run ends at the end of the buffer. */
  lemma FindVectorRunAtEnd()
    ensures Find([1, 2, 3, 4, 5, 6, 7, 8, 9, 10], [7, 8, 9], 10, 0) == Some(Match(3, 4, 9))
  {
    var buf: seq<byte> := [1, 2, 3, 4, 5, 6, 7, 8, 9, 10];
    var data: seq<byte> := [7, 8, 9];
    assert buf[6..9] == data[..3];
    FindFirstFit(buf, data, 10, 0, 6, 3);
    assert Find(buf, data, 10, 0) == Some(Match(3, 4, 9));
  }

  /** Finder test vector: a one-byte run, cut by the mismatch that follows it. */
  lemma FindVectorOneByteRun()
    ensures Find([1, 2, 3, 4, 5, 6, 7, 9, 9, 10], [7, 8, 9], 10, 0) == Some(Match(1, 4, 7))
  {
    var buf: seq<byte> := [1, 2, 3, 4, 5, 6, 7, 9, 9, 10];
    var data: seq<byte> := [7, 8, 9];
    assert buf[6..7] == data[..1];
    FindFirstFit(buf, data, 10, 0, 6, 1);
    assert Find(buf, data, 10, 0) == Some(Match(1, 4, 7));
  }
}
