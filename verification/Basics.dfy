/** Small types shared by the component models. */
module Basics {

  datatype Option<+T> = None | Some(value: T)

  /** One byte of a buffer. */
  type Byte = x: int | 0 <= x < 256

  /** A JavaScript / Go / Rust unsigned 32-bit number. */
  type U32 = x: int | 0 <= x < 0x1_0000_0000

  /** In nanoseconds. */
  const SECOND: int := 1_000_000_000

  function Max(a: int, b: int): int { if a < b then b else a }

  function Min(a: int, b: int): int { if a < b then a else b }

  lemma Pick<T>(s: set<T>) returns (e: T)
    requires s != {}
    ensures e in s
  {
    e :| e in s;
  }

  lemma {:induction false} SubsetSize<T>(x: set<T>, y: set<T>)
    requires x <= y
    ensures |x| <= |y|
    decreases x
  {
    if x == {} {
    } else {
      var e := Pick(x);
      SubsetSize(x - {e}, y - {e});
    }
  }

  /** Taking keys out of a map never makes it larger, and taking one present key out makes it smaller. */
  lemma MapMinusSize<K, V>(m: map<K, V>, gone: set<K>)
    ensures (m - gone).Keys == m.Keys - gone
    ensures |m - gone| <= |m|
    ensures (exists k :: k in gone && k in m) ==> |m - gone| < |m|
  {
    assert (m - gone).Keys == m.Keys - gone;
    SubsetSize((m - gone).Keys, m.Keys);
    if k :| k in gone && k in m {
      SubsetSize((m - gone).Keys, m.Keys - {k});
    }
  }

  lemma MulMono(a: nat, b: nat, c: nat)
    requires a <= b
    ensures a * c <= b * c && c * a <= c * b
  {
  }

  /** Row `y` of `n` rows of `len` cells each. */
  lemma RowSpan(y: nat, n: nat, len: nat)
    requires y < n
    ensures 0 <= y * len && y * len + len == (y + 1) * len <= n * len
  {
    MulMono(y + 1, n, len);
  }

  /** Such a row lies inside a buffer that holds all of them. */
  lemma RowInBuffer(y: nat, n: nat, len: nat, size: nat)
    requires y < n && len * n <= size
    ensures 0 <= y * len && y * len + len <= size
  {
    RowSpan(y, n, len);
  }

  /** The last elements of a sequence, at most so many. */
  function Newest<T>(s: seq<T>, n: nat): (r: seq<T>)
    ensures |r| == Min(n, |s|)
  {
    if |s| <= n then s else s[|s| - n..]
  }

  // ----- Rows one after the other

  function Flatten<T>(rows: seq<seq<T>>): seq<T> {
    if rows == [] then [] else Flatten(rows[..|rows| - 1]) + rows[|rows| - 1]
  }

  ghost predicate AllLength<T>(rows: seq<seq<T>>, len: nat) {
    forall y :: 0 <= y < |rows| ==> |rows[y]| == len
  }

  lemma {:induction false} FlattenLength<T>(rows: seq<seq<T>>, len: nat)
    requires AllLength(rows, len)
    ensures |Flatten(rows)| == |rows| * len
  {
    if rows == [] {
    } else {
      FlattenLength(rows[..|rows| - 1], len);
      RowSpan(|rows| - 1, |rows|, len);
    }
  }

  /** Cell x of row y of a plane. */
  lemma {:induction false} FlattenAt<T>(rows: seq<seq<T>>, len: nat, y: nat, x: nat)
    requires AllLength(rows, len) && y < |rows| && x < len
    ensures 0 <= y * len + x < |Flatten(rows)| && Flatten(rows)[y * len + x] == rows[y][x]
  {
    var last := |rows| - 1;
    var before := Flatten(rows[..last]);
    FlattenLength(rows, len);
    FlattenLength(rows[..last], len);
    RowSpan(y, |rows|, len);
    if y < last {
      FlattenAt(rows[..last], len, y, x);
      assert (before + rows[last])[y * len + x] == before[y * len + x];
    } else {
      assert (before + rows[last])[|before| + x] == rows[last][x];
    }
  }

  /** The first rows of a plane are in place, up to this cell. */
  ghost predicate RowsIn(plane: seq<int>, rows: seq<seq<Byte>>, n: nat, end: nat) {
    n <= |rows| && end <= |plane| && plane[..end] == Flatten(rows[..n])
  }

  lemma RowsInNext(before: seq<int>, plane: seq<int>, rows: seq<seq<Byte>>, n: nat, end: nat, next: nat)
    requires RowsIn(before, rows, n, end) && n < |rows| && next == end + |rows[n]| <= |plane|
    requires plane[..next] == before[..end] + rows[n]
    ensures RowsIn(plane, rows, n + 1, next)
  {
    FlattenNext(rows, n);
  }

  lemma FlattenNext<T>(rows: seq<seq<T>>, n: nat)
    requires n < |rows|
    ensures Flatten(rows[..n + 1]) == Flatten(rows[..n]) + rows[n]
  {
    assert rows[..n + 1][..n] == rows[..n];
  }
}
