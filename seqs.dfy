/** Sequence operations behind the immutable array rebuilds (filter, splice). */
module Seqs {

  /** `s.filter(keep)`: the elements that pass `keep`, in their original order. */
  function Filter<T(!new)>(s: seq<T>, keep: T -> bool): (r: seq<T>)
    ensures |r| <= |s|
  {
    if s == [] then [] else (if keep(s[0]) then [s[0]] else []) + Filter(s[1..], keep)
  }

  /** The filtered sequence holds exactly the elements of `s` that pass `keep`. */
  lemma {:induction false} FilterMembers<T(!new)>(s: seq<T>, keep: T -> bool)
    ensures forall x :: x in Filter(s, keep) <==> x in s && keep(x)
  {
    if s != [] {
      FilterMembers(s[1..], keep);
      assert forall x :: x in s <==> x == s[0] || x in s[1..];
    }
  }

  lemma FilterCons<T(!new)>(x: T, s: seq<T>, keep: T -> bool)
    ensures Filter([x] + s, keep) == (if keep(x) then [x] else []) + Filter(s, keep)
  {
    assert ([x] + s)[0] == x && ([x] + s)[1..] == s;
  }

  /** Filtering distributes over concatenation, so relative order is kept. */
  lemma {:induction false} FilterAppend<T(!new)>(a: seq<T>, b: seq<T>, keep: T -> bool)
    ensures Filter(a + b, keep) == Filter(a, keep) + Filter(b, keep)
  {
    if a == [] {
      assert a + b == b;
    } else {
      var x, tail := a[0], a[1..];
      assert a == [x] + tail;
      assert a + b == [x] + (tail + b);
      FilterCons(x, tail + b, keep);
      FilterCons(x, tail, keep);
      FilterAppend(tail, b, keep);
    }
  }

  lemma {:induction false} FilterKeepsAll<T(!new)>(s: seq<T>, keep: T -> bool)
    requires forall i :: 0 <= i < |s| ==> keep(s[i])
    ensures Filter(s, keep) == s
  {
    if s != [] {
      FilterKeepsAll(s[1..], keep);
    }
  }

  /** `s` without its element at index `i`: `splice(i, 1)` on a copy. */
  function RemoveAt<T>(s: seq<T>, i: int): (r: seq<T>)
    requires 0 <= i < |s|
    ensures |r| == |s| - 1
  {
    s[..i] + s[i + 1..]
  }

  /** `s` with `x` inserted before index `i`: `splice(i, 0, x)` on a copy. */
  function InsertAt<T>(s: seq<T>, i: int, x: T): (r: seq<T>)
    requires 0 <= i <= |s|
    ensures |r| == |s| + 1 && r[i] == x
  {
    s[..i] + [x] + s[i..]
  }

  /** Exactly the element at `k` fails `keep`: filtering removes that one element. */
  lemma {:induction false} FilterRemovesOne<T(!new)>(s: seq<T>, keep: T -> bool, k: int)
    requires 0 <= k < |s| && !keep(s[k])
    requires forall j :: 0 <= j < |s| && j != k ==> keep(s[j])
    ensures Filter(s, keep) == RemoveAt(s, k)
  {
    var rest := s[1..];
    if k == 0 {
      assert forall j :: 0 <= j < |rest| ==> keep(rest[j]) by {
        assert forall j :: 0 <= j < |rest| ==> rest[j] == s[j + 1];
      }
      FilterKeepsAll(rest, keep);
      assert RemoveAt(s, 0) == rest;
    } else {
      assert forall j :: 0 <= j < |rest| && j != k - 1 ==> keep(rest[j]) by {
        assert forall j :: 0 <= j < |rest| ==> rest[j] == s[j + 1];
      }
      FilterRemovesOne(rest, keep, k - 1);
      assert RemoveAt(s, k) == [s[0]] + RemoveAt(rest, k - 1);
    }
  }

  /** The drag-and-drop move: take the element at `from` out, put it back at `to`. */
  function Moved<T>(s: seq<T>, from: int, to: int): (r: seq<T>)
    requires 0 <= from < |s| && 0 <= to < |s|
    ensures |r| == |s|
    ensures r[to] == s[from]
    ensures multiset(r) == multiset(s)
    ensures RemoveAt(r, to) == RemoveAt(s, from)
  {
    var u := RemoveAt(s, from);
    var r := InsertAt(u, to, s[from]);
    assert multiset(u) + multiset{s[from]} == multiset(s) by {
      assert s == s[..from] + [s[from]] + s[from + 1..];
    }
    assert multiset(r) == multiset(u) + multiset{s[from]} by {
      assert u == u[..to] + u[to..];
    }
    assert RemoveAt(r, to) == u by {
      assert r[..to] == u[..to] && r[to + 1..] == u[to..];
      assert u == u[..to] + u[to..];
    }
    r
  }

  /** Dragging the element back to where it came from restores the list. */
  lemma MovedBack<T>(s: seq<T>, from: int, to: int)
    requires 0 <= from < |s| && 0 <= to < |s|
    ensures Moved(Moved(s, from, to), to, from) == s
  {
    var u := RemoveAt(s, from);
    var m := Moved(s, from, to);
    assert RemoveAt(m, to) == u && m[to] == s[from];
    assert Moved(m, to, from) == InsertAt(u, from, s[from]);
    assert u[..from] == s[..from] && u[from..] == s[from + 1..];
    assert s == s[..from] + [s[from]] + s[from + 1..];
  }
}
