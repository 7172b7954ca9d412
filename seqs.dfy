/** Generic sequence operations that stand for the Rust iterator adaptors the
    core uses (`filter`, `filter_map`, `find`, `find_map`), together with the
    Option and Result wrappers that stand for `Option` and panicking or
    fallible conversions. */
module Seqs {

  datatype Option<+T> = None | Some(value: T) {
    /** `unwrap_or`: the carried value, or the default. */
    function GetOr(default: T): T {
      match this
      case Some(v) => v
      case None => default
    }
  }

  datatype Result<+T, +E> = Success(value: T) | Failure(error: E)

  /** `a` is `b` with some elements removed: same elements, same order. */
  ghost predicate IsSubsequence<T>(a: seq<T>, b: seq<T>)
    decreases |b|
  {
    if a == [] then true
    else if b == [] then false
    else (a[0] == b[0] && IsSubsequence(a[1..], b[1..])) || IsSubsequence(a, b[1..])
  }

  lemma {:induction false} SubsequenceTransitive<T>(a: seq<T>, b: seq<T>, c: seq<T>)
    requires IsSubsequence(a, b) && IsSubsequence(b, c)
    ensures IsSubsequence(a, c)
    decreases |c|
  {
    if a == [] {
    } else if IsSubsequence(b, c[1..]) {
      SubsequenceTransitive(a, b, c[1..]);
    } else {
      // b[0] == c[0] and b[1..] is a subsequence of c[1..]
      if a[0] == b[0] && IsSubsequence(a[1..], b[1..]) {
        SubsequenceTransitive(a[1..], b[1..], c[1..]);
      } else {
        SubsequenceTransitive(a, b[1..], c[1..]);
      }
    }
  }

  /** `iter().filter(p).collect()`: the elements satisfying `p`, in order. */
  function Filter<T>(p: T -> bool, s: seq<T>): (r: seq<T>)
    ensures forall i :: 0 <= i < |r| ==> p(r[i]) && r[i] in s
    ensures forall i :: 0 <= i < |s| && p(s[i]) ==> s[i] in r
    ensures IsSubsequence(r, s)
    ensures |r| <= |s|
  {
    if s == [] then []
    else if p(s[0]) then [s[0]] + Filter(p, s[1..])
    else Filter(p, s[1..])
  }

  /** Filtering a concatenation filters each part: every occurrence that
      passes is kept, duplicates included. */
  lemma {:induction false} FilterAppend<T>(p: T -> bool, a: seq<T>, b: seq<T>)
    ensures Filter(p, a + b) == Filter(p, a) + Filter(p, b)
  {
    if a == [] {
      assert a + b == b;
    } else {
      assert (a + b)[0] == a[0];
      assert (a + b)[1..] == a[1..] + b;
      FilterAppend(p, a[1..], b);
    }
  }

  /** `iter().filter_map(f).collect()`: the values `f` yields, in order. */
  function FilterMap<T, U>(f: T -> Option<U>, s: seq<T>): (r: seq<U>)
    ensures |r| <= |s|
    ensures forall k :: 0 <= k < |r| ==> exists i :: 0 <= i < |s| && f(s[i]) == Some(r[k])
  {
    if s == [] then []
    else match f(s[0])
      case Some(y) => [y] + FilterMap(f, s[1..])
      case None => FilterMap(f, s[1..])
  }

  lemma {:induction false} FilterMapAppend<T, U>(f: T -> Option<U>, a: seq<T>, b: seq<T>)
    ensures FilterMap(f, a + b) == FilterMap(f, a) + FilterMap(f, b)
  {
    if a == [] {
      assert a + b == b;
    } else {
      assert (a + b)[0] == a[0];
      assert (a + b)[1..] == a[1..] + b;
      FilterMapAppend(f, a[1..], b);
    }
  }

  /** When `f` yields a value for every element, `filter_map` is a plain map. */
  lemma {:induction false} FilterMapTotal<T, U>(f: T -> Option<U>, s: seq<T>)
    requires forall i :: 0 <= i < |s| ==> f(s[i]).Some?
    ensures |FilterMap(f, s)| == |s|
    ensures forall i :: 0 <= i < |s| ==> FilterMap(f, s)[i] == f(s[i]).value
  {
    if s != [] {
      FilterMapTotal(f, s[1..]);
      var r := FilterMap(f, s);
      assert r == [f(s[0]).value] + FilterMap(f, s[1..]);
      forall i | 0 <= i < |s| ensures r[i] == f(s[i]).value {
        if i > 0 { assert s[1..][i - 1] == s[i]; }
      }
    }
  }

  /** `iter().position(p)` / `iter().find(p)`: the index of the first element
      satisfying `p`. */
  function FindIndex<T>(p: T -> bool, s: seq<T>): (r: Option<nat>)
    ensures r.Some? ==> r.value < |s| && p(s[r.value])
    ensures r.Some? ==> forall j :: 0 <= j < r.value ==> !p(s[j])
    ensures r.None? <==> forall j :: 0 <= j < |s| ==> !p(s[j])
  {
    if s == [] then None
    else if p(s[0]) then Some(0)
    else match FindIndex(p, s[1..])
      case Some(i) => Some(i + 1)
      case None => None
  }

  /** `iter().find_map(f)`: what `f` yields for the first element it maps to
      a value. */
  function FindMap<T, U>(f: T -> Option<U>, s: seq<T>): Option<U> {
    if s == [] then None
    else if f(s[0]).Some? then f(s[0])
    else FindMap(f, s[1..])
  }

  /** `find_map` finds nothing exactly when `f` maps every element to
      nothing. */
  lemma {:induction false} FindMapNone<T, U>(f: T -> Option<U>, s: seq<T>)
    ensures FindMap(f, s).None? <==> forall j :: 0 <= j < |s| ==> f(s[j]).None?
  {
    if s != [] {
      FindMapNone(f, s[1..]);
      assert forall j :: 1 <= j < |s| ==> s[j] == s[1..][j - 1];
    }
  }

  /** What `find_map` finds is the value of the first element `f` maps to a
      value. */
  lemma {:induction false} FindMapAt<T, U>(f: T -> Option<U>, s: seq<T>, i: nat)
    requires i < |s| && f(s[i]).Some?
    requires forall j :: 0 <= j < i ==> f(s[j]).None?
    ensures FindMap(f, s) == f(s[i])
  {
    if i > 0 {
      assert forall j :: 0 <= j < i - 1 ==> s[1..][j] == s[j + 1];
      FindMapAt(f, s[1..], i - 1);
    }
  }

  /** An element `f` maps to nothing does not change what `find_map` finds,
      wherever it stands. */
  lemma {:induction false} FindMapSkip<T, U>(f: T -> Option<U>, a: seq<T>, x: T, b: seq<T>)
    requires f(x).None?
    ensures FindMap(f, a + [x] + b) == FindMap(f, a + b)
  {
    if a == [] {
      assert a + [x] + b == [x] + b && ([x] + b)[0] == x && ([x] + b)[1..] == b;
      assert a + b == b;
    } else {
      assert (a + [x] + b)[0] == a[0] && (a + [x] + b)[1..] == a[1..] + [x] + b;
      assert (a + b)[0] == a[0] && (a + b)[1..] == a[1..] + b;
      FindMapSkip(f, a[1..], x, b);
    }
  }
}
