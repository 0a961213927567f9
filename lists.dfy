/** The array operations the editors apply to the prompt list:
    `splice` removal and insertion, the single-element move of a drag
    reorder, and `filter`. */
module Lists {
  import opened Values

  /** `s` with the element at `i` removed (`s.splice(i, 1)` on a valid
      index): one shorter, elements before `i` in place, elements after
      it shifted down by one. */
  function RemoveAt<T>(s: seq<T>, i: nat): (r: seq<T>)
    requires i < |s|
    ensures |r| == |s| - 1
    ensures forall k :: 0 <= k < i ==> r[k] == s[k]
    ensures forall k :: i <= k < |r| ==> r[k] == s[k + 1]
    ensures multiset(r) + multiset{s[i]} == multiset(s)
  {
    assert s == s[..i] + [s[i]] + s[i + 1..];
    s[..i] + s[i + 1..]
  }

  /** `s` with `x` inserted so that it lands at index `i`
      (`s.splice(i, 0, x)` on an index up to the length). */
  function InsertAt<T>(s: seq<T>, i: nat, x: T): (r: seq<T>)
    requires i <= |s|
    ensures |r| == |s| + 1 && r[i] == x
    ensures forall k :: 0 <= k < i ==> r[k] == s[k]
    ensures forall k :: i < k < |r| ==> r[k] == s[k - 1]
    ensures multiset(r) == multiset(s) + multiset{x}
  {
    assert s == s[..i] + s[i..];
    s[..i] + [x] + s[i..]
  }

  /** The index `splice` starts at for a `start` argument on an array of
      length `len`: a negative start counts back from the end, and the
      result is clamped to `[0, len]`. */
  function SpliceStart(start: int, len: nat): (i: nat)
    ensures i <= len
    ensures 0 <= start <= len ==> i == start
    ensures start > len ==> i == len
    ensures start < 0 ==> i == if len + start < 0 then 0 else len + start
  {
    if start < 0 then (if len + start < 0 then 0 else len + start)
    else if start > len then len
    else start
  }

  /** `s.splice(start, 1)`: the removed element, if any, and the rest.
      An element is removed exactly when the start resolves inside the
      list; then the rest is one shorter and the two together hold what
      `s` held. A start inside the list removes the element it names. */
  function SpliceRemoveOne<T>(s: seq<T>, start: int): (r: (Option<T>, seq<T>))
    ensures r.0.Some? <==> SpliceStart(start, |s|) < |s|
    ensures r.0.Some? ==> |r.1| + 1 == |s| && multiset(r.1) + multiset{r.0.value} == multiset(s)
    ensures r.0.None? ==> r.1 == s
    ensures 0 <= start < |s| ==> r == (Some(s[start]), RemoveAt(s, start))
    ensures start >= |s| ==> r == (None, s)
  {
    var i := SpliceStart(start, |s|);
    if i < |s| then (Some(s[i]), RemoveAt(s, i)) else (None, s)
  }

  /** `s.splice(start, 0, x)`: one longer, `x` at the resolved start and
      nothing else lost or gained; a start inside the list (or at its end)
      is where `x` lands, and one past the end appends it. */
  function SpliceInsert<T>(s: seq<T>, start: int, x: T): (r: seq<T>)
    ensures |r| == |s| + 1 && r[SpliceStart(start, |s|)] == x
    ensures multiset(r) == multiset(s) + multiset{x}
    ensures 0 <= start <= |s| ==> r == InsertAt(s, start, x)
    ensures start >= |s| ==> r == s + [x]
  {
    InsertAt(s, SpliceStart(start, |s|), x)
  }

  /** Moves the element at `from` so that it ends up at `to`: remove it,
      then insert it into what is left. */
  function Move<T>(s: seq<T>, from: nat, to: nat): (r: seq<T>)
    requires from < |s| && to < |s|
  {
    InsertAt(RemoveAt(s, from), to, s[from])
  }

  /** A move keeps the length and the multiset, puts the moved element at
      `to`, and leaves every other element in its relative order: removing
      the moved element from the result gives back the input without it. */
  lemma {:induction false} MoveSpec<T>(s: seq<T>, from: nat, to: nat)
    requires from < |s| && to < |s|
    ensures |Move(s, from, to)| == |s|
    ensures multiset(Move(s, from, to)) == multiset(s)
    ensures Move(s, from, to)[to] == s[from]
    ensures RemoveAt(Move(s, from, to), to) == RemoveAt(s, from)
  {
    var rest := RemoveAt(s, from);
    var r := Move(s, from, to);
    assert r == rest[..to] + [s[from]] + rest[to..];
    assert RemoveAt(r, to) == rest;
  }

  /** Moving an element and moving it back restores the list. */
  lemma {:induction false} MoveInverse<T>(s: seq<T>, from: nat, to: nat)
    requires from < |s| && to < |s|
    ensures Move(Move(s, from, to), to, from) == s
  {
    MoveSpec(s, from, to);
    var r := Move(s, from, to);
    assert RemoveAt(r, to) == RemoveAt(s, from);
    assert r[to] == s[from];
    var b := Move(r, to, from);
    assert b == InsertAt(RemoveAt(s, from), from, s[from]);
    forall k | 0 <= k < |s| ensures b[k] == s[k] { }
  }

  /** Moving an element to its own index changes nothing. */
  lemma MoveToSelf<T>(s: seq<T>, i: nat)
    requires i < |s|
    ensures Move(s, i, i) == s
  {
    assert Move(s, i, i) == s[..i] + [s[i]] + s[i + 1..];
    assert s == s[..i] + [s[i]] + s[i + 1..];
  }

  /** `a` is `b` with some elements left out, the rest in order. */
  predicate IsSubsequence<T(==)>(a: seq<T>, b: seq<T>)
    decreases |b|
  {
    a == [] ||
    (b != [] && ((a[0] == b[0] && IsSubsequence(a[1..], b[1..])) || IsSubsequence(a, b[1..])))
  }

  lemma {:induction false} SubsequenceOfSelf<T>(s: seq<T>)
    ensures IsSubsequence(s, s)
    decreases |s|
  {
    if s != [] { SubsequenceOfSelf(s[1..]); }
  }

  /** `s.filter(keep)`: the elements that satisfy `keep`, in order, each
      as often as it occurs in `s`. */
  function Filter<T(!new)>(s: seq<T>, keep: T -> bool): (r: seq<T>)
    ensures |r| <= |s|
    ensures forall x :: x in r ==> x in s && keep(x)
    ensures forall x :: x in s && keep(x) ==> x in r
  {
    if s == [] then []
    else
      var rest := Filter(s[1..], keep);
      assert s == [s[0]] + s[1..];
      assert forall x :: x in s ==> x == s[0] || x in s[1..];
      if keep(s[0]) then [s[0]] + rest else rest
  }

  /** Each kept element occurs in the result as often as in the input, and
      no other element occurs at all. */
  lemma {:induction false} FilterCounts<T(!new)>(s: seq<T>, keep: T -> bool)
    ensures forall x :: multiset(Filter(s, keep))[x] == if keep(x) then multiset(s)[x] else 0
  {
    if s != [] {
      FilterCounts(s[1..], keep);
      assert s == [s[0]] + s[1..];
      var rest := Filter(s[1..], keep);
      forall x ensures multiset(Filter(s, keep))[x] == if keep(x) then multiset(s)[x] else 0 {
        assert multiset(s)[x] == multiset{s[0]}[x] + multiset(s[1..])[x];
        if keep(s[0]) {
          assert multiset(Filter(s, keep))[x] == multiset{s[0]}[x] + multiset(rest)[x];
        }
      }
    }
  }

  lemma {:induction false} FilterIsSubsequence<T(!new)>(s: seq<T>, keep: T -> bool)
    ensures IsSubsequence(Filter(s, keep), s)
  {
    if s != [] {
      FilterIsSubsequence(s[1..], keep);
      var rest := Filter(s[1..], keep);
      if keep(s[0]) {
        assert ([s[0]] + rest)[1..] == rest;
      }
    }
  }

  /** Filtering a list all of whose elements pass gives the list itself. */
  lemma {:induction false} FilterAllKept<T(!new)>(s: seq<T>, keep: T -> bool)
    requires forall x :: x in s ==> keep(x)
    ensures Filter(s, keep) == s
  {
    if s != [] {
      assert s == [s[0]] + s[1..];
      FilterAllKept(s[1..], keep);
    }
  }

  /** Filtering twice with the same predicate is filtering once. */
  lemma FilterIdempotent<T(!new)>(s: seq<T>, keep: T -> bool)
    ensures Filter(Filter(s, keep), keep) == Filter(s, keep)
  {
    FilterAllKept(Filter(s, keep), keep);
  }
}
