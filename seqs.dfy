/** Small sequence vocabulary shared by the crawler model: an optional value,
    and the order-preserving de-duplication the scripts perform twice
    (the `uniq` loop over product links and `list(dict.fromkeys(...))`
    over detail-image URLs). */
module Seqs {

  datatype Option<T> = None | Some(value: T)

  /** Scaling keeps order, and `n` stretches of at most `c` items hold at
      most `n * c`; the visit-count and token bounds rest on these. */
  lemma MulLe(a: nat, b: nat, c: nat)
    requires a <= b
    ensures a * c <= b * c
  {
  }

  lemma AddBound(x: nat, y: nat, n: nat, c: nat)
    requires n > 0 && x <= c && y <= (n - 1) * c
    ensures x + y <= n * c
  {
    assert n * c == (n - 1) * c + c;
  }

  /** No element occurs twice. */
  predicate Distinct<T(==)>(s: seq<T>) {
    forall i, j :: 0 <= i < j < |s| ==> s[i] != s[j]
  }

  /** `s[:n]` in Python: the first `n` elements, or all of them when there are fewer. */
  function Take<T>(s: seq<T>, n: nat): (r: seq<T>)
    ensures |r| <= n && |r| <= |s|
    ensures |s| <= n ==> r == s
    ensures |s| > n ==> |r| == n
    ensures forall i :: 0 <= i < |r| ==> r[i] == s[i]
  {
    if |s| <= n then s else s[..n]
  }

  /** The elements satisfying `keep`, in order. Written from the end, as the
      loop that builds it appends. */
  function Filter<T>(s: seq<T>, keep: T -> bool): (r: seq<T>)
    ensures |r| <= |s|
    ensures forall x :: x in r ==> x in s && keep(x)
  {
    if |s| == 0 then []
    else
      var init := Filter(s[..|s| - 1], keep);
      if keep(s[|s| - 1]) then init + [s[|s| - 1]] else init
  }

  /** A sequence whose elements all pass is left as it is. */
  lemma {:induction false} FilterKeepsAll<T>(s: seq<T>, keep: T -> bool)
    requires forall x :: x in s ==> keep(x)
    ensures Filter(s, keep) == s
  {
    if |s| > 0 {
      FilterKeepsAll(s[..|s| - 1], keep);
      assert s[..|s| - 1] + [s[|s| - 1]] == s;
    }
  }

  /** Filtering twice is filtering once. */
  lemma FilterIdempotent<T>(s: seq<T>, keep: T -> bool)
    ensures Filter(Filter(s, keep), keep) == Filter(s, keep)
  {
    FilterKeepsAll(Filter(s, keep), keep);
  }

  /** Filtering distributes over an appended element. */
  lemma FilterSnoc<T>(s: seq<T>, x: T, keep: T -> bool)
    ensures Filter(s + [x], keep) == Filter(s, keep) + (if keep(x) then [x] else [])
  {
    assert (s + [x])[..|s|] == s;
  }

  /** A loop that appends each element passing `keep`. */
  method FilterLoop<T>(s: seq<T>, keep: T -> bool) returns (r: seq<T>)
    ensures r == Filter(s, keep)
  {
    r := [];
    for i := 0 to |s|
      invariant r == Filter(s[..i], keep)
    {
      assert s[..i + 1][..i] == s[..i];
      if keep(s[i]) {
        r := r + [s[i]];
      }
    }
    assert s[..|s|] == s;
  }

  /** Keeps the first occurrence of every element, in first-seen order.
      Written from the end, as the loop that builds it appends. */
  function Dedup<T(==)>(s: seq<T>): seq<T> {
    if |s| == 0 then []
    else
      var d := Dedup(s[..|s| - 1]);
      if s[|s| - 1] in d then d else d + [s[|s| - 1]]
  }

  /** Index of the first occurrence of `x` in `s`. */
  function IndexOf<T(==)>(s: seq<T>, x: T): (k: nat)
    requires x in s
    ensures k < |s| && s[k] == x
    ensures forall j :: 0 <= j < k ==> s[j] != x
  {
    if s[0] == x then 0 else 1 + IndexOf(s[1..], x)
  }

  lemma IndexOfPrefix<T>(s: seq<T>, n: nat, x: T)
    requires n <= |s| && x in s[..n]
    ensures IndexOf(s, x) == IndexOf(s[..n], x)
  {
    var k := IndexOf(s[..n], x);
    assert s[..n][k] == s[k];
    assert forall j :: 0 <= j < k ==> s[..n][j] == s[j];
  }

  /** De-duplication keeps exactly the elements of its input, each once,
      in the order of their first occurrence in the input. */
  lemma {:induction false} DedupSpec<T>(s: seq<T>)
    ensures Distinct(Dedup(s))
    ensures forall x :: x in Dedup(s) <==> x in s
    ensures forall i, j :: 0 <= i < j < |Dedup(s)| ==> IndexOf(s, Dedup(s)[i]) < IndexOf(s, Dedup(s)[j])
  {
    if |s| > 0 {
      var p := s[..|s| - 1];
      var x := s[|s| - 1];
      DedupSpec(p);
      var d := Dedup(p);
      assert s == p + [x];
      forall y | y in p ensures IndexOf(s, y) == IndexOf(p, y) {
        IndexOfPrefix(s, |s| - 1, y);
      }
      if x !in d {
        assert x !in p;
        assert IndexOf(s, x) == |s| - 1;
        var r := d + [x];
        forall i, j | 0 <= i < j < |r| ensures IndexOf(s, r[i]) < IndexOf(s, r[j]) {
          if j == |r| - 1 {
            assert r[i] == Dedup(p)[i];
            assert Dedup(p)[i] in Dedup(p);
          }
        }
      }
    }
  }

  /** De-duplicating an already distinct sequence changes nothing; in particular
      de-duplication is idempotent. */
  lemma {:induction false} DedupOfDistinct<T>(s: seq<T>)
    requires Distinct(s)
    ensures Dedup(s) == s
  {
    if |s| > 0 {
      var p := s[..|s| - 1];
      assert Distinct(p);
      DedupOfDistinct(p);
      assert s[|s| - 1] !in p;
      assert p + [s[|s| - 1]] == s;
    }
  }

  lemma DedupIdempotent<T>(s: seq<T>)
    ensures Dedup(Dedup(s)) == Dedup(s)
  {
    DedupSpec(s);
    DedupOfDistinct(Dedup(s));
  }

  /** The `uniq` loop: append each element not yet collected. */
  method DedupLoop<T(==)>(s: seq<T>) returns (uniq: seq<T>)
    ensures uniq == Dedup(s)
  {
    uniq := [];
    for i := 0 to |s|
      invariant uniq == Dedup(s[..i])
    {
      assert s[..i + 1][..i] == s[..i];
      if s[i] !in uniq {
        uniq := uniq + [s[i]];
      }
    }
    assert s[..|s|] == s;
  }
}
