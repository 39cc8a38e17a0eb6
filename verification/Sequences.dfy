/** Positional edits of a sequence, sequences without repetition, counting. */
module Sequences {

  function InsertAt<T>(s: seq<T>, k: nat, x: T): seq<T>
    requires k <= |s|
  {
    s[..k] + [x] + s[k..]
  }

  function RemoveAt<T>(s: seq<T>, k: nat): seq<T>
    requires k < |s|
  {
    s[..k] + s[k + 1..]
  }

  function Reverse<T>(s: seq<T>): seq<T> {
    seq(|s|, i requires 0 <= i < |s| => s[|s| - 1 - i])
  }

  /** One more element of ws handed over, then n - 1 of those that agree with its tail. */
  lemma HandOver<T>(done: seq<T>, ws: seq<T>, ws': seq<T>, k: nat, n: nat)
    requires 1 <= n <= k <= |ws| && k - 1 <= |ws'| && ws'[..k - 1] == ws[1..][..k - 1]
    ensures (done + [ws[0]]) + ws'[..n - 1] == done + ws[..n]
  {
    assert ws'[..n - 1] == ws'[..k - 1][..n - 1];
    assert ws[..n] == [ws[0]] + ws[1..][..k - 1][..n - 1];
  }

  // ---------------------------------------------------------------- sequences without repetition

  ghost predicate Differ<T>(s: seq<T>, i: nat, j: nat)
    requires i < |s| && j < |s|
  {
    s[i] != s[j]
  }

  ghost predicate Distinct<T>(s: seq<T>) {
    forall i, j :: 0 <= i < j < |s| ==> Differ(s, i, j)
  }

  lemma DistinctAt<T>(s: seq<T>)
    requires Distinct(s)
    ensures forall i, j :: 0 <= i < j < |s| ==> s[i] != s[j]
  {
    forall i, j | 0 <= i < j < |s| ensures s[i] != s[j] { assert Differ(s, i, j); }
  }

  lemma DistinctRemove<T>(s: seq<T>, k: nat)
    requires Distinct(s) && k < |s|
    ensures Distinct(RemoveAt(s, k))
    ensures forall x :: x in RemoveAt(s, k) <==> x in s && x != s[k]
  {
    DistinctAt(s);
    forall i, j | 0 <= i < j < |s| - 1 ensures Differ(RemoveAt(s, k), i, j) {}
    forall i | 0 <= i < |s| && i != k ensures s[i] in RemoveAt(s, k) {
      assert RemoveAt(s, k)[if i < k then i else i - 1] == s[i];
    }
  }

  lemma DistinctInsert<T>(s: seq<T>, k: nat, x: T)
    requires Distinct(s) && k <= |s| && x !in s
    ensures Distinct(InsertAt(s, k, x))
    ensures forall y :: y in InsertAt(s, k, x) <==> y in s || y == x
  {
    var s' := InsertAt(s, k, x);
    DistinctAt(s);
    forall i, j | 0 <= i < j < |s'|
      ensures Differ(s', i, j)
    {
      assert i != k ==> s'[i] == s[if i < k then i else i - 1];
      assert j != k ==> s'[j] == s[if j < k then j else j - 1];
    }
    assert s == s[..k] + s[k..];
  }

  lemma DistinctTail<T>(s: seq<T>)
    requires Distinct(s) && s != []
    ensures Distinct(s[1..]) && s[0] !in s[1..]
  {
    DistinctRemove(s, 0);
    assert RemoveAt(s, 0) == s[1..];
  }

  lemma DistinctCons<T>(x: T, s: seq<T>)
    requires Distinct(s) && x !in s
    ensures Distinct([x] + s)
  {
    DistinctInsert(s, 0, x);
    assert InsertAt(s, 0, x) == [x] + s;
  }

  ghost function Below(n: nat): (s: set<int>)
    ensures |s| == n && forall i :: i in s <==> 0 <= i < n
  {
    if n == 0 then {} else Below(n - 1) + {n - 1}
  }

  lemma CardMonotone<T>(a: set<T>, b: set<T>)
    requires a <= b
    ensures |a| <= |b|
  {
    assert b == a + (b - a);
  }

  lemma {:induction false} DistinctCard<T>(s: seq<T>)
    requires Distinct(s)
    ensures |set x | x in s| == |s|
  {
    if s != [] {
      var t := s[..|s| - 1];
      DistinctAt(s);
      forall i, j | 0 <= i < j < |t| ensures Differ(t, i, j) {}
      DistinctCard(t);
      assert (set x | x in s) == (set x | x in t) + {s[|s| - 1]};
    }
  }

  // ---------------------------------------------------------------- counting

  /** How many elements of s satisfy p. */
  function Count<T>(s: seq<T>, p: T -> bool): nat {
    if s == [] then 0 else Count(s[..|s| - 1], p) + if p(s[|s| - 1]) then 1 else 0
  }

  lemma CountEmpty<T>(p: T -> bool)
    ensures Count([], p) == 0
  {
  }

  lemma CountLast<T>(s: seq<T>, x: T, p: T -> bool)
    ensures Count(s + [x], p) == Count(s, p) + if p(x) then 1 else 0
  {
    assert (s + [x])[..|s|] == s;
  }

  lemma {:induction false} CountFirst<T>(x: T, s: seq<T>, p: T -> bool)
    ensures Count([x] + s, p) == (if p(x) then 1 else 0) + Count(s, p)
  {
    if s == [] {
      assert [x] + s == [x] && [x][..0] == [];
    } else {
      var n := |s| - 1;
      CountFirst(x, s[..n], p);
      assert ([x] + s)[..n + 1] == [x] + s[..n];
    }
  }

  lemma {:induction false} CountNone<T>(s: seq<T>, p: T -> bool)
    requires Count(s, p) == 0
    ensures forall i :: 0 <= i < |s| ==> !p(s[i])
  {
    if s != [] {
      CountNone(s[..|s| - 1], p);
    }
  }

  // ---------------------------------------------------------------- subsequences

  /** The elements of p occur in s in this order. */
  predicate Subsequence<T(==)>(p: seq<T>, s: seq<T>)
    decreases |s|
  {
    p == [] ||
    (s != [] &&
      ((p[0] == s[0] && Subsequence(p[1..], s[1..])) || Subsequence(p, s[1..])))
  }

  lemma {:induction false} DropFirst<T>(p: seq<T>, s: seq<T>)
    requires p != [] && Subsequence(p, s)
    ensures s != [] && Subsequence(p[1..], s[1..])
    decreases |s|
  {
    if !(p[0] == s[0] && Subsequence(p[1..], s[1..])) {
      DropFirst(p, s[1..]);
    }
  }

  lemma {:induction false} SubsequenceMore<T>(p: seq<T>, s: seq<T>, x: T)
    requires Subsequence(p, s)
    ensures Subsequence(p, s + [x]) && Subsequence(p + [x], s + [x])
    decreases |s|
  {
    if s == [] {
      assert p == [] && p + [x] == [x] && s + [x] == [x] && [x][1..] == [];
    } else {
      assert (s + [x])[1..] == s[1..] + [x];
      if p == [] {
        SubsequenceMore(p, s[1..], x);
      } else if p[0] == s[0] && Subsequence(p[1..], s[1..]) {
        assert (p + [x])[1..] == p[1..] + [x];
        SubsequenceMore(p[1..], s[1..], x);
      } else {
        SubsequenceMore(p, s[1..], x);
      }
    }
  }

  /** One of full length is the whole. */
  lemma {:induction false} SubsequenceLength<T>(p: seq<T>, s: seq<T>)
    requires Subsequence(p, s)
    ensures |p| <= |s| && (|p| == |s| ==> p == s)
    decreases |s|
  {
    if p != [] {
      if p[0] == s[0] && Subsequence(p[1..], s[1..]) {
        SubsequenceLength(p[1..], s[1..]);
        assert p == [p[0]] + p[1..] && s == [s[0]] + s[1..];
      } else {
        SubsequenceLength(p, s[1..]);
      }
    }
  }
}
