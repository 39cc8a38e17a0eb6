/** The pooled doubly linked list `static_list` of include/coro/static_list.hpp.

    The node buffer is three arrays indexed by node number: `next`, `prev` and `value`.  The
    pointers `free_`, `first_` and `last_` are node numbers, with NULL for nullptr.  Two ghost
    sequences name the nodes on the used and on the free chain; the list refines the sequence
    `Contents()`, bounded by `capacity`. */
module StaticLists {
  import opened Sequences

  const NULL: int := -1

  /** The node at position i of a chain, nullptr outside of it. */
  function At(chain: seq<int>, i: int): int {
    if 0 <= i < |chain| then chain[i] else NULL
  }

  /** Node i of the chain points to its neighbours, or to nullptr at the ends. */
  ghost predicate LinkAt(next: seq<int>, prev: seq<int>, chain: seq<int>, i: nat)
    requires i < |chain| && 0 <= chain[i] < |next| == |prev|
  {
    && next[chain[i]] == At(chain, i + 1)
    && prev[chain[i]] == At(chain, i - 1)
  }

  /** `next` leads through `chain` from its first node to its last, and `prev` leads back. */
  ghost predicate Linked(next: seq<int>, prev: seq<int>, chain: seq<int>) {
    && Distinct(chain)
    && |next| == |prev|
    && (forall i :: 0 <= i < |chain| ==> 0 <= chain[i] < |next|)
    && forall i :: 0 <= i < |chain| ==> LinkAt(next, prev, chain, i)
  }

  /** The whole pool: both chains are well linked and disjoint, and together with `out`, the node
      moving between them (if any), they are all its nodes. */
  ghost predicate Pool(next: seq<int>, prev: seq<int>, used: seq<int>, spare: seq<int>, out: int) {
    && Linked(next, prev, used)
    && Linked(next, prev, spare)
    && (forall n :: n in used ==> n !in spare)
    && (if out == NULL then |used| + |spare| == |next|
        else 0 <= out < |next| && out !in used && out !in spare && |used| + |spare| + 1 == |next|)
  }

  /** `p->field = x` guarded by `if (p)`. */
  function Store<T>(field: seq<T>, p: int, x: T): seq<T> {
    if 0 <= p < |field| then field[p := x] else field
  }

  /** The values stored in the nodes of a chain, in chain order. */
  ghost function Gather<T>(value: seq<T>, chain: seq<int>): (s: seq<T>)
    requires forall i :: 0 <= i < |chain| ==> 0 <= chain[i] < |value|
    ensures |s| == |chain|
    ensures forall i :: 0 <= i < |s| ==> s[i] == value[chain[i]]
  {
    seq(|chain|, i requires 0 <= i < |chain| => value[chain[i]])
  }

  /** Where an iterator points: the index of its node, or the length for end(). */
  ghost function Position(chain: seq<int>, node: int): (k: nat)
    ensures k <= |chain|
    ensures node in chain ==> k < |chain| && chain[k] == node
    ensures node !in chain ==> k == |chain|
  {
    if node in chain then var k :| 0 <= k < |chain| && chain[k] == node; k else |chain|
  }

  // ---------------------------------------------------------------- chain lemmas

  lemma LinkedFrame(next: seq<int>, prev: seq<int>, next': seq<int>, prev': seq<int>, chain: seq<int>)
    requires Linked(next, prev, chain) && |next'| == |prev'| == |next|
    requires forall n :: n in chain && 0 <= n < |next| ==> next'[n] == next[n] && prev'[n] == prev[n]
    ensures Linked(next', prev', chain)
  {
    forall i | 0 <= i < |chain|
      ensures LinkAt(next', prev', chain, i)
    {
      assert LinkAt(next, prev, chain, i) && chain[i] in chain;
    }
  }

  /** Bridging over the node at position k unlinks it: head, tail and middle alike. */
  lemma UnlinkedAt(next: seq<int>, prev: seq<int>, chain: seq<int>, k: nat)
    requires Linked(next, prev, chain) && k < |chain|
    ensures Linked(Store(next, At(chain, k - 1), At(chain, k + 1)), Store(prev, At(chain, k + 1), At(chain, k - 1)),
                   RemoveAt(chain, k))
    ensures forall n :: n in RemoveAt(chain, k) <==> n in chain && n != chain[k]
  {
    var nx := Store(next, At(chain, k - 1), At(chain, k + 1));
    var pv := Store(prev, At(chain, k + 1), At(chain, k - 1));
    var ch := RemoveAt(chain, k);
    forall i | 0 <= i < |ch|
      ensures LinkAt(nx, pv, ch, i)
    {
      var j := if i < k then i else i + 1;
      assert ch[i] == chain[j];
      assert LinkAt(next, prev, chain, j);
      DistinctAt(chain);
    }
    DistinctRemove(chain, k);
    DistinctAt(chain);
  }

  /** Linking a fresh node in at position k. */
  lemma LinkedAt(next: seq<int>, prev: seq<int>, chain: seq<int>, k: nat, e: int)
    requires Linked(next, prev, chain) && k <= |chain| && 0 <= e < |next| && e !in chain
    ensures Linked(Store(next[e := At(chain, k)], At(chain, k - 1), e),
                   Store(prev[e := At(chain, k - 1)], At(chain, k), e), InsertAt(chain, k, e))
    ensures forall n :: n in InsertAt(chain, k, e) <==> n in chain || n == e
  {
    var nx := Store(next[e := At(chain, k)], At(chain, k - 1), e);
    var pv := Store(prev[e := At(chain, k - 1)], At(chain, k), e);
    var ch := InsertAt(chain, k, e);
    forall i | 0 <= i < |ch|
      ensures LinkAt(nx, pv, ch, i)
    {
      LinkedAtNode(next, prev, chain, k, e, i);
    }
    DistinctInsert(chain, k, e);
  }

  lemma LinkedAtNode(next: seq<int>, prev: seq<int>, chain: seq<int>, k: nat, e: int, i: nat)
    requires Linked(next, prev, chain) && k <= |chain| && 0 <= e < |next| && e !in chain && i <= |chain|
    ensures LinkAt(Store(next[e := At(chain, k)], At(chain, k - 1), e),
                   Store(prev[e := At(chain, k - 1)], At(chain, k), e), InsertAt(chain, k, e), i)
  {
    var ch := InsertAt(chain, k, e);
    DistinctAt(chain);
    assert k > 0 ==> LinkAt(next, prev, chain, k - 1);
    assert k < |chain| ==> LinkAt(next, prev, chain, k);
    if i < k {
      assert ch[i] == chain[i] && chain[i] in chain;
      assert LinkAt(next, prev, chain, i);
    } else if i > k {
      assert ch[i] == chain[i - 1] && chain[i - 1] in chain;
      assert LinkAt(next, prev, chain, i - 1);
    }
  }

  // ---------------------------------------------------------------- pool lemmas

  /** What the ends of the used chain look like. */
  lemma PoolEnds(next: seq<int>, prev: seq<int>, used: seq<int>, spare: seq<int>)
    requires Pool(next, prev, used, spare, NULL)
    ensures |next| == |prev| && forall i :: 0 <= i < |used| ==> 0 <= used[i] < |next|
    ensures used != [] ==>
              && next[used[0]] == At(used, 1)
              && prev[used[|used| - 1]] == At(used, |used| - 2)
              && (used[0] == used[|used| - 1] <==> |used| == 1)
  {
    if used != [] {
      assert LinkAt(next, prev, used, 0) && LinkAt(next, prev, used, |used| - 1);
      assert |used| == 1 || Differ(used, 0, |used| - 1);
    }
  }

  /** The node at position k of the used chain leaves it. */
  lemma PoolUnlink(next: seq<int>, prev: seq<int>, used: seq<int>, spare: seq<int>, k: nat)
    requires Pool(next, prev, used, spare, NULL) && k < |used|
    ensures Pool(Store(next, At(used, k - 1), At(used, k + 1)), Store(prev, At(used, k + 1), At(used, k - 1)),
                 RemoveAt(used, k), spare, used[k])
    ensures At(RemoveAt(used, k), 0) == if At(used, k - 1) == NULL then At(used, k + 1) else At(used, 0)
    ensures At(RemoveAt(used, k), |used| - 2) == if At(used, k + 1) == NULL then At(used, k - 1) else At(used, |used| - 1)
  {
    var nx := Store(next, At(used, k - 1), At(used, k + 1));
    var pv := Store(prev, At(used, k + 1), At(used, k - 1));
    UnlinkedAt(next, prev, used, k);
    assert LinkAt(next, prev, used, k);
    LinkedFrame(next, prev, nx, pv, spare);
  }

  /** The first node of the free chain leaves it. */
  lemma PoolTake(next: seq<int>, prev: seq<int>, used: seq<int>, spare: seq<int>)
    requires Pool(next, prev, used, spare, NULL) && spare != []
    ensures Pool(next, Store(prev, At(spare, 1), NULL), used, spare[1..], spare[0])
  {
    UnlinkedAt(next, prev, spare, 0);
    assert RemoveAt(spare, 0) == spare[1..];
    assert LinkAt(next, prev, spare, 0);
    LinkedFrame(next, prev, next, Store(prev, At(spare, 1), NULL), used);
  }

  /** The moving node joins the used chain at position k. */
  lemma PoolLink(next: seq<int>, prev: seq<int>, used: seq<int>, spare: seq<int>, e: int, k: nat)
    requires Pool(next, prev, used, spare, e) && e != NULL && k <= |used|
    ensures Pool(Store(next[e := At(used, k)], At(used, k - 1), e), Store(prev[e := At(used, k - 1)], At(used, k), e),
                 InsertAt(used, k, e), spare, NULL)
    ensures At(InsertAt(used, k, e), 0) == if At(used, k - 1) == NULL then e else At(used, 0)
    ensures At(InsertAt(used, k, e), |used|) == if At(used, k) == NULL then e else At(used, |used| - 1)
  {
    var nx := Store(next[e := At(used, k)], At(used, k - 1), e);
    var pv := Store(prev[e := At(used, k - 1)], At(used, k), e);
    LinkedAt(next, prev, used, k, e);
    LinkedFrame(next, prev, nx, pv, spare);
  }

  /** The moving node joins the front of the free chain. */
  lemma PoolReturn(next: seq<int>, prev: seq<int>, used: seq<int>, spare: seq<int>, e: int)
    requires Pool(next, prev, used, spare, e) && e != NULL
    ensures Pool(next[e := At(spare, 0)], Store(prev[e := NULL], At(spare, 0), e), used, [e] + spare, NULL)
  {
    var nx := next[e := At(spare, 0)];
    var pv := Store(prev[e := NULL], At(spare, 0), e);
    LinkedAt(next, prev, spare, 0, e);
    assert InsertAt(spare, 0, e) == [e] + spare;
    LinkedFrame(next, prev, nx, pv, used);
  }

  lemma GatherInsert<T>(value: seq<T>, value': seq<T>, chain: seq<int>, k: nat, e: int)
    requires k <= |chain| && |value'| == |value| && 0 <= e < |value|
    requires forall i :: 0 <= i < |chain| ==> 0 <= chain[i] < |value|
    requires forall n :: n in chain ==> value'[n] == value[n]
    ensures forall i :: 0 <= i <= |chain| ==> 0 <= InsertAt(chain, k, e)[i] < |value|
    ensures Gather(value', InsertAt(chain, k, e)) == InsertAt(Gather(value, chain), k, value'[e])
  {
  }

  lemma GatherRemove<T>(value: seq<T>, chain: seq<int>, k: nat)
    requires k < |chain|
    requires forall i :: 0 <= i < |chain| ==> 0 <= chain[i] < |value|
    ensures forall i :: 0 <= i < |chain| - 1 ==> 0 <= RemoveAt(chain, k)[i] < |value|
    ensures Gather(value, RemoveAt(chain, k)) == RemoveAt(Gather(value, chain), k)
  {
  }

  // ---------------------------------------------------------------- what the invariant means

  /** No node of the buffer is ever lost: outside of a move, each is on exactly one chain. */
  lemma PoolCovers(next: seq<int>, prev: seq<int>, used: seq<int>, spare: seq<int>, n: int)
    requires Pool(next, prev, used, spare, NULL) && 0 <= n < |next|
    ensures (n in used) != (n in spare)
  {
    var all := Below(|next|);
    DistinctCard(used);
    DistinctCard(spare);
    var u, s := set x | x in used, set x | x in spare;
    assert u !! s && u + s <= all;
    if n !in used && n !in spare {
      assert u + s <= all - {n};
      CardMonotone(u + s, all - {n});
    }
  }

  lemma PositionOf(chain: seq<int>, i: nat, n: int)
    requires Distinct(chain) && i < |chain| && chain[i] == n
    ensures n in chain && Position(chain, n) == i
  {
    DistinctAt(chain);
  }

  ghost predicate SameOrder(chain: seq<int>, chain': seq<int>, a: int, b: int) {
    Position(chain, a) < Position(chain, b) <==> Position(chain', a) < Position(chain', b)
  }

  /** The iterators at nodes of the list other than `gone` keep their elements and their relative
      order. */
  ghost predicate IteratorsKept<T>(value: seq<T>, value': seq<T>, chain: seq<int>, chain': seq<int>, gone: int) {
    && |value'| == |value|
    && (forall a :: a in chain && a != gone ==> a in chain' && (0 <= a < |value| ==> value'[a] == value[a]))
    && (forall a, b :: a in chain && b in chain && a != gone && b != gone ==> SameOrder(chain, chain', a, b))
  }

  /** Inserting leaves all of them, and end(), where they are. */
  lemma InsertKeepsIterators<T>(value: seq<T>, chain: seq<int>, k: nat, e: int, x: T)
    requires Distinct(chain) && k <= |chain| && e !in chain
    ensures IteratorsKept(value, Store(value, e, x), chain, InsertAt(chain, k, e), NULL)
  {
    var chain' := InsertAt(chain, k, e);
    DistinctInsert(chain, k, e);
    forall a, b | a in chain && b in chain ensures SameOrder(chain, chain', a, b) {
      var i, j := Position(chain, a), Position(chain, b);
      PositionOf(chain', if i < k then i else i + 1, a);
      PositionOf(chain', if j < k then j else j + 1, b);
    }
  }

  /** Erasing leaves all the others. */
  lemma EraseKeepsIterators<T>(value: seq<T>, chain: seq<int>, k: nat)
    requires Distinct(chain) && k < |chain|
    ensures IteratorsKept(value, value, chain, RemoveAt(chain, k), chain[k])
  {
    var chain' := RemoveAt(chain, k);
    DistinctRemove(chain, k);
    forall a, b | a in chain && b in chain && a != chain[k] && b != chain[k] ensures SameOrder(chain, chain', a, b) {
      var i, j := Position(chain, a), Position(chain, b);
      PositionOf(chain', if i < k then i else i - 1, a);
      PositionOf(chain', if j < k then j else j - 1, b);
    }
  }

  lemma NoneMoved<T>(value: seq<T>, chain: seq<int>, gone: int)
    ensures IteratorsKept(value, value, chain, chain, gone)
  {
  }

  /** What the invariant says for them. */
  lemma PoolDistinct(next: seq<int>, prev: seq<int>, used: seq<int>, spare: seq<int>)
    requires Pool(next, prev, used, spare, NULL)
    ensures Distinct(used) && (spare != [] ==> spare[0] !in used)
    ensures forall i :: 0 <= i < |used| ==> 0 <= used[i] < |next|
  {
  }

  lemma RemovalKeepsIterators<T>(next: seq<int>, prev: seq<int>, value: seq<T>, used: seq<int>, spare: seq<int>, k: int)
    requires Pool(next, prev, used, spare, NULL) && (used != [] ==> 0 <= k < |used|)
    ensures used == [] ==> forall gone :: IteratorsKept(value, value, used, used, gone)
    ensures used != [] ==> IteratorsKept(value, value, used, RemoveAt(used, k), used[k])
  {
    PoolDistinct(next, prev, used, spare);
    if used != [] {
      EraseKeepsIterators(value, used, k);
    }
  }

  class StaticList<T(0)> {
    const capacity: nat
    const next: array<int>
    const prev: array<int>
    const value: array<T>
    var free: int
    var first: int
    var last: int
    ghost var used: seq<int>
    ghost var spare: seq<int>

    ghost function Repr(): set<object> {
      {this, next, prev, value}
    }

    /** The invariant without the ends of the used chain, while node `out` (if any) is moving. */
    ghost predicate Chains(out: int)
      reads this, next, prev, value
    {
      && 1 <= capacity == next.Length == prev.Length == value.Length
      && next != prev && value as object != next && value as object != prev
      && Pool(next[..], prev[..], used, spare, out)
      && free == At(spare, 0)
    }

    ghost predicate Valid()
      reads this, next, prev, value
    {
      && Chains(NULL)
      && first == At(used, 0)
      && last == At(used, |used| - 1)
    }

    ghost function Contents(): (s: seq<T>)
      requires Valid()
      reads this, next, prev, value
      ensures |s| == |used| <= capacity
    {
      Gather(value[..], used)
    }

    /** All nodes start on the free chain, in buffer order. */
    constructor (n: nat)
      requires 1 <= n
      ensures Valid() && capacity == n && fresh(Repr())
      ensures Contents() == []
    {
      capacity := n;
      next := new int[n];
      prev := new int[n];
      value := new T[n];
      free, first, last := 0, NULL, NULL;
      used, spare := [], seq(n, i => i);
      new;
      var p, node := NULL, 0;
      for i := 0 to n
        modifies prev, next
        invariant node == i && p == i - 1
        invariant forall k :: 0 <= k < i ==> prev[k] == k - 1
        invariant forall k :: 0 <= k < i - 1 ==> next[k] == k + 1
      {
        prev[node] := p;
        if p != NULL {
          next[p] := node;
        }
        p := node;
        node := node + 1;
      }
      next[p] := NULL;
      forall i | 0 <= i < |spare| ensures LinkAt(next[..], prev[..], spare, i) {}
    }

    /** Take the first node off the free chain; nullptr when the pool is exhausted. */
    method GetFreeElem() returns (elem: int)
      requires Chains(NULL)
      modifies this`free, this`spare, prev
      ensures Chains(elem) && elem == old(At(spare, 0))
      ensures spare == if old(spare) == [] then [] else old(spare)[1..]
    {
      if free != NULL {
        PoolTake(next[..], prev[..], used, spare);
        assert LinkAt(next[..], prev[..], spare, 0);
        elem := free;
        free := next[elem];
        if free != NULL {
          assert LinkAt(next[..], prev[..], spare, 1);
          prev[free] := NULL;
        }
        assert prev[..] == Store(old(prev[..]), old(At(spare, 1)), NULL);
        spare := spare[1..];
        return;
      }
      return NULL;
    }

    /** Put the moving node in front of the free chain. */
    method ReturnFreeElem(elem: int)
      requires elem != NULL && Chains(elem)
      modifies this`free, this`spare, prev, next
      ensures Chains(NULL) && spare == [elem] + old(spare)
    {
      PoolReturn(next[..], prev[..], used, spare, elem);
      assert free != NULL ==> LinkAt(next[..], prev[..], spare, 0);
      prev[elem] := NULL;
      next[elem] := free;
      if free != NULL {
        prev[free] := elem;
      }
      assert next[..] == old(next[..])[elem := old(At(spare, 0))];
      assert prev[..] == Store(old(prev[..])[elem := NULL], old(At(spare, 0)), elem);
      free := elem;
      spare := [elem] + spare;
    }

    /** The part of `PopFront` up to the return of the node. */
    method UnlinkFirst() returns (nx: int)
      requires Valid() && used != []
      modifies this`used, prev
      ensures Chains(first) && used == RemoveAt(old(used), 0)
      ensures nx == At(used, 0) && (first == last <==> used == []) && (used != [] ==> last == At(used, |used| - 1))
    {
      hide Linked, Distinct;
      PoolEnds(next[..], prev[..], used, spare);
      ghost var nx0, pv0 := next[..], prev[..];
      nx := next[first];
      if nx != NULL {
        prev[nx] := NULL;
      }
      assert prev[..] == Store(pv0, nx, NULL);
      PoolUnlink(nx0, pv0, used, spare, 0);
      used := RemoveAt(used, 0);
    }

    method PopFront()
      requires Valid()
      modifies this, next, prev
      ensures Valid()
      ensures used == if old(used) == [] then [] else RemoveAt(old(used), 0)
      ensures Contents() == if old(Contents()) == [] then [] else RemoveAt(old(Contents()), 0)
      ensures IteratorsKept(old(value[..]), value[..], old(used), used, old(first))
    {
      hide Pool, RemoveAt, IteratorsKept;
      PoolDistinct(next[..], prev[..], used, spare);
      RemovalKeepsIterators(next[..], prev[..], value[..], used, spare, 0);
      if first != NULL {
        GatherRemove(value[..], used, 0);
        var nx := UnlinkFirst();
        ReturnFreeElem(first);
        if first == last {
          last := nx;
        }
        first := nx;
      }
    }

    /** The part of `PopBack` up to the return of the node. */
    method UnlinkLast() returns (pr: int)
      requires Valid() && used != []
      modifies this`used, next
      ensures Chains(last) && used == RemoveAt(old(used), |old(used)| - 1)
      ensures pr == At(used, |used| - 1) && (first == last <==> used == []) && (used != [] ==> first == At(used, 0))
    {
      hide Linked, Distinct;
      PoolEnds(next[..], prev[..], used, spare);
      ghost var k, nx0, pv0 := |used| - 1, next[..], prev[..];
      pr := prev[last];
      if pr != NULL {
        next[pr] := NULL;
      }
      assert next[..] == Store(nx0, pr, NULL);
      PoolUnlink(nx0, pv0, used, spare, k);
      used := RemoveAt(used, k);
    }

    method PopBack()
      requires Valid()
      modifies this, next, prev
      ensures Valid()
      ensures used == if old(used) == [] then [] else RemoveAt(old(used), |old(used)| - 1)
      ensures Contents() == if old(Contents()) == [] then [] else RemoveAt(old(Contents()), |old(Contents())| - 1)
      ensures IteratorsKept(old(value[..]), value[..], old(used), used, old(last))
    {
      hide Pool, RemoveAt, IteratorsKept;
      PoolDistinct(next[..], prev[..], used, spare);
      RemovalKeepsIterators(next[..], prev[..], value[..], used, spare, |used| - 1);
      if last != NULL {
        GatherRemove(value[..], used, |used| - 1);
        var pr := UnlinkLast();
        ReturnFreeElem(last);
        if first == last {
          first := pr;
        }
        last := pr;
      }
    }

    /** The linking code shared by `Emplace` at end() and `EmplaceBack`. */
    method LinkBack(elem: int)
      requires elem != NULL && Chains(elem) && first == At(used, 0) && last == At(used, |used| - 1)
      modifies this`first, this`last, this`used, next, prev
      ensures Valid() && used == InsertAt(old(used), |old(used)|, elem)
    {
      ghost var k, nx0, pv0 := |used|, next[..], prev[..];
      prev[elem] := last;
      next[elem] := NULL;
      if last != NULL {
        next[last] := elem;
      }
      last := elem;
      if first == NULL {
        first := elem;
      }
      assert next[..] == Store(nx0[elem := NULL], At(used, k - 1), elem);
      assert prev[..] == Store(pv0[elem := At(used, k - 1)], NULL, elem);
      PoolLink(nx0, pv0, used, spare, elem, k);
      used := InsertAt(used, k, elem);
    }

    /** The linking code of `Emplace` before a node. */
    method LinkBefore(elem: int, i: int)
      requires elem != NULL && Chains(elem) && first == At(used, 0) && last == At(used, |used| - 1)
      requires i in used
      modifies this`first, this`last, this`used, next, prev
      ensures Valid() && used == InsertAt(old(used), Position(old(used), i), elem)
    {
      ghost var k: int, nx0, pv0 := Position(used, i), next[..], prev[..];
      var iPrev := prev[i];
      var nx := i;
      assert iPrev == At(used, k - 1) && used[k] == i by { assert LinkAt(nx0, pv0, used, k); }
      assert iPrev != NULL ==> k > 0 && iPrev in used;
      prev[elem] := iPrev;
      if iPrev != NULL {
        next[iPrev] := elem;
      } else {
        first := elem;
      }
      next[elem] := nx;
      prev[nx] := elem;  // nx is a node: the source's test for nullptr always succeeds here
      assert next[..] == Store(nx0[elem := i], iPrev, elem);
      assert prev[..] == Store(pv0[elem := iPrev], i, elem);
      PoolLink(nx0, pv0, used, spare, elem, k);
      used := InsertAt(used, k, elem);
    }

    /** Insert before the iterator `i`; a full list stays as it is. */
    method Emplace(i: int, x: T)
      requires Valid() && (i == NULL || i in used)
      modifies this, next, prev, value
      ensures Valid()
      ensures used == if |old(used)| < capacity
                      then InsertAt(old(used), Position(old(used), i), old(At(spare, 0))) else old(used)
      ensures value[..] == Store(old(value[..]), old(At(spare, 0)), x)
      ensures Contents() == if |old(Contents())| < capacity
                            then InsertAt(old(Contents()), Position(old(used), i), x) else old(Contents())
      ensures IteratorsKept(old(value[..]), value[..], old(used), used, NULL)
    {
      hide IteratorsKept, Linked, Distinct;
      PoolDistinct(next[..], prev[..], used, spare);
      var elem := GetFreeElem();
      if elem == NULL {
        NoneMoved(value[..], used, NULL);
      } else {
        value[elem] := x;
        if i == NULL {
          LinkBack(elem);
        } else {
          LinkBefore(elem, i);
        }
        assert value[..] == Store(old(value[..]), elem, x);
        GatherInsert(old(value[..]), value[..], old(used), Position(old(used), i), elem);
        InsertKeepsIterators(old(value[..]), old(used), Position(old(used), i), elem, x);
      }
    }

    method EmplaceBack(x: T)
      requires Valid()
      modifies this, next, prev, value
      ensures Valid()
      ensures used == if |old(used)| < capacity then InsertAt(old(used), |old(used)|, old(At(spare, 0))) else old(used)
      ensures value[..] == Store(old(value[..]), old(At(spare, 0)), x)
      ensures Contents() == if |old(Contents())| < capacity then old(Contents()) + [x] else old(Contents())
      ensures IteratorsKept(old(value[..]), value[..], old(used), used, NULL)
    {
      hide IteratorsKept, Linked, Distinct;
      PoolDistinct(next[..], prev[..], used, spare);
      var elem := GetFreeElem();
      if elem == NULL {
        NoneMoved(value[..], used, NULL);
      } else {
        value[elem] := x;
        LinkBack(elem);
        assert value[..] == Store(old(value[..]), elem, x);
        GatherInsert(old(value[..]), value[..], old(used), |old(used)|, elem);
        InsertKeepsIterators(old(value[..]), old(used), |old(used)|, elem, x);
      }
    }

    /** The unlinking code of `Erase`. */
    method Unlink(i: int)
      requires Valid() && i in used
      modifies this`first, this`last, this`used, next, prev
      ensures Chains(i) && first == At(used, 0) && last == At(used, |used| - 1)
      ensures used == RemoveAt(old(used), Position(old(used), i))
    {
      ghost var k: int, nx0, pv0 := Position(used, i), next[..], prev[..];
      assert LinkAt(nx0, pv0, used, k);
      var orgNext := next[i];
      var orgPrev := prev[i];
      if orgPrev != NULL {
        next[orgPrev] := orgNext;
      } else {
        first := orgNext;
      }
      if orgNext != NULL {
        prev[orgNext] := orgPrev;
      } else {
        last := orgPrev;
      }
      assert next[..] == Store(nx0, At(used, k - 1), At(used, k + 1));
      assert prev[..] == Store(pv0, At(used, k + 1), At(used, k - 1));
      PoolUnlink(nx0, pv0, used, spare, k);
      used := RemoveAt(used, k);
    }

    /** Remove the element under the iterator `i`. */
    method Erase(i: int)
      requires Valid() && i in used
      modifies this, next, prev
      ensures Valid() && value[..] == old(value[..])
      ensures used == RemoveAt(old(used), Position(old(used), i))
      ensures Contents() == RemoveAt(old(Contents()), Position(old(used), i))
      ensures IteratorsKept(old(value[..]), value[..], old(used), used, i)
    {
      hide IteratorsKept, Linked, Distinct, Pool, RemoveAt, At;
      PoolEnds(next[..], prev[..], used, spare);
      RemovalKeepsIterators(next[..], prev[..], value[..], used, spare, Position(used, i));
      GatherRemove(value[..], used, Position(used, i));
      Unlink(i);
      ReturnFreeElem(i);
    }

    predicate IsEmpty()
      requires Valid()
      reads this, next, prev, value
      ensures IsEmpty() <==> Contents() == []
    {
      first == NULL
    }

    /** The first element; the source dereferences nullptr on an empty list. */
    method Front() returns (x: T)
      requires Valid() && Contents() != []
      ensures x == Contents()[0]
    {
      x := value[first];
    }

    method Back() returns (x: T)
      requires Valid() && Contents() != []
      ensures x == Contents()[|Contents()| - 1]
    {
      x := value[last];
    }

    /** Iterator i stands before element k, or is end() for k == |Contents()|. */
    ghost predicate Cursor(i: int, k: int)
      requires Valid()
      reads this, next, prev, value
    {
      0 <= k <= |used| && i == At(used, k)
    }

    lemma CursorPosition(i: int, k: int)
      requires Valid() && Cursor(i, k)
      ensures Position(used, i) == k && (i == NULL || i in used)
      ensures i == NULL <==> k == |Contents()|
    {
      if i != NULL {
        PositionOf(used, k, i);
      }
    }

    /** begin() */
    method Begin() returns (i: int)
      requires Valid()
      ensures Cursor(i, 0)
    {
      i := first;
    }

    /** `operator*` */
    method Read(i: int, ghost k: int) returns (x: T)
      requires Valid() && Cursor(i, k) && i != NULL
      ensures k < |Contents()| && x == Contents()[k]
    {
      x := value[i];
    }

    /** `operator++`, for an iterator that is not end(). */
    method Advance(i: int, ghost k: int) returns (j: int)
      requires Valid() && Cursor(i, k) && i != NULL
      ensures k < |Contents()| && Cursor(j, k + 1)
    {
      CursorPosition(i, k);
      j := Next(i);
    }

    /** `operator++` of a forward iterator; end() stays end(). */
    function Next(i: int): (j: int)
      requires Valid() && (i == NULL || i in used)
      reads this, next, prev, value
      ensures j == At(used, Position(used, i) + 1)
    {
      assert i != NULL ==> LinkAt(next[..], prev[..], used, Position(used, i));
      if i != NULL then next[i] else NULL
    }

    /** `operator++` of a reverse iterator. */
    function Previous(i: int): (j: int)
      requires Valid() && (i == NULL || i in used)
      reads this, next, prev, value
      ensures j == if i == NULL then NULL else At(used, Position(used, i) - 1)
    {
      assert i != NULL ==> LinkAt(next[..], prev[..], used, Position(used, i));
      if i != NULL then prev[i] else NULL
    }

    /** begin() to end(). */
    method Forward() returns (s: seq<T>)
      requires Valid()
      ensures s == Contents()
    {
      s := [];
      var i := first;
      while i != NULL
        invariant i == At(used, |s|) && |s| <= |used| && s == Contents()[..|s|]
        decreases |used| - |s|
      {
        PositionOf(used, |s|, i);
        s := s + [value[i]];
        i := Next(i);
      }
    }

    /** rbegin() to rend(): the reverse of the forward traversal. */
    method Backward() returns (s: seq<T>)
      requires Valid()
      ensures s == Reverse(Contents()) && |s| == |Contents()|
      ensures forall i :: 0 <= i < |s| ==> s[i] == Contents()[|s| - 1 - i]
    {
      s := [];
      var i := last;
      while i != NULL
        invariant |s| <= |used| && i == At(used, |used| - 1 - |s|) && s == Reverse(Contents())[..|s|]
        decreases |used| - |s|
      {
        PositionOf(used, |used| - 1 - |s|, i);
        s := s + [value[i]];
        i := Previous(i);
      }
    }
  }
}
