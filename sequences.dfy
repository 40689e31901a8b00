/** Order-preserving selection of the elements of a sequence that satisfy a
    predicate: the meaning of a pandas boolean-mask selection `df[mask]`,
    which keeps the matching rows in their original order. */
module Sequences {

  /** The elements of `s` that satisfy `p`, in their order in `s`. */
  function Filter<T>(s: seq<T>, p: T -> bool): (r: seq<T>)
    ensures |r| <= |s|
    ensures forall i :: 0 <= i < |r| ==> p(r[i])
  {
    if s == [] then []
    else (if p(s[0]) then [s[0]] else []) + Filter(s[1..], p)
  }

  /** Every selected element comes from the input. */
  lemma {:induction false} FilterSound<T>(s: seq<T>, p: T -> bool, i: nat)
    requires i < |Filter(s, p)|
    ensures Filter(s, p)[i] in s
  {
    if !p(s[0]) {
      FilterSound(s[1..], p, i);
    } else if i > 0 {
      FilterSound(s[1..], p, i - 1);
    }
  }

  /** Every matching element of the input is selected. */
  lemma {:induction false} FilterComplete<T>(s: seq<T>, p: T -> bool, i: nat)
    requires i < |s| && p(s[i])
    ensures s[i] in Filter(s, p)
  {
    if i > 0 {
      FilterComplete(s[1..], p, i - 1);
    }
  }

  /** Selecting from a concatenation selects from each part. */
  lemma {:induction false} FilterAppend<T>(a: seq<T>, b: seq<T>, p: T -> bool)
    ensures Filter(a + b, p) == Filter(a, p) + Filter(b, p)
  {
    if a == [] {
      assert a + b == b;
    } else {
      assert (a + b)[0] == a[0];
      assert (a + b)[1..] == a[1..] + b;
      FilterAppend(a[1..], b, p);
    }
  }

  /** A selection keeps everything when every element matches. */
  lemma {:induction false} FilterKeepsAll<T>(s: seq<T>, p: T -> bool)
    requires forall i :: 0 <= i < |s| ==> p(s[i])
    ensures Filter(s, p) == s
  {
    if s != [] {
      FilterKeepsAll(s[1..], p);
    }
  }

  /** A selection is empty when no element matches. */
  lemma {:induction false} FilterDropsAll<T>(s: seq<T>, p: T -> bool)
    requires forall i :: 0 <= i < |s| ==> !p(s[i])
    ensures Filter(s, p) == []
  {
    if s != [] {
      FilterDropsAll(s[1..], p);
    }
  }

  /** The first element of a selection is the first matching element of the
      input (what `.iloc[0]` picks out of a boolean-mask selection). */
  lemma {:induction false} FilterHead<T>(s: seq<T>, p: T -> bool, i: nat)
    requires i < |s| && p(s[i])
    requires forall j :: 0 <= j < i ==> !p(s[j])
    ensures |Filter(s, p)| > 0 && Filter(s, p)[0] == s[i]
  {
    if i > 0 {
      FilterHead(s[1..], p, i - 1);
    }
  }

  /** Selecting twice selects by the conjunction of both predicates. */
  lemma {:induction false} FilterFilter<T>(s: seq<T>, p: T -> bool, q: T -> bool, pq: T -> bool)
    requires forall x :: pq(x) == (p(x) && q(x))
    ensures Filter(Filter(s, p), q) == Filter(s, pq)
  {
    if s != [] {
      FilterFilter(s[1..], p, q, pq);
      assert Filter(s, pq) == (if pq(s[0]) then [s[0]] else []) + Filter(s[1..], pq);
      if p(s[0]) {
        assert Filter(s, p) == [s[0]] + Filter(s[1..], p);
        FilterAppend([s[0]], Filter(s[1..], p), q);
        assert [s[0]][1..] == [];
      } else {
        assert Filter(s, p) == Filter(s[1..], p);
      }
    }
  }

  /** A selection from a sequence that is strictly increasing under `key` is
      itself strictly increasing under `key`: selection never reorders. */
  lemma {:induction false} FilterKeepsOrder<T>(s: seq<T>, p: T -> bool, key: T -> int)
    requires forall i, j :: 0 <= i < j < |s| ==> key(s[i]) < key(s[j])
    ensures forall i, j :: 0 <= i < j < |Filter(s, p)| ==> key(Filter(s, p)[i]) < key(Filter(s, p)[j])
  {
    if s != [] {
      var rest := Filter(s[1..], p);
      FilterKeepsOrder(s[1..], p, key);
      if p(s[0]) {
        var r := Filter(s, p);
        assert r == [s[0]] + rest;
        forall i, j | 0 <= i < j < |r| ensures key(r[i]) < key(r[j]) {
          if i == 0 {
            FilterSound(s[1..], p, j - 1);
            var m :| 0 <= m < |s[1..]| && s[1..][m] == r[j];
            assert s[m + 1] == r[j];
          }
        }
      }
    }
  }

  /** A property every element of `s` has, every selected element has. */
  lemma FilterAll<T>(s: seq<T>, p: T -> bool, q: T -> bool)
    requires forall i :: 0 <= i < |s| ==> q(s[i])
    ensures forall i :: 0 <= i < |Filter(s, p)| ==> q(Filter(s, p)[i])
  {
    forall i | 0 <= i < |Filter(s, p)| ensures q(Filter(s, p)[i]) {
      FilterSound(s, p, i);
    }
  }

  /** The multiset of a selection: its first element when that matches,
      plus the multiset of the selection from the rest. */
  lemma FilterConsMultiset<T>(s: seq<T>, p: T -> bool)
    requires s != []
    ensures multiset(Filter(s, p))
      == (if p(s[0]) then multiset{s[0]} else multiset{}) + multiset(Filter(s[1..], p))
  {
    var h: seq<T> := if p(s[0]) then [s[0]] else [];
    assert Filter(s, p) == h + Filter(s[1..], p);
  }

  /** One element counted by two covering selections is counted once more
      exactly when both select it. */
  lemma OverlapStep<T>(x: T, a: bool, b: bool)
    requires a || b
    ensures (if a then multiset{x} else multiset{}) + (if b then multiset{x} else multiset{})
      == multiset{x} + (if a && b then multiset{x} else multiset{})
  {
  }

  /** Adding two balanced pairs of multisets keeps the balance. */
  lemma AddBalanced<T>(a: multiset<T>, b: multiset<T>, c: multiset<T>, d: multiset<T>,
                       e: multiset<T>, f: multiset<T>, g: multiset<T>, h: multiset<T>)
    requires a + b == c + d && e + f == g + h
    ensures (e + a) + (f + b) == (g + c) + (h + d)
  {
    assert forall x :: ((e + a) + (f + b))[x] == ((g + c) + (h + d))[x] by {
      forall x ensures ((e + a) + (f + b))[x] == ((g + c) + (h + d))[x] {
        assert (a + b)[x] == (c + d)[x];
        assert (e + f)[x] == (g + h)[x];
      }
    }
  }

  /** Two selections that together cover every element hold, between them,
      every element once, and the elements both select a second time. */
  lemma {:induction false} FilterOverlap<T>(s: seq<T>, p: T -> bool, q: T -> bool, pq: T -> bool)
    requires forall x :: p(x) || q(x)
    requires forall x :: pq(x) == (p(x) && q(x))
    ensures multiset(Filter(s, p)) + multiset(Filter(s, q)) == multiset(s) + multiset(Filter(s, pq))
  {
    if s != [] {
      var t := s[1..];
      FilterOverlap(t, p, q, pq);
      FilterConsMultiset(s, p);
      FilterConsMultiset(s, q);
      FilterConsMultiset(s, pq);
      OverlapStep(s[0], p(s[0]), q(s[0]));
      assert s == [s[0]] + t;
      assert multiset(s) == multiset{s[0]} + multiset(t);
      AddBalanced(multiset(Filter(t, p)), multiset(Filter(t, q)), multiset(t), multiset(Filter(t, pq)),
        if p(s[0]) then multiset{s[0]} else multiset{}, if q(s[0]) then multiset{s[0]} else multiset{},
        multiset{s[0]}, if pq(s[0]) then multiset{s[0]} else multiset{});
    }
  }
}
