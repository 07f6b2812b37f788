/**
 * Order-preserving de-duplication, the one list operation the analyser performs twice: the CAN-FIND
 * field loop (`if (!usedFields.includes(f)) usedFields.push(f)`) and `Array.from(new Set(fields))`.
 */
module Sequences {

  predicate Distinct<T(==)>(s: seq<T>) {
    forall i, j :: 0 <= i < j < |s| ==> s[i] != s[j]
  }

  /** Moving one element of `s` from the unvisited suffix `s[n..]` to the visited prefix `s[..n]`. */
  lemma DropCons<T>(s: seq<T>, n: nat, x: T, tail: seq<T>)
    requires n <= |s| && s[n..] == [x] + tail
    ensures n < |s| && s[n] == x && s[n + 1..] == tail
    ensures s[..n + 1] == s[..n] + [x] && s[..n + 1][..n] == s[..n]
  {
    assert s[n..][0] == x;
    assert s[n + 1..] == s[n..][1..];
  }

  /** `xs.map((x, i) => f(i, x))`. */
  function MapIndexed<A, B>(f: (nat, A) -> B, xs: seq<A>): (r: seq<B>)
    ensures |r| == |xs|
    ensures forall i :: 0 <= i < |xs| ==> r[i] == f(i, xs[i])
  {
    seq(|xs|, i requires 0 <= i < |xs| => f(i, xs[i]))
  }

  /** Mapping one more element appends its image, at the next position. */
  lemma MapIndexedSnoc<A, B>(f: (nat, A) -> B, xs: seq<A>, x: A)
    ensures MapIndexed(f, xs + [x]) == MapIndexed(f, xs) + [f(|xs|, x)]
  {
    var a, b := MapIndexed(f, xs + [x]), MapIndexed(f, xs) + [f(|xs|, x)];
    forall i | 0 <= i < |xs| ensures a[i] == b[i] {
      assert (xs + [x])[i] == xs[i];
    }
    assert a[|xs|] == b[|xs|];
  }

  /** The offset of the first occurrence of `x` in `s`. */
  function FirstIndex<T(==)>(s: seq<T>, x: T): (k: nat)
    requires x in s
    ensures k < |s| && s[k] == x
    ensures forall i :: 0 <= i < k ==> s[i] != x
  {
    if s[0] == x then 0 else 1 + FirstIndex(s[1..], x)
  }

  /**
   * `s` with every element after its first occurrence removed: what pushing each element of `s`
   * in turn onto an initially empty list, unless the list already includes it, leaves in the list.
   */
  function Dedup<T(==,!new)>(s: seq<T>): (r: seq<T>)
    ensures forall x :: x in r <==> x in s
    ensures Distinct(r)
    ensures |r| <= |s|
  {
    if s == [] then []
    else
      var init := Dedup(s[..|s| - 1]);
      var x := s[|s| - 1];
      assert forall y :: y in s <==> y in s[..|s| - 1] || y == x;
      if x in init then init else init + [x]
  }

  /** Pushing one more element: it is added at the end exactly when it was not yet present. */
  lemma DedupSnoc<T(!new)>(s: seq<T>, x: T)
    ensures Dedup(s + [x]) == if x in s then Dedup(s) else Dedup(s) + [x]
  {
    assert (s + [x])[..|s|] == s;
  }

  /** A list that is already free of repetitions is left as it is. */
  lemma {:induction false} DedupOfDistinct<T(!new)>(s: seq<T>)
    requires Distinct(s)
    ensures Dedup(s) == s
  {
    if s != [] {
      var init := s[..|s| - 1];
      DedupOfDistinct(init);
      assert s == init + [s[|s| - 1]];
      DedupSnoc(init, s[|s| - 1]);
    }
  }

  /** The kept elements appear in the order of their first occurrences in the input. */
  lemma {:induction false} DedupFirstOccurrenceOrder<T(!new)>(s: seq<T>)
    ensures forall i, j :: 0 <= i < j < |Dedup(s)| ==> FirstIndex(s, Dedup(s)[i]) < FirstIndex(s, Dedup(s)[j])
  {
    if s != [] {
      var init := s[..|s| - 1];
      var x := s[|s| - 1];
      DedupFirstOccurrenceOrder(init);
      assert s == init + [x];
      forall y | y in init ensures FirstIndex(s, y) == FirstIndex(init, y) {
        FirstIndexPrefix(init, x, y);
      }
      if x !in init {
        assert FirstIndex(s, x) == |init| by {
          FirstIndexNew(init, x);
        }
      }
    }
  }

  lemma {:induction false} FirstIndexPrefix<T>(s: seq<T>, x: T, y: T)
    requires y in s
    ensures FirstIndex(s + [x], y) == FirstIndex(s, y)
  {
    if s[0] != y {
      assert (s + [x])[1..] == s[1..] + [x];
      FirstIndexPrefix(s[1..], x, y);
    }
  }

  lemma FirstIndexNew<T>(s: seq<T>, x: T)
    requires x !in s
    ensures FirstIndex(s + [x], x) == |s|
  {
    var k := FirstIndex(s + [x], x);
    assert (s + [x])[k] == x;
  }

  /** The elements of `s`, as a set. */
  function Elements<T>(s: seq<T>): set<T> {
    set x | x in s
  }

  /** A list has at least as many positions as elements, and exactly as many when it has no repetition. */
  lemma {:induction false} ElementsCard<T>(s: seq<T>)
    ensures |Elements(s)| <= |s|
    ensures Distinct(s) ==> |Elements(s)| == |s|
  {
    if s != [] {
      var init, x := s[..|s| - 1], s[|s| - 1];
      ElementsCard(init);
      assert s == init + [x];
      assert Elements(s) == Elements(init) + {x};
      if Distinct(s) {
        assert Distinct(init);
        forall k | 0 <= k < |init| ensures init[k] != x {
          assert s[k] == init[k];
        }
      }
    }
  }

  /**
   * Pigeonhole: a list without repetitions whose elements all occur in `b` is no longer than `b`,
   * and when it is exactly as long it holds the same elements as `b`.
   */
  lemma DistinctWithin<T>(a: seq<T>, b: seq<T>)
    requires Distinct(a) && forall x :: x in a ==> x in b
    ensures |a| <= |b|
    ensures |a| == |b| ==> forall x :: x in b <==> x in a
  {
    ElementsCard(a);
    ElementsCard(b);
    assert Elements(a) <= Elements(b);
    if |a| == |b| {
      assert |Elements(b) - Elements(a)| == |Elements(b)| - |Elements(a)| == 0;
      assert Elements(b) - Elements(a) == {};
      forall x | x in b ensures x in a {
        assert x in Elements(b);
      }
    }
  }
}
