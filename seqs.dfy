/** Generic sequence operations shared by the model: order-preserving
    de-duplication (Python's "append if not already in the list"), flattening
    of a list of lists, and the row filter behind every boolean mask. */
module Seqs {

  /** No element occurs twice. */
  predicate NoDup<T(==)>(s: seq<T>) {
    forall i, j :: 0 <= i < j < |s| ==> s[i] != s[j]
  }

  /** Position of the first occurrence of `x` in `s`. */
  function FirstIndex<T(==)>(s: seq<T>, x: T): (k: nat)
    requires x in s
    ensures k < |s| && s[k] == x
    ensures forall i :: 0 <= i < k ==> s[i] != x
  {
    if s[0] == x then 0 else 1 + FirstIndex(s[1..], x)
  }

  /** Order-preserving de-duplication, written from the back exactly as a loop
      that appends an element only when it is not already in the result. */
  function Dedup<T(==)>(s: seq<T>): (r: seq<T>)
    decreases |s|
  {
    if s == [] then []
    else if s[|s| - 1] in s[..|s| - 1] then Dedup(s[..|s| - 1])
    else Dedup(s[..|s| - 1]) + [s[|s| - 1]]
  }

  /** The concatenation of a list of lists, in argument order. */
  function Flatten<T>(ss: seq<seq<T>>): (r: seq<T>)
    decreases |ss|
  {
    if ss == [] then [] else Flatten(ss[..|ss| - 1]) + ss[|ss| - 1]
  }

  /** `f` applied to every element, in order. */
  function Apply<A, B>(s: seq<A>, f: A -> B): (r: seq<B>)
    ensures |r| == |s|
    ensures forall k :: 0 <= k < |s| ==> r[k] == f(s[k])
  {
    if s == [] then [] else [f(s[0])] + Apply(s[1..], f)
  }

  /** The elements of `s` that satisfy `keep`, in their original order
      (a boolean-mask selection). */
  function Where<T>(s: seq<T>, keep: T -> bool): (r: seq<T>)
    ensures |r| <= |s|
  {
    if s == [] then []
    else if keep(s[0]) then [s[0]] + Where(s[1..], keep)
    else Where(s[1..], keep)
  }

  lemma {:induction false} DedupMembers<T>(s: seq<T>, x: T)
    ensures x in Dedup(s) <==> x in s
    decreases |s|
  {
    if s != [] {
      var init := s[..|s| - 1];
      assert s == init + [s[|s| - 1]];
      DedupMembers(init, x);
    }
  }

  lemma {:induction false} DedupNoDup<T>(s: seq<T>)
    ensures NoDup(Dedup(s))
    decreases |s|
  {
    if s != [] {
      var init := s[..|s| - 1];
      DedupNoDup(init);
      DedupMembers(init, s[|s| - 1]);
    }
  }

  /** Elements of `Dedup(s)` appear in the order of their first occurrence in `s`. */
  lemma {:induction false} DedupFirstOccurrenceOrder<T>(s: seq<T>, i: nat, j: nat)
    requires i < j < |Dedup(s)|
    ensures Dedup(s)[i] in s && Dedup(s)[j] in s
    ensures FirstIndex(s, Dedup(s)[i]) < FirstIndex(s, Dedup(s)[j])
    decreases |s|
  {
    var r := Dedup(s);
    DedupMembers(s, r[i]);
    DedupMembers(s, r[j]);
    var init := s[..|s| - 1];
    var last := s[|s| - 1];
    var ri := Dedup(init);
    if j < |ri| {
      assert r[i] == ri[i] && r[j] == ri[j];
      DedupFirstOccurrenceOrder(init, i, j);
      FirstIndexOfPrefix(s, init, ri[i]);
      DedupMembers(init, ri[j]);
      FirstIndexOfPrefix(s, init, ri[j]);
    } else {
      assert r[j] == last && last !in init;
      assert ri[i] == r[i];
      DedupMembers(init, ri[i]);
      FirstIndexOfPrefix(s, init, ri[i]);
      assert FirstIndex(s, last) == |s| - 1;
    }
  }

  lemma {:induction false} FirstIndexOfPrefix<T>(s: seq<T>, p: seq<T>, x: T)
    requires p <= s && x in p
    ensures x in s && FirstIndex(s, x) == FirstIndex(p, x)
    decreases |p|
  {
    if p[0] != x {
      FirstIndexOfPrefix(s[1..], p[1..], x);
    }
  }

  /** A duplicate-free sequence is its own de-duplication. */
  lemma {:induction false} DedupOfDistinct<T>(s: seq<T>)
    requires NoDup(s)
    ensures Dedup(s) == s
    decreases |s|
  {
    if s != [] {
      var init := s[..|s| - 1];
      assert NoDup(init);
      DedupOfDistinct(init);
      assert s[|s| - 1] !in init;
      assert init + [s[|s| - 1]] == s;
    }
  }

  /** De-duplicating one more element: it is appended when new. */
  lemma DedupSnoc<T>(s: seq<T>, x: T)
    ensures Dedup(s + [x]) == if x in s then Dedup(s) else Dedup(s) + [x]
  {
    assert (s + [x])[..|s|] == s;
  }

  lemma DedupIdempotent<T>(s: seq<T>)
    ensures Dedup(Dedup(s)) == Dedup(s)
  {
    DedupNoDup(s);
    DedupOfDistinct(Dedup(s));
  }

  lemma {:induction false} FlattenMembers<T>(ss: seq<seq<T>>, x: T)
    ensures x in Flatten(ss) <==> exists k :: 0 <= k < |ss| && x in ss[k]
    decreases |ss|
  {
    if ss != [] {
      var init := ss[..|ss| - 1];
      FlattenMembers(init, x);
      if x in ss[|ss| - 1] {
        assert x in Flatten(ss);
      }
      if exists k :: 0 <= k < |ss| && x in ss[k] {
        var k :| 0 <= k < |ss| && x in ss[k];
        if k < |ss| - 1 {
          assert init[k] == ss[k];
        }
      }
    }
  }

  lemma {:induction false} WhereMembers<T>(s: seq<T>, keep: T -> bool, x: T)
    ensures x in Where(s, keep) <==> x in s && keep(x)
    decreases |s|
  {
    if s != [] {
      WhereMembers(s[1..], keep, x);
      assert s == [s[0]] + s[1..];
    }
  }

  /** Filtering twice by the same mask keeps the same elements. */
  lemma {:induction false} WhereAppend<T>(a: seq<T>, b: seq<T>, keep: T -> bool)
    ensures Where(a + b, keep) == Where(a, keep) + Where(b, keep)
    decreases |a|
  {
    if a != [] {
      WhereAppend(a[1..], b, keep);
      assert (a + b)[1..] == a[1..] + b;
    } else {
      assert a + b == b;
    }
  }

  lemma {:induction false} WhereIdempotent<T>(s: seq<T>, keep: T -> bool)
    ensures Where(Where(s, keep), keep) == Where(s, keep)
    decreases |s|
  {
    if s != [] {
      WhereIdempotent(s[1..], keep);
    }
  }

  lemma {:induction false} WhereAll<T>(s: seq<T>, keep: T -> bool)
    requires forall x :: x in s ==> keep(x)
    ensures Where(s, keep) == s
    decreases |s|
  {
    if s != [] {
      WhereAll(s[1..], keep);
    }
  }

  lemma {:induction false} WhereNone<T>(s: seq<T>, keep: T -> bool)
    requires forall x :: x in s ==> !keep(x)
    ensures Where(s, keep) == []
    decreases |s|
  {
    if s != [] {
      WhereNone(s[1..], keep);
    }
  }

  /** How many elements of `s` satisfy `p` (each occurrence counted). */
  function Count<T>(s: seq<T>, p: T -> bool): (n: nat)
    ensures n <= |s|
    decreases |s|
  {
    if s == [] then 0
    else Count(s[..|s| - 1], p) + (if p(s[|s| - 1]) then 1 else 0)
  }

  /** Counting one more element of a prefix. */
  lemma CountPrefixStep<T>(s: seq<T>, i: nat, p: T -> bool)
    requires i < |s|
    ensures Count(s[..i + 1], p) == Count(s[..i], p) + (if p(s[i]) then 1 else 0)
  {
    assert s[..i + 1][..i] == s[..i];
  }

  lemma {:induction false} CountAppend<T>(a: seq<T>, b: seq<T>, p: T -> bool)
    ensures Count(a + b, p) == Count(a, p) + Count(b, p)
    decreases |b|
  {
    if b == [] {
      assert a + b == a;
    } else {
      var init := b[..|b| - 1];
      assert (a + b)[..|a + b| - 1] == a + init;
      assert (a + b)[|a + b| - 1] == b[|b| - 1];
      CountAppend(a, init, p);
    }
  }

  /** The count reaches the length exactly when every element satisfies `p`. */
  lemma {:induction false} CountAll<T>(s: seq<T>, p: T -> bool)
    ensures Count(s, p) == |s| <==> forall x :: x in s ==> p(x)
    decreases |s|
  {
    if s != [] {
      var init := s[..|s| - 1];
      var last := s[|s| - 1];
      CountAll(init, p);
      assert forall x :: x in s <==> x in init || x == last by {
        assert s == init + [last];
      }
    }
  }

  /** The count is zero exactly when no element satisfies `p`. */
  lemma {:induction false} CountNone<T>(s: seq<T>, p: T -> bool)
    ensures Count(s, p) == 0 <==> forall x :: x in s ==> !p(x)
    decreases |s|
  {
    if s != [] {
      var init := s[..|s| - 1];
      var last := s[|s| - 1];
      CountNone(init, p);
      assert forall x :: x in s <==> x in init || x == last by {
        assert s == init + [last];
      }
    }
  }

  /** A weaker test never counts more. */
  lemma {:induction false} CountMonotone<T>(s: seq<T>, p: T -> bool, q: T -> bool)
    requires forall x :: x in s && p(x) ==> q(x)
    ensures Count(s, p) <= Count(s, q)
    decreases |s|
  {
    if s != [] {
      var init := s[..|s| - 1];
      assert forall x :: x in init ==> x in s;
      CountMonotone(init, p, q);
    }
  }

  /** A selection keeps as many elements as satisfy its test. */
  lemma {:induction false} WhereCount<T>(s: seq<T>, keep: T -> bool)
    ensures |Where(s, keep)| == Count(s, keep)
  {
    if s != [] {
      WhereCount(s[1..], keep);
      assert s == [s[0]] + s[1..];
      CountAppend([s[0]], s[1..], keep);
      assert [s[0]][..0] == [];
    }
  }
}
