/** Order-preserving selection from a sequence: a list comprehension with an `if`. */
module Seqs {
  /** `[x for x in s if keep(x)]` */
  function Select<T>(s: seq<T>, keep: T -> bool): (r: seq<T>)
    ensures |r| <= |s|
    decreases |s|
  {
    if s == [] then [] else Select(s[..|s| - 1], keep) + (if keep(s[|s| - 1]) then [s[|s| - 1]] else [])
  }

  /** The selection holds exactly the elements that pass, and only them. */
  lemma {:induction false} SelectMembers<T>(s: seq<T>, keep: T -> bool)
    ensures forall x :: x in Select(s, keep) <==> x in s && keep(x)
    decreases |s|
  {
    if s != [] {
      var n := |s| - 1;
      SelectMembers(s[..n], keep);
      assert s == s[..n] + [s[n]];
      forall x ensures x in s <==> x in s[..n] || x == s[n] {
        if x in s {
          var i :| 0 <= i < |s| && s[i] == x;
          if i < n {
            assert s[..n][i] == x;
          }
        }
      }
    }
  }

  lemma ConcatAssoc<T>(a: seq<T>, b: seq<T>, c: seq<T>)
    ensures a + (b + c) == a + b + c
  {
  }

  /** Two splits with equal parts give equal wholes. */
  lemma JoinEqual<T>(x: seq<T>, h: seq<T>, y: seq<T>, w: seq<T>, a: seq<T>, z: seq<T>)
    requires x == h + y && w == a + z && a == h && y == z
    ensures x == w
  {
  }

  lemma AppendEmpty<T>(s: seq<T>)
    ensures s + [] == s
  {
  }

  lemma EmptyConcat<T>(s: seq<T>)
    ensures [] + s == s
  {
  }

  /** An element put in front: the head and the rest. */
  lemma ConsTail<T>(x: T, s: seq<T>)
    ensures ([x] + s)[0] == x && ([x] + s)[1..] == s && |[x] + s| == |s| + 1
  {
  }

  /** An index into the middle part of a three-part concatenation. */
  lemma MiddleIndex<T>(a: seq<T>, b: seq<T>, c: seq<T>, i: nat)
    requires |a| <= i < |a| + |b|
    ensures |a + b + c| == |a| + |b| + |c| && (a + b + c)[i] == b[i - |a|]
  {
  }

  /** A prefix one longer: the shorter prefix, then the next element. */
  lemma TakeSnoc<T>(s: seq<T>, k: nat)
    requires 0 < k <= |s|
    ensures s[..k] == s[..k - 1] + [s[k - 1]]
  {
  }

  /** A suffix split at a later position. */
  lemma SuffixSplit<T>(s: seq<T>, a: nat, b: nat)
    requires a <= b <= |s|
    ensures s[a..] == s[a..b] + s[b..]
  {
  }

  /** A non-empty sequence is its front followed by its last element. */
  lemma InitLast<T>(s: seq<T>)
    requires s != []
    ensures s[..|s| - 1] + [s[|s| - 1]] == s
  {
  }

  /** Appending one element appends it to the selection when it passes. */
  lemma SelectSnoc<T>(s: seq<T>, x: T, keep: T -> bool)
    ensures Select(s + [x], keep) == Select(s, keep) + (if keep(x) then [x] else [])
  {
    assert (s + [x])[..|s|] == s;
  }

  /** Selecting from a concatenation selects from each part. */
  lemma {:induction false} SelectAppend<T>(s: seq<T>, t: seq<T>, keep: T -> bool)
    ensures Select(s + t, keep) == Select(s, keep) + Select(t, keep)
    decreases |t|
  {
    if t == [] {
      assert s + t == s;
    } else {
      var n := |t| - 1;
      assert (s + t)[..|s + t| - 1] == s + t[..n];
      SelectAppend(s, t[..n], keep);
    }
  }

  /** When every element passes, nothing is dropped. */
  lemma {:induction false} SelectAll<T>(s: seq<T>, keep: T -> bool)
    requires forall i :: 0 <= i < |s| ==> keep(s[i])
    ensures Select(s, keep) == s
    decreases |s|
  {
    if s != [] {
      SelectAll(s[..|s| - 1], keep);
    }
  }

  /** When no element passes, the selection is empty. */
  lemma {:induction false} SelectNone<T>(s: seq<T>, keep: T -> bool)
    requires forall i :: 0 <= i < |s| ==> !keep(s[i])
    ensures Select(s, keep) == []
    decreases |s|
  {
    if s != [] {
      SelectNone(s[..|s| - 1], keep);
    }
  }

  /** Splitting by a predicate and its complement loses and invents nothing. */
  lemma {:induction false} SelectSplitCount<T>(s: seq<T>, keep: T -> bool, drop: T -> bool)
    requires forall x :: drop(x) == !keep(x)
    ensures |Select(s, keep)| + |Select(s, drop)| == |s|
    ensures multiset(Select(s, keep)) + multiset(Select(s, drop)) == multiset(s)
    decreases |s|
  {
    if s != [] {
      var n := |s| - 1;
      SelectSplitCount(s[..n], keep, drop);
      var a := Select(s[..n], keep);
      var b := Select(s[..n], drop);
      assert s == s[..n] + [s[n]];
      assert multiset(s) == multiset(s[..n]) + multiset{s[n]};
      if keep(s[n]) {
        assert Select(s, keep) == a + [s[n]];
        assert Select(s, drop) == b;
      } else {
        assert Select(s, keep) == a;
        assert Select(s, drop) == b + [s[n]];
      }
    }
  }
}
