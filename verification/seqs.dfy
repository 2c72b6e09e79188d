/** Order-preserving selection over sequences: the model's counterpart of a filtered queryset. */
module Seqs {

  /** The elements of `s` that satisfy `keep`, in the order they have in `s`. */
  function Filter<T>(s: seq<T>, keep: T -> bool): (r: seq<T>)
    ensures |r| <= |s|
    ensures forall i :: 0 <= i < |r| ==> r[i] in s && keep(r[i])
    ensures forall i :: 0 <= i < |s| && keep(s[i]) ==> s[i] in r
  {
    if s == [] then []
    else if keep(s[0]) then [s[0]] + Filter(s[1..], keep)
    else Filter(s[1..], keep)
  }

  /** Every earlier element stands in `rel` to every later one. */
  ghost predicate Pairwise<T>(s: seq<T>, rel: (T, T) -> bool)
  {
    forall i, j :: 0 <= i < j < |s| ==> rel(s[i], s[j])
  }

  /** Selecting a subsequence keeps every pairwise relation of the original order. */
  lemma {:induction false} FilterKeepsPairwise<T>(s: seq<T>, keep: T -> bool, rel: (T, T) -> bool)
    ensures Pairwise(s, rel) ==> Pairwise(Filter(s, keep), rel)
  {
    if s != [] && Pairwise(s, rel) {
      var tail := s[1..];
      assert Pairwise(tail, rel) by {
        forall i, j | 0 <= i < j < |tail| ensures rel(tail[i], tail[j]) {
          assert tail[i] == s[i + 1] && tail[j] == s[j + 1];
        }
      }
      FilterKeepsPairwise(tail, keep, rel);
      if keep(s[0]) {
        var r := Filter(s, keep);
        var rt := Filter(tail, keep);
        assert r == [s[0]] + rt;
        forall i, j | 0 <= i < j < |r| ensures rel(r[i], r[j]) {
          if i == 0 {
            assert r[j] == rt[j - 1] && r[j] in tail;
            var k :| 0 <= k < |tail| && tail[k] == r[j];
            assert s[k + 1] == r[j];
          } else {
            assert r[i] == rt[i - 1] && r[j] == rt[j - 1];
          }
        }
      }
    }
  }

  /** A contiguous slice keeps every pairwise relation of the original order. */
  lemma SliceKeepsPairwise<T>(s: seq<T>, lo: int, hi: int, rel: (T, T) -> bool)
    requires Pairwise(s, rel) && 0 <= lo <= hi <= |s|
    ensures Pairwise(s[lo..hi], rel)
  {
    var t := s[lo..hi];
    forall i, j | 0 <= i < j < |t| ensures rel(t[i], t[j]) {
      assert t[i] == s[lo + i] && t[j] == s[lo + j];
    }
  }

  /** How often `x` occurs in the selection: as often as in `s` if it is kept, never otherwise. */
  lemma {:induction false} FilterCount<T>(s: seq<T>, keep: T -> bool, x: T)
    ensures multiset(Filter(s, keep))[x] == if keep(x) then multiset(s)[x] else 0
  {
    if s != [] {
      FilterCount(s[1..], keep, x);
      assert s == [s[0]] + s[1..];
      assert multiset(s) == multiset{s[0]} + multiset(s[1..]);
    }
  }

  /** Selecting with the same test twice selects nothing more. */
  lemma {:induction false} FilterIdempotent<T>(s: seq<T>, keep: T -> bool)
    ensures Filter(Filter(s, keep), keep) == Filter(s, keep)
  {
    if s != [] {
      FilterIdempotent(s[1..], keep);
      if keep(s[0]) {
        var r := [s[0]] + Filter(s[1..], keep);
        assert r[0] == s[0] && r[1..] == Filter(s[1..], keep);
      }
    }
  }

  /** An appended element that fails the test leaves the selection as it was. */
  lemma {:induction false} FilterAppendDropped<T>(s: seq<T>, x: T, keep: T -> bool)
    requires !keep(x)
    ensures Filter(s + [x], keep) == Filter(s, keep)
  {
    if s == [] {
      assert [] + [x] == [x];
      assert [x][1..] == [];
    } else {
      FilterAppendDropped(s[1..], x, keep);
      assert (s + [x])[0] == s[0] && (s + [x])[1..] == s[1..] + [x];
    }
  }

  /**
   * Two sequences in the same strict order that hold the same elements are the same sequence:
   * the order alone fixes where every element goes.
   */
  lemma {:induction false} StrictOrderDeterminesSequence<T>(a: seq<T>, b: seq<T>, rel: (T, T) -> bool)
    requires forall x, y :: rel(x, y) ==> !rel(y, x)
    requires Pairwise(a, rel) && Pairwise(b, rel)
    requires forall x :: x in a <==> x in b
    ensures a == b
  {
    if a != [] && b != [] {
      assert a[0] in a && b[0] in b;
      var ka :| 0 <= ka < |b| && b[ka] == a[0];
      var kb :| 0 <= kb < |a| && a[kb] == b[0];
      assert ka == 0;
      var ta, tb := a[1..], b[1..];
      SliceKeepsPairwise(a, 1, |a|, rel);
      SliceKeepsPairwise(b, 1, |b|, rel);
      forall x ensures x in ta <==> x in tb {
        if x in ta {
          var i :| 0 <= i < |ta| && ta[i] == x;
          assert rel(a[0], a[i + 1]);
          assert x in b && x != b[0];
          var j :| 0 <= j < |b| && b[j] == x;
          assert j != 0 && tb[j - 1] == x;
        }
        if x in tb {
          var i :| 0 <= i < |tb| && tb[i] == x;
          assert rel(b[0], b[i + 1]);
          assert x in a && x != a[0];
          var j :| 0 <= j < |a| && a[j] == x;
          assert j != 0 && ta[j - 1] == x;
        }
      }
      StrictOrderDeterminesSequence(ta, tb, rel);
      assert a == [a[0]] + ta && b == [b[0]] + tb;
    } else if a != [] || b != [] {
      HeadIsMember(a);
      HeadIsMember(b);
      assert false;
    }
  }

  lemma HeadIsMember<T>(s: seq<T>)
    ensures s != [] ==> s[0] in s
  {
  }

  /** Putting in front an element that stands in `rel` to all others keeps the order. */
  lemma PrependKeepsPairwise<T>(x: T, s: seq<T>, rel: (T, T) -> bool)
    requires Pairwise(s, rel)
    requires forall i :: 0 <= i < |s| ==> rel(x, s[i])
    ensures Pairwise([x] + s, rel)
  {
    var t := [x] + s;
    forall i, j | 0 <= i < j < |t| ensures rel(t[i], t[j]) {
      assert t[j] == s[j - 1];
      if i > 0 { assert t[i] == s[i - 1]; }
    }
  }
}
