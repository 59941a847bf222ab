/** Sequence helpers shared by the grid and the entity manager: the array
    built-ins the source leans on (`indexOf`, `splice`, `filter`) and the
    duplicate-free accumulation a grid query performs. */
module Sequences {

  /** No element occurs twice. */
  predicate NoDup<T(==)>(s: seq<T>)
  {
    forall i, j :: 0 <= i < j < |s| ==> s[i] != s[j]
  }

  /** `Array.prototype.indexOf`: the position of the first occurrence of `x`,
      or -1 when there is none. */
  function IndexOf<T(==)>(s: seq<T>, x: T): (i: int)
    ensures -1 <= i < |s|
    ensures i == -1 <==> x !in s
    ensures 0 <= i ==> s[i] == x && x !in s[..i]
  {
    if s == [] then -1
    else if s[0] == x then 0
    else
      var j := IndexOf(s[1..], x);
      assert s[1..][..if j < 0 then 0 else j] == s[1..if j < 0 then 1 else j + 1];
      if j < 0 then -1 else j + 1
  }

  /** `indexOf` followed by `splice(i, 1)`: the first occurrence of `x` is
      cut out, and `s` is returned as it was when `x` does not occur. */
  function RemoveFirst<T(==)>(s: seq<T>, x: T): (r: seq<T>)
    ensures x !in s ==> r == s
    ensures x in s ==> |r| == |s| - 1
  {
    var i := IndexOf(s, x);
    if i < 0 then s else s[..i] + s[i + 1..]
  }

  /** `Array.prototype.filter`: the elements that satisfy `p`, in order. */
  function Filter<T>(s: seq<T>, p: T -> bool): (r: seq<T>)
    ensures |r| <= |s|
    ensures forall i :: 0 <= i < |r| ==> r[i] in s && p(r[i])
    ensures forall i :: 0 <= i < |s| && p(s[i]) ==> s[i] in r
  {
    if s == [] then [] else (if p(s[0]) then [s[0]] else []) + Filter(s[1..], p)
  }

  /** The first occurrence of every element of `s`, in the order of `s`;
      built from the right, the way a scan appends to its result. */
  function Dedup<T(==)>(s: seq<T>): (r: seq<T>)
    ensures NoDup(r)
    ensures forall i :: 0 <= i < |r| ==> r[i] in s
    ensures forall i :: 0 <= i < |s| ==> s[i] in r
  {
    if s == [] then []
    else
      var d := Dedup(s[..|s| - 1]);
      assert forall i :: 0 <= i < |s| - 1 ==> s[i] == s[..|s| - 1][i];
      if s[|s| - 1] in d then d else d + [s[|s| - 1]]
  }

  /** Deduplicating keeps exactly the elements of `s`. */
  lemma DedupMember<T>(s: seq<T>, x: T)
    ensures x in Dedup(s) <==> x in s
  {
    if x in s {
      var i :| 0 <= i < |s| && s[i] == x;
    }
  }

  /** Deduplicating one more element appends it exactly when it is new. */
  lemma DedupSnoc<T>(s: seq<T>, v: T)
    ensures Dedup(s + [v]) == if v in s then Dedup(s) else Dedup(s) + [v]
  {
    assert (s + [v])[..|s|] == s;
    DedupMember(s, v);
  }

  /** Every element of `s` other than `x`, in order. */
  function Without<T(==)>(s: seq<T>, x: T): (r: seq<T>)
  {
    if s == [] then [] else (if s[0] == x then [] else [s[0]]) + Without(s[1..], x)
  }

  /** On a duplicate-free sequence, cutting out the first occurrence of `x`
      is the same as keeping every element other than `x`, in order: `x`
      is gone and nothing else moved. */
  lemma {:induction false} RemoveFirstIsWithout<T>(s: seq<T>, x: T)
    requires NoDup(s)
    ensures RemoveFirst(s, x) == Without(s, x)
  {
    if s != [] {
      var t := s[1..];
      assert NoDup(t) by {
        forall i, j | 0 <= i < j < |t| ensures t[i] != t[j] {
          assert t[i] == s[i + 1] && t[j] == s[j + 1];
        }
      }
      if s[0] == x {
        assert x !in t by {
          forall k | 0 <= k < |t| ensures t[k] != x {
            assert t[k] == s[k + 1];
          }
        }
        WithoutAbsent(t, x);
      } else {
        RemoveFirstIsWithout(t, x);
        var j := IndexOf(t, x);
        assert IndexOf(s, x) == (if j < 0 then -1 else j + 1);
        if j < 0 {
          assert [s[0]] + t == s;
        } else {
          assert s[..j + 1] == [s[0]] + t[..j];
          assert s[j + 2..] == t[j + 1..];
        }
      }
    }
  }

  /** Removing an element that does not occur changes nothing. */
  lemma {:induction false} WithoutAbsent<T>(s: seq<T>, x: T)
    requires x !in s
    ensures Without(s, x) == s
  {
    if s != [] {
      WithoutAbsent(s[1..], x);
    }
  }

  /** `Without` keeps exactly the elements other than `x` and keeps a
      duplicate-free sequence duplicate-free. */
  lemma {:induction false} WithoutMembers<T>(s: seq<T>, x: T)
    ensures forall y :: y in Without(s, x) <==> y in s && y != x
    ensures NoDup(s) ==> NoDup(Without(s, x))
  {
    if s != [] {
      var t := s[1..];
      WithoutMembers(t, x);
      if NoDup(s) {
        assert NoDup(t) by {
          forall i, j | 0 <= i < j < |t| ensures t[i] != t[j] {
            assert t[i] == s[i + 1] && t[j] == s[j + 1];
          }
        }
        assert s[0] !in t by {
          forall k | 0 <= k < |t| ensures t[k] != s[0] {
            assert t[k] == s[k + 1];
          }
        }
      }
    }
  }

  /** Filtering keeps a sequence duplicate-free. */
  lemma {:induction false} FilterNoDup<T>(s: seq<T>, p: T -> bool)
    requires NoDup(s)
    ensures NoDup(Filter(s, p))
  {
    if s != [] {
      assert NoDup(s[1..]) by {
        forall i, j | 0 <= i < j < |s[1..]| ensures s[1..][i] != s[1..][j] {
          assert s[1..][i] == s[i + 1] && s[1..][j] == s[j + 1];
        }
      }
      FilterNoDup(s[1..], p);
      assert s[0] !in s[1..] by {
        forall k | 0 <= k < |s[1..]| ensures s[1..][k] != s[0] {
          assert s[1..][k] == s[k + 1];
        }
      }
    }
  }

  /** Filtering distributes over concatenation. */
  lemma {:induction false} FilterAppend<T>(s: seq<T>, t: seq<T>, p: T -> bool)
    ensures Filter(s + t, p) == Filter(s, p) + Filter(t, p)
  {
    if s != [] {
      assert (s + t)[1..] == s[1..] + t;
      FilterAppend(s[1..], t, p);
    } else {
      assert s + t == t;
    }
  }

  /** A filter that rejects exactly `x` among the elements of `s` is
      `Without(s, x)`. */
  lemma {:induction false} FilterIsWithout<T>(s: seq<T>, x: T, p: T -> bool)
    requires forall i :: 0 <= i < |s| ==> (p(s[i]) <==> s[i] != x)
    ensures Filter(s, p) == Without(s, x)
  {
    if s != [] {
      assert forall i :: 0 <= i < |s[1..]| ==> s[1..][i] == s[i + 1];
      FilterIsWithout(s[1..], x, p);
    }
  }
}
