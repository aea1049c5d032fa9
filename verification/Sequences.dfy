/** Filtering and the subsequence order, used by the caches, the event fan-out and paging. */
module Sequences {
  /** The elements of `s` that satisfy `p`, in order. */
  function Keep<T>(p: T -> bool, s: seq<T>): (r: seq<T>)
  {
    if s == [] then [] else (if p(s[0]) then [s[0]] else []) + Keep(p, s[1..])
  }

  /** `s` can be obtained from `t` by deleting elements. */
  ghost predicate Subseq<T>(s: seq<T>, t: seq<T>)
  {
    s == [] ||
    (t != [] && ((s[0] == t[0] && Subseq(s[1..], t[1..])) || Subseq(s, t[1..])))
  }

  lemma {:induction false} KeepMembers<T>(p: T -> bool, s: seq<T>)
    ensures forall x :: x in Keep(p, s) <==> x in s && p(x)
  {
    if s == [] {
    } else {
      KeepMembers(p, s[1..]);
      assert s == [s[0]] + s[1..];
    }
  }

  /** `Keep` looks at the first element, then at the rest. */
  lemma KeepStep<T>(p: T -> bool, s: seq<T>)
    requires s != []
    ensures !p(s[0]) ==> Keep(p, s) == Keep(p, s[1..])
    ensures p(s[0]) ==> Keep(p, s) != [] && Keep(p, s)[0] == s[0] && Keep(p, s)[1..] == Keep(p, s[1..])
  {
  }

  lemma {:induction false} KeepAll<T>(p: T -> bool, s: seq<T>)
    requires forall x :: x in s ==> p(x)
    ensures Keep(p, s) == s
  {
    if s == [] {
    } else {
      KeepAll(p, s[1..]);
    }
  }

  lemma {:induction false} KeepAppend<T>(p: T -> bool, s: seq<T>, t: seq<T>)
    ensures Keep(p, s + t) == Keep(p, s) + Keep(p, t)
  {
    if s == [] {
      assert s + t == t;
    } else {
      var head := if p(s[0]) then [s[0]] else [];
      KeepAppend(p, s[1..], t);
      assert (s + t)[0] == s[0] && (s + t)[1..] == s[1..] + t;
      assert Keep(p, s + t) == head + (Keep(p, s[1..]) + Keep(p, t));
    }
  }

  /** Filtering by `q` first does not matter when `p` implies `q`. */
  lemma {:induction false} KeepKeep<T>(p: T -> bool, q: T -> bool, s: seq<T>)
    requires forall x :: x in s && p(x) ==> q(x)
    ensures Keep(p, Keep(q, s)) == Keep(p, s)
  {
    if s == [] {
    } else {
      KeepStep(q, s);
      KeepStep(p, s);
      KeepKeep(p, q, s[1..]);
      if q(s[0]) {
        KeepStep(p, Keep(q, s));
      }
    }
  }

  /** A set that lists a duplicate-free sequence has its length. */
  lemma {:induction false} SizeOfListing<T>(keys: set<T>, s: seq<T>)
    requires forall i, j :: 0 <= i < j < |s| ==> s[i] != s[j]
    requires forall x :: x in keys <==> x in s
    ensures |keys| == |s|
  {
    if s == [] {
      assert keys == {};
    } else {
      assert s == [s[0]] + s[1..];
      SizeOfListing(keys - {s[0]}, s[1..]);
    }
  }

  /** Filtering everything but position `k` deletes exactly that position. */
  lemma {:induction false} KeepAllBut<T>(p: T -> bool, s: seq<T>, k: nat)
    requires k < |s| && !p(s[k])
    requires forall i :: 0 <= i < |s| && i != k ==> p(s[i])
    ensures Keep(p, s) == s[..k] + s[k + 1..]
  {
    var front, back := s[..k], s[k + 1..];
    assert s == front + ([s[k]] + back);
    KeepAppend(p, front, [s[k]] + back);
    KeepStep(p, [s[k]] + back);
    assert ([s[k]] + back)[1..] == back;
    KeepAll(p, front);
    KeepAll(p, back);
  }

  lemma {:induction false} SubseqRefl<T>(s: seq<T>)
    ensures Subseq(s, s)
  {
    if s == [] {
    } else {
      SubseqRefl(s[1..]);
    }
  }

  lemma {:induction false} KeepIsSubseq<T>(p: T -> bool, s: seq<T>)
    ensures Subseq(Keep(p, s), s)
  {
    if s == [] {
    } else {
      KeepIsSubseq(p, s[1..]);
      KeepStep(p, s);
    }
  }

  lemma {:induction false} SubseqMembers<T>(s: seq<T>, t: seq<T>)
    requires Subseq(s, t)
    ensures |s| <= |t|
    ensures forall x :: x in s ==> x in t
  {
    if s == [] {
    } else if s[0] == t[0] && Subseq(s[1..], t[1..]) {
      SubseqMembers(s[1..], t[1..]);
      assert s == [s[0]] + s[1..];
    } else {
      SubseqMembers(s, t[1..]);
    }
  }

  /** Filtering is monotone, and removes at least as much from the larger sequence. */
  lemma {:induction false} KeepMonotone<T>(p: T -> bool, s: seq<T>, t: seq<T>)
    requires Subseq(s, t)
    ensures Subseq(Keep(p, s), Keep(p, t))
    ensures |s| - |Keep(p, s)| <= |t| - |Keep(p, t)|
  {
    if s == [] {
      KeepLength(p, t);
    } else if s[0] == t[0] && Subseq(s[1..], t[1..]) {
      KeepMonotone(p, s[1..], t[1..]);
      KeepStep(p, s);
      KeepStep(p, t);
    } else {
      KeepMonotone(p, s, t[1..]);
      SubseqExtend(Keep(p, s), Keep(p, t[1..]), if p(t[0]) then [t[0]] else []);
    }
  }

  lemma {:induction false} KeepLength<T>(p: T -> bool, s: seq<T>)
    ensures |Keep(p, s)| <= |s|
  {
    if s == [] {
    } else {
      KeepLength(p, s[1..]);
    }
  }

  lemma {:induction false} SubseqExtend<T>(s: seq<T>, t: seq<T>, front: seq<T>)
    requires Subseq(s, t)
    ensures Subseq(s, front + t)
  {
    if front == [] {
      assert front + t == t;
    } else {
      SubseqExtend(s, t, front[1..]);
      assert (front + t)[1..] == front[1..] + t;
    }
  }

  lemma {:induction false} SubseqAppend<T>(s: seq<T>, t: seq<T>, x: T)
    requires Subseq(s, t)
    ensures Subseq(s + [x], t + [x])
    ensures Subseq(s, t + [x])
  {
    if t == [] {
      assert s + [x] == [x] && t + [x] == [x];
    } else {
      assert (t + [x])[1..] == t[1..] + [x];
      if s == [] {
        SubseqAppend(s, t[1..], x);
        assert s + [x] == [x];
      } else {
        assert (s + [x])[1..] == s[1..] + [x];
        if s[0] == t[0] && Subseq(s[1..], t[1..]) {
          SubseqAppend(s[1..], t[1..], x);
        } else {
          SubseqAppend(s, t[1..], x);
        }
      }
    }
  }

  /** Dropping the last element of both sides keeps the order between them. */
  lemma {:induction false} SubseqDropLast<T>(s: seq<T>, t: seq<T>)
    requires Subseq(s, t) && s != []
    ensures t != [] && Subseq(s[..|s| - 1], t[..|t| - 1])
  {
    if s[0] == t[0] && Subseq(s[1..], t[1..]) {
      if |s| > 1 {
        SubseqDropLast(s[1..], t[1..]);
        assert s[1..][..|s| - 2] == s[..|s| - 1][1..];
        assert t[1..][..|t| - 2] == t[..|t| - 1][1..];
      }
    } else {
      SubseqDropLast(s, t[1..]);
      assert t[1..][..|t| - 2] == t[..|t| - 1][1..];
    }
  }

  lemma {:induction false} SubseqTrans<T>(s: seq<T>, t: seq<T>, u: seq<T>)
    requires Subseq(s, t) && Subseq(t, u)
    ensures Subseq(s, u)
    decreases |u|
  {
    if s == [] || t == [] {
    } else if t[0] == u[0] && Subseq(t[1..], u[1..]) {
      if s[0] == t[0] && Subseq(s[1..], t[1..]) {
        SubseqTrans(s[1..], t[1..], u[1..]);
      } else {
        SubseqTrans(s, t[1..], u[1..]);
      }
    } else {
      SubseqTrans(s, t, u[1..]);
    }
  }
}
