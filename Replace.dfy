/**
 * .NET's ordinal String.Replace(oldValue, newValue): every occurrence of the
 * pattern, found left to right without overlap, is replaced. Beside it, a small
 * theory of which occurrences a replacement removes, creates, keeps out and keeps.
 */
module Replace {
  import opened Text

  /** An occurrence past the first character is one in the rest of the string. */
  lemma OccursInTail(s: string, p: string, j: int)
    requires 1 <= j && Occurs(s, p, j)
    ensures Occurs(s[1..], p, j - 1)
  {
    SliceOfSlice(s, 1, |s|, j - 1, j - 1 + |p|);
  }

  /** An occurrence in the rest of the string is one in the whole, one place later. */
  lemma OccursFromTail(s: string, p: string, k: int)
    requires s != [] && Occurs(s[1..], p, k)
    ensures Occurs(s, p, k + 1)
  {
    SliceOfSlice(s, 1, |s|, k, k + |p|);
  }

  /** String.IndexOf (ordinal): the first position of `p` in `s`, or -1. */
  function IndexOf(s: string, p: string): (i: int)
    requires |p| > 0
    ensures i == -1 || Occurs(s, p, i)
    ensures i == -1 ==> !Contains(s, p)
    ensures forall j :: 0 <= j && (i == -1 || j < i) ==> !Occurs(s, p, j)
  {
    if |s| < |p| then -1
    else if s[..|p|] == p then
      assert s[0..|p|] == s[..|p|];
      0
    else
      var k := IndexOf(s[1..], p);
      assert forall j :: 1 <= j && Occurs(s, p, j) ==> Occurs(s[1..], p, j - 1) by {
        forall j | 1 <= j && Occurs(s, p, j) ensures Occurs(s[1..], p, j - 1) {
          OccursInTail(s, p, j);
        }
      }
      assert !Occurs(s, p, 0) by { assert s[0..|p|] == s[..|p|]; }
      if k == -1 then -1
      else
        OccursFromTail(s, p, k);
        k + 1
  }

  /** String.Replace(p, r) for a non-empty `p` (the library rejects an empty one). */
  function ReplaceAll(s: string, p: string, r: string): string
    requires |p| > 0
    decreases |s|
  {
    if |s| < |p| then s
    else if s[..|p|] == p then r + ReplaceAll(s[|p|..], p, r)
    else [s[0]] + ReplaceAll(s[1..], p, r)
  }

  /** `v` placed at offset `d` against `u` agrees with `u` wherever the two overlap. */
  predicate AgreeAt(u: string, v: string, d: int)
  {
    forall j :: 0 <= j < |u| && 0 <= j - d < |v| ==> u[j] == v[j - d]
  }

  /** No string holds an occurrence of `u` and one of `v` that overlap. */
  predicate Disjoint(u: string, v: string)
  {
    |u| > 0 && |v| > 0 && forall d :: -|v| < d < |u| ==> !AgreeAt(u, v, d)
  }

  lemma NoOverlap(s: string, u: string, v: string, a: int, b: int)
    requires Disjoint(u, v) && Occurs(s, u, a) && Occurs(s, v, b)
    ensures a + |u| <= b || b + |v| <= a
  {
    if a + |u| > b && b + |v| > a {
      forall j | 0 <= j < |u| && 0 <= j - (b - a) < |v| ensures u[j] == v[j - (b - a)] {
        assert u[j] == s[a..a + |u|][j] == s[a + j];
        assert v[j - (b - a)] == s[b..b + |v|][j - (b - a)] == s[a + j];
      }
      assert AgreeAt(u, v, b - a);
    }
  }

  /**
   * Disjointness from the first characters: only the offsets where a first
   * character lines up with an equal character need a mismatch of their own.
   */
  lemma DisjointByAnchors(u: string, v: string)
    requires |u| > 0 && |v| > 0
    requires forall d :: 0 <= d < |u| && u[d] == v[0] ==> !AgreeAt(u, v, d)
    requires forall e :: 0 < e < |v| && v[e] == u[0] ==> !AgreeAt(u, v, -e)
    ensures Disjoint(u, v)
  {
    forall d | -|v| < d < |u| ensures !AgreeAt(u, v, d) {
      if d >= 0 {
        if u[d] != v[0] { assert u[d] != v[d - d]; }
      } else {
        if v[-d] != u[0] { assert u[0] != v[0 - d]; }
      }
    }
  }

  /** The replacement copies everything before the first place an occurrence starts. */
  lemma {:induction false} CopyPrefix(s: string, p: string, r: string, m: nat)
    requires |p| > 0 && m <= |s|
    requires forall j :: 0 <= j < m ==> !Occurs(s, p, j)
    ensures ReplaceAll(s, p, r) == s[..m] + ReplaceAll(s[m..], p, r)
    decreases m
  {
    if m > 0 && |s| >= |p| {
      assert !Occurs(s, p, 0);
      forall j | 0 <= j < m - 1 ensures !Occurs(s[1..], p, j) {
        if Occurs(s[1..], p, j) {
          SliceOfSlice(s, 1, |s|, j, j + |p|);
          assert Occurs(s, p, j + 1);
        }
      }
      CopyPrefix(s[1..], p, r, m - 1);
      assert s[1..][m - 1..] == s[m..];
      assert [s[0]] + s[1..][..m - 1] == s[..m];
    }
  }

  /** A string that starts with the pattern has it replaced first. */
  lemma ReplaceAtStart(u: string, p: string, r: string)
    requires |p| > 0 && |p| <= |u| && u[..|p|] == p
    ensures ReplaceAll(u, p, r) == r + ReplaceAll(u[|p|..], p, r)
  {
  }

  /** Replacing from an occurrence at `i` on: the replacement, then the rest replaced. */
  lemma ReplaceFrom(s: string, p: string, r: string, i: int)
    requires |p| > 0 && Occurs(s, p, i)
    ensures ReplaceAll(s[i..], p, r) == r + ReplaceAll(s[i + |p|..], p, r)
  {
    var u := s[i..];
    assert u[..|p|] == s[i..i + |p|];
    assert u[|p|..] == s[i + |p|..];
    ReplaceAtStart(u, p, r);
  }

  /** Replacing around a first occurrence at `i`: the text before it, the replacement, the rest replaced. */
  lemma DecomposeAt(s: string, p: string, r: string, i: int)
    requires |p| > 0 && Occurs(s, p, i)
    requires forall j :: 0 <= j < i ==> !Occurs(s, p, j)
    ensures ReplaceAll(s, p, r) == s[..i] + r + ReplaceAll(s[i + |p|..], p, r)
  {
    var rest := ReplaceAll(s[i + |p|..], p, r);
    CopyPrefix(s, p, r, i);
    ReplaceFrom(s, p, r, i);
    assert s[..i] + (r + rest) == s[..i] + r + rest;
  }

  /** Without an occurrence of the pattern the text is unchanged. */
  lemma NoMatch(s: string, p: string, r: string)
    requires |p| > 0 && forall j :: 0 <= j < |s| ==> !Occurs(s, p, j)
    ensures ReplaceAll(s, p, r) == s
  {
    CopyPrefix(s, p, r, |s|);
    assert s[..|s|] == s && s[|s|..] == [];
  }

  /** No occurrence of `p` starts inside a stretch free of `p`'s first character. */
  lemma NoStartIn(u: string, p: string, t: string)
    requires |p| > 0 && p[0] !in u
    ensures forall j :: 0 <= j < |u| ==> !Occurs(u + t, p, j)
  {
    forall j | 0 <= j < |u| ensures !Occurs(u + t, p, j) {
      if j + |p| <= |u + t| {
        assert (u + t)[j..j + |p|][0] == u[j] != p[0];
      }
    }
  }

  /** The first occurrence after a stretch free of `p`'s first character is the first replaced. */
  lemma ReplaceAfterFree(u: string, p: string, r: string, v: string)
    requires |p| > 0 && p[0] !in u
    ensures ReplaceAll(u + p + v, p, r) == u + r + ReplaceAll(v, p, r)
  {
    var w := u + p + v;
    assert w == u + (p + v);
    assert Occurs(w, p, |u|) by { assert w[|u|..|u| + |p|] == p; }
    NoStartIn(u, p, p + v);
    DecomposeAt(w, p, r, |u|);
    assert w[..|u|] == u && w[|u| + |p|..] == v;
  }

  /** A string that cannot overlap `q` cannot join two `q`-free strings into one holding `q`. */
  lemma SplitFree(x: string, r: string, y: string, q: string)
    requires !Contains(x, q) && !Contains(y, q) && Disjoint(r, q)
    ensures !Contains(x + r + y, q)
  {
    var t := x + r + y;
    if i :| 0 <= i <= |t| && Occurs(t, q, i) {
      assert t[|x|..|x| + |r|] == r;
      NoOverlap(t, r, q, |x|, i);
      if i + |q| <= |x| {
        assert t[i..i + |q|] == x[i..i + |q|];
        assert Occurs(x, q, i);
      } else {
        var k := i - |x| - |r|;
        assert t[i..i + |q|] == y[k..k + |q|];
        assert Occurs(y, q, k);
      }
    }
  }

  /**
   * One step of a replacement keeps `q` out: the text before the first match
   * has no `q`, and neither has the replaced rest, so neither has the result.
   */
  lemma AbsentStep(s: string, p: string, r: string, q: string, i: int)
    requires |p| > 0 && Disjoint(r, q) && Occurs(s, p, i)
    requires forall j :: 0 <= j < i ==> !Occurs(s, p, j)
    requires !Contains(s[..i], q) && !Contains(ReplaceAll(s[i + |p|..], p, r), q)
    ensures !Contains(ReplaceAll(s, p, r), q)
  {
    var x, rt := s[..i], ReplaceAll(s[i + |p|..], p, r);
    assert ReplaceAll(s, p, r) == x + r + rt by { DecomposeAt(s, p, r, i); }
    assert !Contains(x + r + rt, q) by { SplitFree(x, r, rt, q); }
  }


  /** No occurrence of the pattern survives, unless the replacement can overlap one. */
  lemma {:induction false} ReplaceEliminates(s: string, p: string, r: string)
    requires |p| > 0 && Disjoint(r, p)
    ensures !Contains(ReplaceAll(s, p, r), p)
    decreases |s|
  {
    var i := IndexOf(s, p);
    if i == -1 {
      assert ReplaceAll(s, p, r) == s by { NoMatch(s, p, r); }
    } else {
      ReplaceEliminates(s[i + |p|..], p, r);
      assert !Contains(s[..i], p) by {
        forall j | Occurs(s[..i], p, j) ensures Occurs(s, p, j) {
          SliceOfSlice(s, 0, i, j, j + |p|);
        }
      }
      AbsentStep(s, p, r, p, i);
    }
  }

  /** A string absent before stays absent, when the replacement cannot overlap it. */
  lemma {:induction false} ReplaceKeepsAbsent(s: string, p: string, r: string, q: string)
    requires |p| > 0 && Disjoint(r, q) && !Contains(s, q)
    ensures !Contains(ReplaceAll(s, p, r), q)
    decreases |s|
  {
    var i := IndexOf(s, p);
    if i == -1 {
      assert ReplaceAll(s, p, r) == s by { NoMatch(s, p, r); }
    } else {
      var tail := s[i + |p|..];
      assert !Contains(tail, q) by {
        SubFree(s, i + |p|, |s|, q);
        assert s[i + |p|..|s|] == tail;
      }
      ReplaceKeepsAbsent(tail, p, r, q);
      assert !Contains(s[..i], q) by {
        SubFree(s, 0, i, q);
        assert s[0..i] == s[..i];
      }
      AbsentStep(s, p, r, q, i);
    }
  }

  /** When the pattern occurs, the replacement text appears in the result. */
  lemma ReplaceIntroduces(s: string, p: string, r: string)
    requires |p| > 0 && Contains(s, p)
    ensures Contains(ReplaceAll(s, p, r), r)
  {
    var i := IndexOf(s, p);
    var t := ReplaceAll(s, p, r);
    assert t == s[..i] + r + ReplaceAll(s[i + |p|..], p, r) by { DecomposeAt(s, p, r, i); }
    assert t[i..i + |r|] == r;
    assert Occurs(t, r, i);
  }

  /** An occurrence of `t` that no occurrence of the pattern can overlap is kept. */
  lemma {:induction false} ReplaceKeepsPresent(s: string, p: string, r: string, t: string)
    requires |p| > 0 && Disjoint(t, p) && Contains(s, t)
    ensures Contains(ReplaceAll(s, p, r), t)
  {
    var a :| 0 <= a <= |s| && Occurs(s, t, a);
    KeepsOccurrence(s, p, r, t, a);
  }

  /** An occurrence ending by position `i` of `s` survives replacing everything from `i` on. */
  lemma OccursBefore(s: string, i: int, rest: string, t: string, a: int)
    requires Occurs(s, t, a) && a + |t| <= i <= |s|
    ensures Occurs(s[..i] + rest, t, a)
  {
    OccursSub(s, 0, i, t, a);
    assert s[0..i] == s[..i];
    OccursInPrefix(s[..i], rest, t, a);
  }

  /** An occurrence before the first occurrence of the pattern is copied unchanged. */
  lemma KeptBeforePattern(s: string, p: string, r: string, t: string, a: int)
    requires |p| > 0 && IndexOf(s, p) >= 0 && Occurs(s, t, a) && a + |t| <= IndexOf(s, p)
    ensures Contains(ReplaceAll(s, p, r), t)
  {
    var i := IndexOf(s, p);
    var rest := r + ReplaceAll(s[i + |p|..], p, r);
    assert ReplaceAll(s, p, r) == s[..i] + rest by {
      DecomposeAt(s, p, r, i);
      assert s[..i] + r + ReplaceAll(s[i + |p|..], p, r) == s[..i] + rest;
    }
    OccursBefore(s, i, rest, t, a);
    assert Occurs(ReplaceAll(s, p, r), t, a);
  }

  /** Whatever the replaced remainder after the first match holds, the whole replaced string holds. */
  lemma KeptAfterPattern(s: string, p: string, r: string, t: string)
    requires |p| > 0 && IndexOf(s, p) >= 0
    requires Contains(ReplaceAll(s[IndexOf(s, p) + |p|..], p, r), t)
    ensures Contains(ReplaceAll(s, p, r), t)
  {
    var i := IndexOf(s, p);
    var x, rt := s[..i] + r, ReplaceAll(s[i + |p|..], p, r);
    assert ReplaceAll(s, p, r) == x + rt + "" by {
      DecomposeAt(s, p, r, i);
      assert x + rt + "" == s[..i] + r + rt;
    }
    assert Contains(x + rt + "", t) by { ContainsInConcat(x, rt, "", t); }
  }

  lemma {:induction false} KeepsOccurrence(s: string, p: string, r: string, t: string, a: int)
    requires |p| > 0 && Disjoint(t, p) && Occurs(s, t, a)
    ensures Contains(ReplaceAll(s, p, r), t)
    decreases |s|
  {
    var i := IndexOf(s, p);
    if i == -1 {
      assert ReplaceAll(s, p, r) == s by { NoMatch(s, p, r); }
      assert Occurs(ReplaceAll(s, p, r), t, a);
    } else {
      NoOverlap(s, t, p, a, i);
      if a + |t| <= i {
        KeptBeforePattern(s, p, r, t, a);
      } else {
        var tail := s[i + |p|..];
        assert Occurs(tail, t, a - i - |p|) by {
          OccursSub(s, i + |p|, |s|, t, a);
          assert s[i + |p|..|s|] == tail;
        }
        KeepsOccurrence(tail, p, r, t, a - i - |p|);
        KeptAfterPattern(s, p, r, t);
      }
    }
  }
}
