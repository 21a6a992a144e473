/**
 * The string primitives the generator relies on, stated for `seq<char>`:
 * whitespace tests, TrimStart/TrimEnd/Trim, ordinal StartsWith, substring
 * occurrence, and string.Join / string.Split over one separator character.
 */
module Text {

  /** The whitespace characters recognised by the model (the ASCII subset of char.IsWhiteSpace). */
  predicate IsWhiteSpace(c: char)
  {
    c == ' ' || c == '\t' || c == '\n' || c == '\r' || c == '\U{000B}' || c == '\U{000C}'
  }

  /** string.IsNullOrWhiteSpace for a non-null string: empty, or whitespace only. */
  predicate IsBlank(s: string)
  {
    forall i :: 0 <= i < |s| ==> IsWhiteSpace(s[i])
  }

  /** Removes the longest whitespace prefix. */
  function TrimStart(s: string): string
  {
    if s != [] && IsWhiteSpace(s[0]) then TrimStart(s[1..]) else s
  }

  /** Removes the longest whitespace suffix. */
  function TrimEnd(s: string): string
  {
    if s != [] && IsWhiteSpace(s[|s| - 1]) then TrimEnd(s[..|s| - 1]) else s
  }

  /** TrimStart leaves a suffix that starts with a non-whitespace character, having removed only whitespace. */
  lemma {:induction false} TrimStartSpec(s: string)
    ensures var r := TrimStart(s); |r| <= |s| && r == s[|s| - |r|..]
    ensures var r := TrimStart(s); r == [] || !IsWhiteSpace(r[0])
    ensures var r := TrimStart(s); forall i :: 0 <= i < |s| - |r| ==> IsWhiteSpace(s[i])
  {
    if s != [] && IsWhiteSpace(s[0]) {
      TrimStartSpec(s[1..]);
    }
  }

  /** TrimEnd leaves a prefix that ends with a non-whitespace character, having removed only whitespace. */
  lemma {:induction false} TrimEndSpec(s: string)
    ensures var r := TrimEnd(s); |r| <= |s| && r == s[..|r|]
    ensures var r := TrimEnd(s); r == [] || !IsWhiteSpace(r[|r| - 1])
    ensures var r := TrimEnd(s); forall i :: |r| <= i < |s| ==> IsWhiteSpace(s[i])
  {
    if s != [] && IsWhiteSpace(s[|s| - 1]) {
      TrimEndSpec(s[..|s| - 1]);
    }
  }

  /** Removes whitespace at both ends. */
  function Trim(s: string): string
  {
    TrimEnd(TrimStart(s))
  }

  /** The trimmed text sits at some offset `a` of `s`, framed by whitespace, and has no whitespace at its ends. */
  lemma TrimSpec(s: string)
    ensures var r := Trim(s);
      exists a :: 0 <= a && a + |r| <= |s| && r == s[a..a + |r|] && IsBlank(s[..a]) && IsBlank(s[a + |r|..])
    ensures var r := Trim(s); r == [] || (!IsWhiteSpace(r[0]) && !IsWhiteSpace(r[|r| - 1]))
  {
    var t := TrimStart(s);
    var r := TrimEnd(t);
    TrimStartSpec(s);
    TrimEndSpec(t);
    var a := |s| - |t|;
    assert r == s[a..a + |r|];
    var before, after := s[..a], s[a + |r|..];
    assert IsBlank(before);
    assert IsBlank(after) by {
      forall i | 0 <= i < |after| ensures IsWhiteSpace(after[i]) {
        assert after[i] == t[|r| + i];
      }
    }
  }

  /** String.StartsWith, compared ordinally (the culture-sensitive comparison is not modelled). */
  predicate StartsWith(s: string, prefix: string)
  {
    |prefix| <= |s| && s[..|prefix|] == prefix
  }

  /** Ordinal String.EndsWith. */
  predicate EndsWith(s: string, suffix: string)
  {
    |suffix| <= |s| && s[|s| - |suffix|..] == suffix
  }

  /** `q` occurs in `t` at position `i`. */
  predicate Occurs(t: string, q: string, i: int)
  {
    0 <= i && i + |q| <= |t| && t[i..i + |q|] == q
  }

  /** Ordinal String.Contains. */
  predicate Contains(t: string, q: string)
  {
    exists i :: 0 <= i <= |t| && Occurs(t, q, i)
  }

  lemma SliceOfSlice(s: string, a: int, b: int, i: int, j: int)
    requires 0 <= a <= b <= |s| && 0 <= i <= j <= b - a
    ensures s[a..b][i..j] == s[a + i..a + j]
  {
    assert |s[a..b][i..j]| == j - i;
    forall k | 0 <= k < j - i ensures s[a..b][i..j][k] == s[a + i..a + j][k] { }
  }

  /** An occurrence inside `y` is an occurrence inside `x + y + z`, shifted by `|x|`. */
  lemma OccursShift(x: string, y: string, z: string, t: string, m: int)
    requires Occurs(y, t, m)
    ensures Occurs(x + y + z, t, |x| + m)
  {
    var w := x + y + z;
    assert w[|x|..|x| + |y|] == y;
    SliceOfSlice(w, |x|, |x| + |y|, m, m + |t|);
  }

  /** An occurrence in `x` is one in every extension of `x`. */
  lemma OccursInPrefix(x: string, y: string, t: string, a: int)
    requires Occurs(x, t, a)
    ensures Occurs(x + y, t, a)
  {
    assert (x + y)[a..a + |t|] == x[a..a + |t|];
  }

  /** An occurrence that lies within `s[a..b]` is an occurrence of that slice. */
  lemma OccursSub(s: string, a: int, b: int, t: string, m: int)
    requires Occurs(s, t, m) && 0 <= a <= m && m + |t| <= b <= |s|
    ensures Occurs(s[a..b], t, m - a)
  {
    SliceOfSlice(s, a, b, m - a, m - a + |t|);
  }

  /** A slice of a string without `q` has no `q` either. */
  lemma SubFree(s: string, a: int, b: int, q: string)
    requires 0 <= a <= b <= |s| && !Contains(s, q)
    ensures !Contains(s[a..b], q)
  {
    forall i | Occurs(s[a..b], q, i) ensures Occurs(s, q, a + i) {
      SliceOfSlice(s, a, b, i, i + |q|);
    }
  }

  lemma ContainsInConcat(x: string, y: string, z: string, t: string)
    requires Contains(y, t)
    ensures Contains(x + y + z, t)
  {
    var m :| 0 <= m <= |y| && Occurs(y, t, m);
    OccursShift(x, y, z, t, m);
  }

  /** Containment is transitive: a string holding `u` holds everything `u` holds. */
  lemma ContainsTrans(s: string, u: string, t: string)
    requires Contains(s, u) && Contains(u, t)
    ensures Contains(s, t)
  {
    var a :| 0 <= a <= |s| && Occurs(s, u, a);
    var m :| 0 <= m <= |u| && Occurs(u, t, m);
    SliceOfSlice(s, a, a + |u|, m, m + |t|);
    assert Occurs(s, t, a + m);
  }

  /** string.Join with a one-character separator. */
  function Join(sep: char, xs: seq<string>): string
  {
    if xs == [] then ""
    else if |xs| == 1 then xs[0]
    else xs[0] + [sep] + Join(sep, xs[1..])
  }

  /** Every joined element occurs in the result. */
  lemma {:induction false} JoinContains(sep: char, xs: seq<string>, i: int)
    requires 0 <= i < |xs|
    ensures Contains(Join(sep, xs), xs[i])
  {
    if |xs| == 1 {
      assert Occurs(xs[0], xs[0], 0);
    } else if i == 0 {
      assert Occurs(Join(sep, xs), xs[0], 0);
    } else {
      JoinContains(sep, xs[1..], i - 1);
      ContainsInConcat(xs[0] + [sep], Join(sep, xs[1..]), "", xs[i]);
      assert xs[0] + [sep] + Join(sep, xs[1..]) + "" == Join(sep, xs);
    }
  }

  /** String.Split(char): the pieces between separators, empty pieces included. */
  function Split(s: string, sep: char): (pieces: seq<string>)
    ensures |pieces| > 0
  {
    if s == [] then [""]
    else if s[0] == sep then [""] + Split(s[1..], sep)
    else
      var rest := Split(s[1..], sep);
      [[s[0]] + rest[0]] + rest[1..]
  }

  /** Splitting `x + [sep] + y`, where `x` has no separator, yields `x` followed by the pieces of `y`. */
  lemma {:induction false} SplitAfterPiece(x: string, sep: char, y: string)
    requires sep !in x
    ensures Split(x + [sep] + y, sep) == [x] + Split(y, sep)
  {
    if x != [] {
      SplitAfterPiece(x[1..], sep, y);
      assert (x + [sep] + y)[1..] == x[1..] + [sep] + y;
      assert [x[0]] + x[1..] == x;
    } else {
      assert x + [sep] + y == [sep] + y;
      assert ([sep] + y)[1..] == y;
    }
  }

  /** A separator-free string is one piece. */
  lemma {:induction false} SplitNoSeparator(x: string, sep: char)
    requires sep !in x
    ensures Split(x, sep) == [x]
  {
    if x != [] {
      SplitNoSeparator(x[1..], sep);
      assert [x[0]] + x[1..] == x;
    }
  }

  /** Split inverts Join when no element holds the separator. */
  lemma {:induction false} SplitJoin(xs: seq<string>, sep: char)
    requires xs != []
    requires forall k :: 0 <= k < |xs| ==> sep !in xs[k]
    ensures Split(Join(sep, xs), sep) == xs
  {
    if |xs| == 1 {
      SplitNoSeparator(xs[0], sep);
    } else {
      SplitJoin(xs[1..], sep);
      SplitAfterPiece(xs[0], sep, Join(sep, xs[1..]));
      assert [xs[0]] + xs[1..] == xs;
    }
  }

  /** Joining gives the empty string exactly when there is nothing to join, or one empty piece. */
  lemma JoinEmpty(sep: char, xs: seq<string>)
    ensures Join(sep, xs) == "" <==> xs == [] || xs == [""]
  {
    if |xs| > 1 {
      assert |Join(sep, xs)| >= 1;
    }
  }
}
