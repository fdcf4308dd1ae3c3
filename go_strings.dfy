/**
  Go's `strings.Replace(s, old, new, -1)` for a non-empty `old`, which the
  generator uses to substitute placeholders: it replaces every leftmost,
  non-overlapping occurrence while scanning left to right. Strings are
  sequences of characters. The prefix, suffix and substring predicates are
  the vocabulary its properties are stated in; the generator itself does
  not call them.
 */
module GoStrings {

  /** `t` is a prefix of `s`. */
  predicate HasPrefix(s: string, t: string) {
    |t| <= |s| && s[..|t|] == t
  }

  /** `t` is a suffix of `s`. */
  predicate HasSuffix(s: string, t: string) {
    |t| <= |s| && s[|s| - |t|..] == t
  }

  /** `t` occurs somewhere in `s`. */
  predicate Contains(s: string, t: string)
    decreases |s|
  {
    HasPrefix(s, t) || (s != [] && Contains(s[1..], t))
  }

  /**
    `strings.Replace(s, pat, rep, -1)`: scanning from the left, every
    occurrence of `pat` that does not overlap an earlier replaced one is
    replaced by `rep`; everything else is copied.
   */
  function ReplaceAll(s: string, pat: string, rep: string): (r: string)
    requires pat != []
    decreases |s|
  {
    if HasPrefix(s, pat) then rep + ReplaceAll(s[|pat|..], pat, rep)
    else if s == [] then []
    else [s[0]] + ReplaceAll(s[1..], pat, rep)
  }

  // ---------------------------------------------------------------------
  // Facts about Contains
  // ---------------------------------------------------------------------

  /** An occurrence in `b` is an occurrence in `a + b`. */
  lemma {:induction false} ContainsInRight(a: string, b: string, t: string)
    requires Contains(b, t)
    ensures Contains(a + b, t)
    decreases |a|
  {
    if a != [] {
      assert (a + b)[1..] == a[1..] + b;
      ContainsInRight(a[1..], b, t);
    } else {
      assert a + b == b;
    }
  }

  /** An occurrence in `a` is an occurrence in `a + b`. */
  lemma {:induction false} ContainsInLeft(a: string, b: string, t: string)
    requires Contains(a, t)
    ensures Contains(a + b, t)
    decreases |a|
  {
    if HasPrefix(a, t) {
      assert (a + b)[..|t|] == a[..|t|];
    } else {
      assert (a + b)[1..] == a[1..] + b;
      ContainsInLeft(a[1..], b, t);
    }
  }

  /** Implication form of `ContainsInRight`, usable where the occurrence is only hypothetical. */
  lemma ContainsInRightIf(a: string, b: string, t: string)
    ensures Contains(b, t) ==> Contains(a + b, t)
  {
    if Contains(b, t) {
      ContainsInRight(a, b, t);
    }
  }

  /** `t` occurs in `x + t + z`. */
  lemma ContainsInfix(x: string, t: string, z: string)
    ensures Contains(x + t + z, t)
  {
    assert HasPrefix(t + z, t);
    assert x + t + z == x + (t + z);
    ContainsInRight(x, t + z, t);
  }

  /** Every occurrence of `t` in `s` splits `s` around it. */
  lemma {:induction false} ContainsSplit(s: string, t: string) returns (x: string, z: string)
    requires Contains(s, t)
    ensures s == x + t + z
    decreases |s|
  {
    if HasPrefix(s, t) {
      x, z := [], s[|t|..];
      assert s == s[..|t|] + s[|t|..];
    } else {
      var x', z' := ContainsSplit(s[1..], t);
      x, z := [s[0]] + x', z';
      assert s == [s[0]] + s[1..];
    }
  }

  /** An occurrence of `t` in `u + v` whose first character is absent from `u` lies in `v`. */
  lemma {:induction false} ContainsSkipsHead(u: string, v: string, t: string)
    requires t != [] && t[0] !in u
    ensures Contains(u + v, t) ==> Contains(v, t)
    decreases |u|
  {
    if u == [] {
      assert u + v == v;
    } else {
      if |t| <= |u + v| {
        assert (u + v)[..|t|][0] == u[0];
      }
      assert (u + v)[1..] == u[1..] + v;
      ContainsSkipsHead(u[1..], v, t);
    }
  }

  /** A string lacking the last character of a non-empty `t` does not contain `t`. */
  lemma {:induction false} NotContainsWithoutLast(s: string, t: string)
    requires t != [] && t[|t| - 1] !in s
    ensures !Contains(s, t)
    decreases |s|
  {
    if |t| <= |s| {
      assert s[..|t|][|t| - 1] in s;
    }
    if s != [] {
      NotContainsWithoutLast(s[1..], t);
    }
  }

  /** An occurrence of `t` in `u + v` whose last character is absent from `v` lies in `u`. */
  lemma {:induction false} ContainsSkipsTail(u: string, v: string, t: string)
    requires t != [] && t[|t| - 1] !in v
    ensures Contains(u + v, t) ==> Contains(u, t)
    decreases |u|
  {
    if u == [] {
      assert u + v == v;
      NotContainsWithoutLast(v, t);
    } else {
      if |u| < |t| <= |u + v| {
        assert (u + v)[..|t|][|t| - 1] == v[|t| - 1 - |u|];
      }
      if |t| <= |u| {
        assert u[..|t|] == (u + v)[..|t|];
      }
      assert (u + v)[1..] == u[1..] + v;
      ContainsSkipsTail(u[1..], v, t);
    }
  }

  // ---------------------------------------------------------------------
  // Facts about ReplaceAll
  // ---------------------------------------------------------------------

  /** A prefix free of the pattern's first character is copied unchanged. */
  lemma {:induction false} ReplaceKeepsPrefix(w: string, z: string, pat: string, rep: string)
    requires pat != [] && pat[0] !in w
    ensures ReplaceAll(w + z, pat, rep) == w + ReplaceAll(z, pat, rep)
    decreases |w|
  {
    if w == [] {
      assert w + z == z;
    } else {
      var s := w + z;
      assert s[0] == w[0];
      if |pat| <= |s| {
        assert s[..|pat|][0] == w[0];
      }
      assert !HasPrefix(s, pat);
      assert ReplaceAll(s, pat, rep) == [w[0]] + ReplaceAll(s[1..], pat, rep);
      assert s[1..] == w[1..] + z;
      ReplaceKeepsPrefix(w[1..], z, pat, rep);
      assert [w[0]] + w[1..] == w;
    }
  }

  /** Without an occurrence of the pattern, nothing is replaced. */
  lemma {:induction false} ReplaceWithoutOccurrence(s: string, pat: string, rep: string)
    requires pat != [] && !Contains(s, pat)
    ensures ReplaceAll(s, pat, rep) == s
    decreases |s|
  {
    if s != [] {
      ReplaceWithoutOccurrence(s[1..], pat, rep);
    }
  }

  /** A suffix free of the pattern's last character is copied unchanged. */
  lemma {:induction false} ReplaceKeepsSuffix(a: string, b: string, pat: string, rep: string)
    requires pat != [] && pat[|pat| - 1] !in b
    ensures ReplaceAll(a + b, pat, rep) == ReplaceAll(a, pat, rep) + b
    decreases |a|
  {
    if a == [] {
      assert a + b == b;
      NotContainsWithoutLast(b, pat);
      ReplaceWithoutOccurrence(b, pat, rep);
    } else if |pat| <= |a| {
      assert a[..|pat|] == (a + b)[..|pat|];
      assert (a + b)[|pat|..] == a[|pat|..] + b;
      assert (a + b)[1..] == a[1..] + b;
      ReplaceKeepsSuffix(a[|pat|..], b, pat, rep);
      ReplaceKeepsSuffix(a[1..], b, pat, rep);
    } else {
      if |pat| <= |a + b| {
        assert (a + b)[..|pat|][|pat| - 1] == b[|pat| - 1 - |a|];
      }
      assert !HasPrefix(a + b, pat);
      assert (a + b)[1..] == a[1..] + b;
      ReplaceKeepsSuffix(a[1..], b, pat, rep);
    }
  }

  /**
    When the pattern's first character occurs nowhere else in it, no
    occurrence can straddle a boundary placed just before that character,
    so the replacement distributes over the two sides.
   */
  lemma {:induction false} ReplaceSplitsBeforeHead(x: string, y: string, pat: string, rep: string)
    requires pat != [] && pat[0] !in pat[1..]
    requires y != [] && y[0] == pat[0]
    ensures ReplaceAll(x + y, pat, rep) == ReplaceAll(x, pat, rep) + ReplaceAll(y, pat, rep)
    decreases |x|
  {
    var s := x + y;
    if x == [] {
      assert s == y;
    } else {
      if |x| < |pat| <= |s| {
        assert s[..|pat|][|x|] == y[0];
        assert pat[|x|] == pat[1..][|x| - 1];
      }
      if |pat| <= |x| {
        assert x[..|pat|] == s[..|pat|];
      }
      if HasPrefix(s, pat) {
        assert s[|pat|..] == x[|pat|..] + y;
        ReplaceSplitsBeforeHead(x[|pat|..], y, pat, rep);
      } else {
        assert s[1..] == x[1..] + y;
        ReplaceSplitsBeforeHead(x[1..], y, pat, rep);
      }
    }
  }

  /**
    If the result starts with text `w` that lacks the first character of
    the replacement, then no replacement was made in that stretch and the
    input starts with `w` too.
   */
  lemma {:induction false} ReplacePrefixOrigin(t: string, w: string, pat: string, rep: string)
    requires pat != [] && rep != [] && rep[0] !in w
    ensures HasPrefix(ReplaceAll(t, pat, rep), w) ==> HasPrefix(t, w)
    decreases |t|
  {
    var r := ReplaceAll(t, pat, rep);
    if w != [] && t != [] {
      if HasPrefix(t, pat) {
        assert r[0] == rep[0];
        assert |w| <= |r| ==> r[..|w|][0] == rep[0];
      } else {
        var r' := ReplaceAll(t[1..], pat, rep);
        assert r == [t[0]] + r';
        ReplacePrefixOrigin(t[1..], w[1..], pat, rep);
        if |w| <= |r| {
          assert r'[..|w| - 1] == r[1..|w|];
          assert r[..|w|] == [t[0]] + r[1..|w|];
        }
        if |w| <= |t| {
          assert t[..|w|] == [t[0]] + t[1..][..|w| - 1];
        }
      }
    }
  }

  /**
    After `ReplaceAll` no occurrence of the pattern is left, provided the
    replacement cannot start one and the pattern cannot run into a
    replacement.
   */
  lemma {:induction false} ReplaceLeavesNoOccurrence(s: string, pat: string, rep: string)
    requires pat != [] && rep != []
    requires pat[0] !in rep && rep[0] !in pat
    ensures !Contains(ReplaceAll(s, pat, rep), pat)
    decreases |s|
  {
    var r := ReplaceAll(s, pat, rep);
    if HasPrefix(s, pat) {
      var rest := ReplaceAll(s[|pat|..], pat, rep);
      ReplaceLeavesNoOccurrence(s[|pat|..], pat, rep);
      ContainsSkipsHead(rep, rest, pat);
    } else if s != [] {
      var rest := ReplaceAll(s[1..], pat, rep);
      assert r == [s[0]] + rest;
      ReplaceLeavesNoOccurrence(s[1..], pat, rep);
      ReplacePrefixOrigin(s[1..], pat[1..], pat, rep);
      if |pat| <= |r| {
        assert r[..|pat|] == [s[0]] + rest[..|pat| - 1];
      }
      if |pat| <= |s| {
        assert s[..|pat|] == [s[0]] + s[1..][..|pat| - 1];
      }
      assert !HasPrefix(r, pat);
      assert r[1..] == rest;
    }
  }

  /**
    `ReplaceAll` creates no new occurrence of a string `t` that the
    replacement cannot start and that cannot run into a replacement.
   */
  lemma {:induction false} ReplaceCreatesNoOccurrence(s: string, pat: string, rep: string, t: string)
    requires pat != [] && rep != [] && t != []
    requires t[0] !in rep && rep[0] !in t
    requires !Contains(s, t)
    ensures !Contains(ReplaceAll(s, pat, rep), t)
    decreases |s|
  {
    var r := ReplaceAll(s, pat, rep);
    if HasPrefix(s, pat) {
      var rest := ReplaceAll(s[|pat|..], pat, rep);
      assert s == s[..|pat|] + s[|pat|..];
      ContainsInRightIf(s[..|pat|], s[|pat|..], t);
      ReplaceCreatesNoOccurrence(s[|pat|..], pat, rep, t);
      ContainsSkipsHead(rep, rest, t);
    } else if s != [] {
      var rest := ReplaceAll(s[1..], pat, rep);
      assert r == [s[0]] + rest;
      ReplaceCreatesNoOccurrence(s[1..], pat, rep, t);
      ReplacePrefixOrigin(s[1..], t[1..], pat, rep);
      if |t| <= |r| {
        assert r[..|t|] == [s[0]] + rest[..|t| - 1];
      }
      if |t| <= |s| {
        assert s[..|t|] == [s[0]] + s[1..][..|t| - 1];
      }
      assert !HasPrefix(r, t);
      assert r[1..] == rest;
    }
  }

  /**
    An occurrence of `t` survives the replacement when `t` starts with the
    pattern's first character, holds it nowhere else, and the pattern is not
    found at its start.
   */
  lemma ReplaceKeepsOccurrence(x: string, t: string, z: string, pat: string, rep: string)
    requires pat != [] && pat[0] !in pat[1..]
    requires t != [] && t[0] == pat[0] && pat[0] !in t[1..]
    requires !HasPrefix(t + z, pat)
    ensures ReplaceAll(x + t + z, pat, rep) == ReplaceAll(x, pat, rep) + t + ReplaceAll(z, pat, rep)
  {
    assert x + t + z == x + (t + z);
    ReplaceSplitsBeforeHead(x, t + z, pat, rep);
    assert (t + z)[1..] == t[1..] + z;
    ReplaceKeepsPrefix(t[1..], z, pat, rep);
    assert t == [t[0]] + t[1..];
  }
}
