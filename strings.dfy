/** The handful of Python string operations the crawler relies on. */
module Strings {

  /** Python's `str.isspace`, the class matched both by `\s` in a str pattern
      and by `str.strip()` without arguments. */
  predicate IsSpace(c: char)
  {
    var n := c as int;
    (0x09 <= n <= 0x0D) || (0x1C <= n <= 0x20) || n == 0x85 || n == 0xA0 || n == 0x1680
    || (0x2000 <= n <= 0x200A) || n == 0x2028 || n == 0x2029 || n == 0x202F
    || n == 0x205F || n == 0x3000
  }

  predicate StartsWith(s: string, prefix: string)
  {
    |prefix| <= |s| && s[..|prefix|] == prefix
  }

  /** Python's `s.endswith(suffix)`. */
  predicate EndsWith(s: string, suffix: string)
  {
    |suffix| <= |s| && s[|s| - |suffix|..] == suffix
  }

  /** Python's `sub in s` on strings: `sub` occurs somewhere in `s` as a contiguous piece. */
  predicate Contains(s: string, sub: string)
    decreases |s|
  {
    StartsWith(s, sub) || (|s| > 0 && Contains(s[1..], sub))
  }

  /** Python's `s.split(c)[-1]`: the text after the last `c`, or all of `s` when `c` does not occur. */
  function AfterLast(s: string, c: char): string
    decreases |s|
  {
    if s == [] then []
    else if s[|s| - 1] == c then []
    else AfterLast(s[..|s| - 1], c) + [s[|s| - 1]]
  }

  /** `AfterLast(s, c)` is the longest suffix of `s` without `c`: it is all of `s`,
      or a `c` comes right before it. */
  lemma {:induction false} AfterLastIsSuffix(s: string, c: char)
    ensures |AfterLast(s, c)| <= |s| && AfterLast(s, c) == s[|s| - |AfterLast(s, c)|..]
    ensures c !in AfterLast(s, c)
    ensures |AfterLast(s, c)| < |s| ==> s[|s| - |AfterLast(s, c)| - 1] == c
    decreases |s|
  {
    if s == [] {
    } else if s[|s| - 1] == c {
      assert AfterLast(s, c) == [];
    } else {
      var init, x := s[..|s| - 1], s[|s| - 1];
      AfterLastIsSuffix(init, c);
      var r := AfterLast(init, c);
      var k := |init| - |r|;
      assert AfterLast(s, c) == r + [x];
      assert |AfterLast(s, c)| == |r| + 1;
      assert s == init + [x];
      assert s[k..] == init[k..] + [x];
      assert c !in r + [x];
      if |r| < |init| {
        assert init[k - 1] == c;
        assert s[k - 1] == init[k - 1];
        assert |s| - |AfterLast(s, c)| - 1 == k - 1;
      }
    }
  }

  /** Python's `s.split(c)[0]`: the text before the first `c`, or all of `s` when `c` does not occur. */
  function BeforeFirst(s: string, c: char): (r: string)
    ensures |r| <= |s| && r == s[..|r|]
    ensures c !in r
    ensures |r| < |s| ==> s[|r|] == c
  {
    if s == [] then []
    else if s[0] == c then []
    else [s[0]] + BeforeFirst(s[1..], c)
  }

  /** Splitting at the separator that ends `a` gives back what follows it. */
  lemma {:induction false} AfterLastOfJoin(a: string, c: char, b: string)
    requires c !in b
    ensures AfterLast(a + [c] + b, c) == b
    decreases |b|
  {
    var s := a + [c] + b;
    if b == [] {
      assert s[|s| - 1] == c;
    } else {
      assert b[|b| - 1] in b;
      assert s[|s| - 1] == b[|b| - 1];
      assert s[..|s| - 1] == a + [c] + b[..|b| - 1];
      AfterLastOfJoin(a, c, b[..|b| - 1]);
      assert b[..|b| - 1] + [b[|b| - 1]] == b;
    }
  }

  /** Cutting at the separator that follows `a` gives back `a`. */
  lemma BeforeFirstOfJoin(a: string, c: char, b: string)
    requires c !in a
    ensures BeforeFirst(a + [c] + b, c) == a
  {
    var s := a + [c] + b;
    assert s[|a|] == c;
    assert s[..|a|] == a;
  }

  /** Python's `s.lstrip(...)`: drops the leading characters that satisfy `drop`. */
  function TrimLeft(s: string, drop: char -> bool): (r: string)
    ensures |r| <= |s| && r == s[|s| - |r|..]
    ensures r == [] || !drop(r[0])
    ensures forall i :: 0 <= i < |s| - |r| ==> drop(s[i])
  {
    if s == [] || !drop(s[0]) then s else TrimLeft(s[1..], drop)
  }

  /** Python's `s.rstrip(...)`: drops the trailing characters that satisfy `drop`. */
  function TrimRight(s: string, drop: char -> bool): (r: string)
    ensures |r| <= |s| && r == s[..|r|]
    ensures r == [] || !drop(r[|r| - 1])
    ensures forall i :: |r| <= i < |s| ==> drop(s[i])
  {
    if s == [] || !drop(s[|s| - 1]) then s else TrimRight(s[..|s| - 1], drop)
  }

  /** `lstrip` stops inside `a` when `a` ends with a kept character. */
  lemma {:induction false} TrimLeftAppend(a: string, t: string, drop: char -> bool)
    requires a != [] && !drop(a[|a| - 1])
    ensures TrimLeft(a + t, drop) == TrimLeft(a, drop) + t
    decreases |a|
  {
    assert (a + t)[0] == a[0];
    if drop(a[0]) {
      assert (a + t)[1..] == a[1..] + t;
      TrimLeftAppend(a[1..], t, drop);
    }
  }

  /** `lstrip` removes a run of strippable characters up to the first kept one. */
  lemma {:induction false} TrimLeftPast(w: string, b: string, drop: char -> bool)
    requires forall k :: 0 <= k < |w| ==> drop(w[k])
    requires b == [] || !drop(b[0])
    ensures TrimLeft(w + b, drop) == b
    decreases |w|
  {
    if w == [] {
      assert w + b == b;
    } else {
      assert (w + b)[0] == w[0];
      assert (w + b)[1..] == w[1..] + b;
      TrimLeftPast(w[1..], b, drop);
    }
  }

  /** A string with nothing to trim at either end is left alone. */
  lemma TrimUnchanged(s: string, drop: char -> bool)
    requires s != [] && !drop(s[0]) && !drop(s[|s| - 1])
    ensures Trim(s, drop) == s
  {
    assert TrimLeft(s, drop) == s;
  }

  /** Python's `s.strip(...)`: `s` without its leading and trailing characters
      that satisfy `drop`. */
  function Trim(s: string, drop: char -> bool): (r: string)
    ensures r == [] || (!drop(r[0]) && !drop(r[|r| - 1]))
  {
    TrimRight(TrimLeft(s, drop), drop)
  }
}
