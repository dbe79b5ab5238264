/** `sanitize_filename`: turns an article title into a usable file or directory name. */
module Sanitize {
  import opened Strings
  import opened Sequences

  /** Names are cut to this many characters. */
  const MaxLength := 180

  /** The nine characters of the pattern `[<>:"/\\|?*]`. */
  predicate IsReserved(c: char)
  {
    c == '<' || c == '>' || c == ':' || c == '"' || c == '/' || c == '\\' || c == '|' || c == '?' || c == '*'
  }

  /** The non-whitespace characters of `s`, in order. */
  function Visible(s: string): string
  {
    if s == [] then []
    else (if IsSpace(s[0]) then [] else [s[0]]) + Visible(s[1..])
  }

  lemma {:induction false} VisibleAppend(a: string, b: string)
    ensures Visible(a + b) == Visible(a) + Visible(b)
  {
    if a != [] {
      assert (a + b)[0] == a[0];
      assert (a + b)[1..] == a[1..] + b;
      VisibleAppend(a[1..], b);
    } else {
      assert a + b == b;
    }
  }

  /** The visible text holds no whitespace, and only characters of the original. */
  lemma {:induction false} VisibleFrom(s: string, c: char)
    requires c in Visible(s)
    ensures c in s && !IsSpace(c)
  {
    if s != [] && (IsSpace(s[0]) || c != s[0]) {
      VisibleFrom(s[1..], c);
    }
  }

  lemma {:induction false} VisibleChar(s: string, c: char)
    requires c in s && !IsSpace(c)
    ensures c in Visible(s)
  {
    if c != s[0] {
      VisibleChar(s[1..], c);
    }
  }

  /** Leading whitespace does not change the visible text. */
  lemma {:induction false} VisibleOfSpaces(a: string, b: string)
    requires forall i :: 0 <= i < |a| ==> IsSpace(a[i])
    ensures Visible(a + b) == Visible(b)
  {
    if a != [] {
      assert (a + b)[0] == a[0];
      assert (a + b)[1..] == a[1..] + b;
      VisibleOfSpaces(a[1..], b);
    } else {
      assert a + b == b;
    }
  }

  /** `re.sub(r'[<>:"/\\|?*]', '_', s)`: each reserved character becomes `_`. */
  function ReplaceReserved(s: string): (r: string)
    ensures |r| == |s|
    ensures forall i :: 0 <= i < |s| ==> r[i] == (if IsReserved(s[i]) then '_' else s[i])
  {
    if s == [] then []
    else [if IsReserved(s[0]) then '_' else s[0]] + ReplaceReserved(s[1..])
  }

  /** `re.sub(r'\s+', ' ', s)`: each maximal run of whitespace becomes a single space. */
  function CollapseSpaces(s: string): (r: string)
    ensures |r| <= |s|
    ensures r == [] <==> s == []
    ensures s != [] ==> (IsSpace(r[0]) <==> IsSpace(s[0]))
    ensures s != [] ==> (IsSpace(r[|r| - 1]) <==> IsSpace(s[|s| - 1]))
    ensures forall i :: 0 <= i < |r| && IsSpace(r[i]) ==> r[i] == ' '
    ensures forall i, j :: 0 <= i && j == i + 1 && j < |r| ==> !IsSpace(r[i]) || !IsSpace(r[j])
    decreases |s|
  {
    if s == [] then []
    else if IsSpace(s[0]) then [' '] + CollapseSpaces(TrimLeft(s, IsSpace))
    else [s[0]] + CollapseSpaces(s[1..])
  }

  /** An interior run of whitespace becomes exactly one space. */
  lemma CollapseRun(a: string, w: string, b: string)
    requires a != [] && !IsSpace(a[|a| - 1])
    requires w != [] && forall k :: 0 <= k < |w| ==> IsSpace(w[k])
    requires b != [] && !IsSpace(b[0])
    ensures CollapseSpaces(a + w + b) == CollapseSpaces(a) + " " + CollapseSpaces(b)
  {
    AppendAssoc(a, w, b);
    CollapseAppend(a, w + b);
    TailOfAppend(w, b);
    CollapseSpaceHead(w + b);
    TrimLeftPast(w, b, IsSpace);
    AppendAssoc(CollapseSpaces(a), " ", CollapseSpaces(b));
  }

  /** Collapsing splits after a non-whitespace character. */
  lemma {:induction false} CollapseAppend(a: string, t: string)
    requires a != [] && !IsSpace(a[|a| - 1])
    ensures CollapseSpaces(a + t) == CollapseSpaces(a) + CollapseSpaces(t)
    decreases |a|, 1
  {
    if IsSpace(a[0]) {
      CollapseAppendSpace(a, t);
    } else {
      CollapseAppendChar(a, t);
    }
  }

  lemma {:induction false} CollapseAppendSpace(a: string, t: string)
    requires a != [] && IsSpace(a[0]) && !IsSpace(a[|a| - 1])
    ensures CollapseSpaces(a + t) == CollapseSpaces(a) + CollapseSpaces(t)
    decreases |a|, 0
  {
    var rest := TrimLeft(a, IsSpace);
    TailOfAppend(a, t);
    CollapseAppend(rest, t);
    CollapseSpaceHead(a + t);
    TrimLeftAppend(a, t, IsSpace);
    CollapseSpaceHead(a);
    AppendAssoc(" ", CollapseSpaces(rest), CollapseSpaces(t));
  }

  lemma {:induction false} CollapseAppendChar(a: string, t: string)
    requires a != [] && !IsSpace(a[0]) && !IsSpace(a[|a| - 1])
    ensures CollapseSpaces(a + t) == CollapseSpaces(a) + CollapseSpaces(t)
    decreases |a|, 0
  {
    var rest := a[1..];
    TailOfAppend(a, t);
    CollapseCharHead(a + t);
    CollapseCharHead(a);
    if rest == [] {
      assert rest + t == t;
    } else {
      CollapseAppend(rest, t);
      AppendAssoc([a[0]], CollapseSpaces(rest), CollapseSpaces(t));
    }
  }

  lemma CollapseSpaceHead(s: string)
    requires s != [] && IsSpace(s[0])
    ensures CollapseSpaces(s) == " " + CollapseSpaces(TrimLeft(s, IsSpace))
  {
  }

  lemma CollapseCharHead(s: string)
    requires s != [] && !IsSpace(s[0])
    ensures CollapseSpaces(s) == [s[0]] + CollapseSpaces(s[1..])
  {
  }

  /** Collapsing whitespace keeps every other character, in order. */
  lemma {:induction false} CollapseKeepsVisible(s: string)
    ensures Visible(CollapseSpaces(s)) == Visible(s)
    decreases |s|
  {
    if s == [] {
    } else if IsSpace(s[0]) {
      var rest := TrimLeft(s, IsSpace);
      assert s == s[..|s| - |rest|] + rest;
      VisibleOfSpaces(s[..|s| - |rest|], rest);
      VisibleOfSpaces([' '], CollapseSpaces(rest));
      CollapseKeepsVisible(rest);
    } else {
      assert s == [s[0]] + s[1..];
      VisibleAppend([s[0]], s[1..]);
      VisibleAppend([s[0]], CollapseSpaces(s[1..]));
      CollapseKeepsVisible(s[1..]);
    }
  }

  /** `s.strip()`. */
  function Strip(s: string): string
  {
    Trim(s, IsSpace)
  }

  /** The name before the length cut: replaced, collapsed and stripped. */
  function Prepared(name: string): string
  {
    Strip(CollapseSpaces(ReplaceReserved(name)))
  }

  /** `sanitize_filename(name)`. */
  function SanitizeFilename(name: string): (r: string)
    ensures |r| <= MaxLength
    ensures r <= Prepared(name) && (r == Prepared(name) || |r| == MaxLength)
    ensures Tidy(r)
    ensures r == [] || !IsSpace(r[0])
    ensures r != [] && IsSpace(r[|r| - 1]) ==> |Prepared(name)| > MaxLength
  {
    var stripped := Strip(CollapseSpaces(ReplaceReserved(name)));
    ReplacedCollapsedTidy(name);
    StripTidy(CollapseSpaces(ReplaceReserved(name)));
    if |stripped| <= MaxLength then stripped
    else
      TidySlice(stripped, 0, MaxLength);
      stripped[..MaxLength]
  }

  /** The shape every sanitized name has: no reserved character, no whitespace
      but the plain space, and never two whitespace characters in a row. */
  ghost predicate Tidy(s: string)
  {
    && (forall i :: 0 <= i < |s| ==> !IsReserved(s[i]))
    && (forall i :: 0 <= i < |s| && IsSpace(s[i]) ==> s[i] == ' ')
    && (forall i, j :: 0 <= i && j == i + 1 && j < |s| ==> !IsSpace(s[i]) || !IsSpace(s[j]))
  }

  lemma ReplacedCollapsedTidy(name: string)
    ensures Tidy(CollapseSpaces(ReplaceReserved(name)))
  {
    var s := ReplaceReserved(name);
    assert forall k :: 0 <= k < |s| ==> !IsReserved(s[k]);
    CollapseKeepsUnreserved(s);
  }

  lemma CollapseKeepsUnreserved(s: string)
    requires forall k :: 0 <= k < |s| ==> !IsReserved(s[k])
    ensures forall i :: 0 <= i < |CollapseSpaces(s)| ==> !IsReserved(CollapseSpaces(s)[i])
  {
    var r := CollapseSpaces(s);
    CollapseKeepsVisible(s);
    forall i | 0 <= i < |r| ensures !IsReserved(r[i]) {
      UnreservedChar(s, r, i);
    }
  }

  /** A character of `r` is unreserved when `r` holds the visible text of an
      unreserved `s` and its only whitespace is the plain space. */
  lemma UnreservedChar(s: string, r: string, i: nat)
    requires forall k :: 0 <= k < |s| ==> !IsReserved(s[k])
    requires Visible(r) == Visible(s)
    requires forall k :: 0 <= k < |r| && IsSpace(r[k]) ==> r[k] == ' '
    requires i < |r|
    ensures !IsReserved(r[i])
  {
    var c := r[i];
    if !IsSpace(c) {
      assert c in r;
      SameVisibleChar(s, r, c);
      var k :| 0 <= k < |s| && s[k] == c;
    }
  }

  /** A visible character of `r` is a character of any `s` with the same visible text. */
  lemma SameVisibleChar(s: string, r: string, c: char)
    requires Visible(r) == Visible(s)
    requires c in r && !IsSpace(c)
    ensures c in s
  {
    VisibleChar(r, c);
    VisibleFrom(s, c);
  }

  /** Any slice of a tidy string is tidy. */
  lemma TidySlice(s: string, i: nat, j: nat)
    requires Tidy(s) && i <= j <= |s|
    ensures Tidy(s[i..j])
  {
    var r := s[i..j];
    assert forall k :: 0 <= k < |r| ==> r[k] == s[i + k];
  }

  lemma StripTidy(s: string)
    requires Tidy(s)
    ensures Tidy(Strip(s))
  {
    var left := TrimLeft(s, IsSpace);
    TidySlice(s, |s| - |left|, |s|);
    TidySlice(left, 0, |TrimRight(left, IsSpace)|);
  }

  /** Stripping only removes whitespace. */
  lemma StripKeepsVisible(s: string)
    ensures Visible(Strip(s)) == Visible(s)
  {
    VisibleTrimLeft(s);
    VisibleTrimRight(TrimLeft(s, IsSpace));
  }

  /** Leading whitespace removed by `lstrip` was invisible. */
  lemma {:induction false} VisibleTrimLeft(s: string)
    ensures Visible(TrimLeft(s, IsSpace)) == Visible(s)
    decreases |s|
  {
    if s != [] && IsSpace(s[0]) {
      VisibleTrimLeft(s[1..]);
    }
  }

  /** Trailing whitespace removed by `rstrip` was invisible. */
  lemma {:induction false} VisibleTrimRight(s: string)
    ensures Visible(TrimRight(s, IsSpace)) == Visible(s)
    decreases |s|
  {
    if s != [] && IsSpace(s[|s| - 1]) {
      var init := s[..|s| - 1];
      VisibleTrimRight(init);
      assert s == init + [s[|s| - 1]];
      VisibleAppend(init, [s[|s| - 1]]);
      assert Visible([s[|s| - 1]]) == [];
    }
  }

  /** Sanitizing never loses or reorders the visible text of a name, reserved
      characters aside: what survives is an initial part of it, and all of it
      when no cut was needed. */
  lemma SanitizeKeepsText(name: string)
    ensures Visible(SanitizeFilename(name)) <= Visible(ReplaceReserved(name))
    ensures |Prepared(name)| <= MaxLength ==>
              Visible(SanitizeFilename(name)) == Visible(ReplaceReserved(name))
  {
    PreparedKeepsVisible(name);
    VisiblePrefix(SanitizeFilename(name), Prepared(name));
  }

  lemma PreparedKeepsVisible(name: string)
    ensures Visible(Prepared(name)) == Visible(ReplaceReserved(name))
  {
    CollapseKeepsVisible(ReplaceReserved(name));
    StripKeepsVisible(CollapseSpaces(ReplaceReserved(name)));
  }

  lemma VisiblePrefix(r: string, p: string)
    requires r <= p
    ensures Visible(r) <= Visible(p)
  {
    assert p == r + p[|r|..];
    VisibleAppend(r, p[|r|..]);
  }

  /** A string that is tidy and does not start or end with whitespace. */
  ghost predicate Clean(s: string)
  {
    Tidy(s) && (s == [] || (!IsSpace(s[0]) && !IsSpace(s[|s| - 1])))
  }

  lemma ReplaceFixesTidy(s: string)
    requires Tidy(s)
    ensures ReplaceReserved(s) == s
  {
    var r := ReplaceReserved(s);
    assert forall i :: 0 <= i < |s| ==> r[i] == s[i];
  }

  lemma {:induction false} CollapseFixesTidy(s: string)
    requires Tidy(s)
    ensures CollapseSpaces(s) == s
    decreases |s|
  {
    if s != [] {
      TidySlice(s, 1, |s|);
      CollapseFixesTidy(s[1..]);
      TidyHead(s);
      CollapseCons(s);
    }
  }

  lemma TidyHead(s: string)
    requires Tidy(s) && s != []
    ensures IsSpace(s[0]) ==> s[0] == ' ' && (|s| > 1 ==> !IsSpace(s[1]))
  {
  }

  /** One step of `CollapseSpaces` on a string whose first character needs no change. */
  lemma CollapseCons(s: string)
    requires s != [] && CollapseSpaces(s[1..]) == s[1..]
    requires IsSpace(s[0]) ==> s[0] == ' ' && (|s| > 1 ==> !IsSpace(s[1]))
    ensures CollapseSpaces(s) == s
  {
    if IsSpace(s[0]) {
      assert TrimLeft(s[1..], IsSpace) == s[1..];
      assert TrimLeft(s, IsSpace) == s[1..];
    }
    assert s == [s[0]] + s[1..];
  }

  lemma StripFixesClean(s: string)
    requires Clean(s)
    ensures Strip(s) == s
  {
  }

  /** The whole pipeline leaves a clean name of at most `MaxLength` characters alone. */
  lemma SanitizeFixesClean(s: string)
    requires Clean(s) && |s| <= MaxLength
    ensures SanitizeFilename(s) == s
  {
    assert Prepared(s) == s by {
      assert ReplaceReserved(s) == s by {
        ReplaceFixesTidy(s);
      }
      assert CollapseSpaces(s) == s by {
        CollapseFixesTidy(s);
      }
      StripFixesClean(s);
    }
  }

  /** Sanitizing twice is sanitizing once, unless the cut left a trailing space. */
  lemma SanitizeIdempotent(name: string)
    requires SanitizeFilename(name) == [] || !IsSpace(SanitizeFilename(name)[|SanitizeFilename(name)| - 1])
    ensures SanitizeFilename(SanitizeFilename(name)) == SanitizeFilename(name)
  {
    SanitizeFixesClean(SanitizeFilename(name));
  }

  /** When the cut leaves a trailing space, sanitizing again removes it: the
      function is not idempotent there. */
  lemma SanitizeTwiceDropsTrailingSpace(name: string)
    requires SanitizeFilename(name) != [] && IsSpace(SanitizeFilename(name)[|SanitizeFilename(name)| - 1])
    ensures SanitizeFilename(SanitizeFilename(name))
            == SanitizeFilename(name)[..|SanitizeFilename(name)| - 1]
    ensures SanitizeFilename(SanitizeFilename(name)) != SanitizeFilename(name)
  {
    var r := SanitizeFilename(name);
    var t := r[..|r| - 1];
    assert |r| == MaxLength;
    assert !IsSpace(t[|t| - 1]);
    TidySlice(r, 0, |r| - 1);
    ReplaceFixesTidy(r);
    CollapseFixesTidy(r);
    assert TrimLeft(r, IsSpace) == r;
    assert TrimRight(r, IsSpace) == TrimRight(t, IsSpace) == t;
    assert Prepared(r) == t;
  }

  /** The trailing-space case happens: 179 letters, a space and one more letter. */
  lemma TrailingSpaceReachable()
    ensures exists name ::
              SanitizeFilename(name) != [] && IsSpace(SanitizeFilename(name)[|SanitizeFilename(name)| - 1])
  {
    var name := seq(179, _ => 'a') + " b";
    NameIsClean(name);
    ReplaceFixesTidy(name);
    CollapseFixesTidy(name);
    StripFixesClean(name);
    assert Prepared(name) == name;
    assert SanitizeFilename(name) == name[..MaxLength];
    assert SanitizeFilename(name)[179] == ' ';
  }

  lemma NameIsClean(name: string)
    requires name == seq(179, _ => 'a') + " b"
    ensures Clean(name)
  {
    assert forall i :: 0 <= i < |name| ==> name[i] == 'a' || (i == 179 && name[i] == ' ') || (i == 180 && name[i] == 'b');
  }
}
