/**
 * The string operations app.py relies on: Python's `str.strip()`, `sep.join(xs)`
 * (with `str.split` as its inverse) and the single-character `str.replace(' ', '_')`
 * used for the download file name.
 */
module Text {

  /** The characters Python's `str.isspace()` accepts, i.e. those `str.strip()` removes. */
  predicate IsSpace(c: char)
  {
    || ('\t' <= c <= '\r')
    || ('\U{1C}' <= c <= ' ')
    || c == '\U{85}' || c == '\U{A0}' || c == '\U{1680}'
    || ('\U{2000}' <= c <= '\U{200A}')
    || c == '\U{2028}' || c == '\U{2029}' || c == '\U{202F}' || c == '\U{205F}' || c == '\U{3000}'
  }

  predicate AllSpace(s: string)
  {
    forall k :: 0 <= k < |s| ==> IsSpace(s[k])
  }

  /** `s.lstrip()`. */
  function TrimStart(s: string): string
  {
    if s != [] && IsSpace(s[0]) then TrimStart(s[1..]) else s
  }

  /** `s.rstrip()`. */
  function TrimEnd(s: string): string
  {
    if s != [] && IsSpace(s[|s| - 1]) then TrimEnd(s[..|s| - 1]) else s
  }

  /** `s.strip()`. */
  function Strip(s: string): string
  {
    TrimEnd(TrimStart(s))
  }

  /** `lstrip()` drops the leading whitespace and nothing else: what remains is a suffix that does not start with whitespace. */
  lemma {:induction false} TrimStartSpec(s: string)
    ensures var r := TrimStart(s);
      && |r| <= |s| && r == s[|s| - |r|..]
      && AllSpace(s[..|s| - |r|])
      && (r == [] || !IsSpace(r[0]))
  {
    if s != [] && IsSpace(s[0]) {
      TrimStartSpec(s[1..]);
      var r := TrimStart(s);
      assert s[..|s| - |r|] == [s[0]] + s[1..][..|s| - 1 - |r|];
    }
  }

  /** `rstrip()` drops the trailing whitespace and nothing else: what remains is a prefix that does not end with whitespace. */
  lemma {:induction false} TrimEndSpec(s: string)
    ensures var r := TrimEnd(s);
      && |r| <= |s| && r == s[..|r|]
      && AllSpace(s[|r|..])
      && (r == [] || !IsSpace(r[|r| - 1]))
  {
    if s != [] && IsSpace(s[|s| - 1]) {
      var init := s[..|s| - 1];
      TrimEndSpec(init);
      var r := TrimEnd(s);
      assert s[|r|..] == init[|r|..] + [s[|s| - 1]];
    }
  }

  /**
   * `strip()` keeps the part of `s` between its leading and its trailing
   * whitespace: the result is a slice of `s`, what was cut off is whitespace,
   * the result neither starts nor ends with whitespace, and it is empty exactly
   * when `s` is all whitespace.
   */
  lemma StripSpec(s: string)
    ensures var r := Strip(s);
      && (exists i :: 0 <= i <= |s| - |r| && r == s[i..i + |r|] && AllSpace(s[..i]) && AllSpace(s[i + |r|..]))
      && (r == [] || (!IsSpace(r[0]) && !IsSpace(r[|r| - 1])))
      && (r == [] <==> AllSpace(s))
  {
    var t := TrimStart(s);
    TrimStartSpec(s);
    TrimEndSpec(t);
    StripShape(s, t, TrimEnd(t));
  }

  lemma StripShape(s: string, t: string, r: string)
    requires |t| <= |s| && t == s[|s| - |t|..] && AllSpace(s[..|s| - |t|]) && (t == [] || !IsSpace(t[0]))
    requires |r| <= |t| && r == t[..|r|] && AllSpace(t[|r|..]) && (r == [] || !IsSpace(r[|r| - 1]))
    ensures var i := |s| - |t|; r == s[i..i + |r|] && AllSpace(s[..i]) && AllSpace(s[i + |r|..])
    ensures r == [] || (!IsSpace(r[0]) && !IsSpace(r[|r| - 1]))
    ensures r == [] <==> AllSpace(s)
  {
    var i := |s| - |t|;
    assert s[i + |r|..] == t[|r|..];
    if r != [] {
      assert r[0] == t[0];
      assert s[i] == r[0];
    } else {
      AllSpaceConcat(s[..i], t);
      assert s == s[..i] + t;
    }
  }

  lemma AllSpaceConcat(a: string, b: string)
    requires AllSpace(a) && AllSpace(b)
    ensures AllSpace(a + b)
  {
    forall k | 0 <= k < |a + b| ensures IsSpace((a + b)[k]) {
      if k >= |a| { assert (a + b)[k] == b[k - |a|]; }
    }
  }

  /** A string that neither starts nor ends with whitespace is left alone by `strip()`. */
  lemma StripKeepsTrimmed(s: string)
    requires s == [] || (!IsSpace(s[0]) && !IsSpace(s[|s| - 1]))
    ensures Strip(s) == s
  {
    TrimStartSpec(s);
    TrimEndSpec(s);
  }

  /** `strip()` is idempotent: stripping an answer twice changes nothing. */
  lemma StripIdempotent(s: string)
    ensures Strip(Strip(s)) == Strip(s)
  {
    StripSpec(s);
    StripKeepsTrimmed(Strip(s));
  }

  /** `sep.join(xs)` for a one-character separator. */
  function Join(xs: seq<string>, sep: char): (r: string)
    ensures r == [] <==> |xs| == 0 || (|xs| == 1 && xs[0] == [])
  {
    if |xs| == 0 then []
    else if |xs| == 1 then xs[0]
    else xs[0] + [sep] + Join(xs[1..], sep)
  }

  /** `s.split(sep)` for a one-character separator: never empty, no piece holds `sep`. */
  function Split(s: string, sep: char): (r: seq<string>)
    ensures |r| >= 1
    ensures forall i :: 0 <= i < |r| ==> sep !in r[i]
  {
    if s == [] then [[]]
    else
      var t := Split(s[1..], sep);
      if s[0] == sep then [[]] + t else [[s[0]] + t[0]] + t[1..]
  }

  /** Joining the pieces of a split gives back the original string, for every string. */
  lemma {:induction false} JoinSplit(s: string, sep: char)
    ensures Join(Split(s, sep), sep) == s
  {
    if s != [] {
      var t := Split(s[1..], sep);
      JoinSplit(s[1..], sep);
      if s[0] == sep {
        assert ([[]] + t)[1..] == t;
      } else {
        var u := [[s[0]] + t[0]] + t[1..];
        if |t| > 1 {
          assert u[1..] == t[1..];
        }
      }
    }
  }

  /** Splitting a piece free of `sep`, followed by more text, puts the piece in front of the first part. */
  lemma {:induction false} SplitFreePrefix(x: string, rest: string, sep: char)
    requires sep !in x
    ensures Split(x + rest, sep) == [x + Split(rest, sep)[0]] + Split(rest, sep)[1..]
  {
    if x != [] {
      SplitFreePrefix(x[1..], rest, sep);
      assert (x + rest)[1..] == x[1..] + rest;
      assert [x[0]] + (x[1..] + Split(rest, sep)[0]) == x + Split(rest, sep)[0];
    } else {
      var t := Split(rest, sep);
      assert x + rest == rest;
      assert x + t[0] == t[0];
      assert [t[0]] + t[1..] == t;
    }
  }

  /**
   * Splitting a join gives back the joined pieces when none of them holds the
   * separator and there is at least one (`sep.join([])` and `sep.join([""])` are both "").
   */
  lemma {:induction false} SplitJoin(xs: seq<string>, sep: char)
    requires |xs| >= 1
    requires forall i :: 0 <= i < |xs| ==> sep !in xs[i]
    ensures Split(Join(xs, sep), sep) == xs
  {
    if |xs| == 1 {
      SplitFreePrefix(xs[0], [], sep);
      assert xs[0] + [] == xs[0];
    } else {
      var j := Join(xs[1..], sep);
      SplitJoin(xs[1..], sep);
      SplitFreePrefix(xs[0], [sep] + j, sep);
      assert xs[0] + [sep] + j == xs[0] + ([sep] + j);
      assert ([sep] + j)[1..] == j;
      var t := Split([sep] + j, sep);
      assert t == [[]] + xs[1..];
      assert xs[0] + t[0] == xs[0];
      assert [xs[0]] + t[1..] == xs;
    }
  }

  /** `s.replace(' ', '_')`: every space becomes an underscore, every other character stays. */
  function ReplaceSpaces(s: string): (r: string)
    ensures |r| == |s|
    ensures forall i :: 0 <= i < |s| ==> r[i] == (if s[i] == ' ' then '_' else s[i])
  {
    if s == [] then [] else [if s[0] == ' ' then '_' else s[0]] + ReplaceSpaces(s[1..])
  }

  /** After the replacement no space is left, and replacing again changes nothing. */
  lemma ReplaceSpacesNoSpace(s: string)
    ensures ' ' !in ReplaceSpaces(s)
    ensures ReplaceSpaces(ReplaceSpaces(s)) == ReplaceSpaces(s)
  {
  }

  /** On a string without spaces the replacement is the identity. */
  lemma ReplaceSpacesFree(s: string)
    requires ' ' !in s
    ensures ReplaceSpaces(s) == s
  {
  }
}
