/**
 * The JavaScript string built-ins the core relies on: `trim`, `indexOf` of one
 * character, `split` on one character and `join`. Strings are `seq<char>`, whose elements
 * are Unicode scalar values; JavaScript strings count UTF-16 code units, which
 * differs only outside the Basic Multilingual Plane, and no modelled operation
 * splits such a character.
 */
module JsStrings {

  /** White space and line terminators as `String.prototype.trim` strips them. */
  predicate IsWhitespace(c: char) {
    || c == ' ' || c == '\t' || c == '\n' || c == '\r'
    || c == '\U{000B}' || c == '\U{000C}'
    || c == '\U{00A0}' || c == '\U{1680}'
    || ('\U{2000}' <= c <= '\U{200A}')
    || c == '\U{2028}' || c == '\U{2029}' || c == '\U{202F}' || c == '\U{205F}'
    || c == '\U{3000}' || c == '\U{FEFF}'
  }

  predicate AllWhitespace(s: string) {
    forall k :: 0 <= k < |s| ==> IsWhitespace(s[k])
  }

  /** No white space at either end. */
  predicate IsTrimmed(s: string) {
    s == [] || (!IsWhitespace(s[0]) && !IsWhitespace(s[|s| - 1]))
  }

  /** Leading white space removed (`trimStart`). */
  function TrimStart(s: string): (r: string)
    ensures |r| <= |s|
  {
    if s == [] || !IsWhitespace(s[0]) then s else TrimStart(s[1..])
  }

  /** `r` is the longest suffix of `s` that does not start with white space. */
  lemma {:induction false} TrimStartSpec(s: string)
    ensures var r := TrimStart(s);
      && r == s[|s| - |r|..]
      && AllWhitespace(s[..|s| - |r|])
      && (r == [] || !IsWhitespace(r[0]))
  {
    if s != [] && IsWhitespace(s[0]) {
      TrimStartSpec(s[1..]);
      var r := TrimStart(s[1..]);
      assert s[1..][..|s[1..]| - |r|] == s[1..|s| - |r|];
    }
  }

  /** Trailing white space removed (`trimEnd`). */
  function TrimEnd(s: string): (r: string)
    ensures |r| <= |s|
  {
    if s == [] || !IsWhitespace(s[|s| - 1]) then s else TrimEnd(s[..|s| - 1])
  }

  /** `r` is the longest prefix of `s` that does not end with white space. */
  lemma {:induction false} TrimEndSpec(s: string)
    ensures var r := TrimEnd(s);
      && r == s[..|r|]
      && AllWhitespace(s[|r|..])
      && (r == [] || !IsWhitespace(r[|r| - 1]))
  {
    if s != [] && IsWhitespace(s[|s| - 1]) {
      TrimEndSpec(s[..|s| - 1]);
      var r := TrimEnd(s[..|s| - 1]);
      assert s[..|s| - 1][|r|..] == s[|r|..|s| - 1];
    }
  }

  /** `String.prototype.trim`. */
  function Trim(s: string): (r: string)
    ensures |r| <= |s|
  {
    TrimEnd(TrimStart(s))
  }

  /**
   * `trim` keeps the middle of the string: the part it drops in front and the
   * part it drops behind are all white space, and what it keeps has none at
   * either end.
   */
  lemma TrimSpec(s: string)
    ensures var k := |s| - |TrimStart(s)|;
      var r := Trim(s);
      && IsTrimmed(r)
      && k + |r| <= |s|
      && AllWhitespace(s[..k])
      && r == s[k..k + |r|]
      && AllWhitespace(s[k + |r|..])
  {
    TrimStartSpec(s);
    var a := TrimStart(s);
    TrimEndSpec(a);
    var k := |s| - |a|;
    var r := Trim(s);
    assert r == a[..|r|];
    assert a[..|r|] == s[k..k + |r|];
    assert a[|r|..] == s[k + |r|..];
    if r != [] {
      assert r[0] == a[0];
    }
  }

  /** `trim()` gives the empty string exactly for an all-white-space string (JavaScript's `!s.trim()`). */
  lemma TrimEmptyIff(s: string)
    ensures Trim(s) == [] <==> AllWhitespace(s)
  {
    TrimSpec(s);
    var k := |s| - |TrimStart(s)|;
    if Trim(s) == [] {
      assert s[..k] + s[k..] == s;
      forall i | 0 <= i < |s| ensures IsWhitespace(s[i]) {
        if i < k { assert s[i] == s[..k][i]; } else { assert s[i] == s[k..][i - k]; }
      }
    } else {
      assert Trim(s)[0] == s[k];
    }
  }

  /** A string with no white space at either end is its own trim. */
  lemma TrimIdentity(s: string)
    ensures Trim(s) == s <==> IsTrimmed(s)
  {
    TrimSpec(s);
  }

  /** White space in front of a string does not survive `trim`. */
  lemma TrimIgnoresLeadingSpace(s: string)
    ensures Trim(" " + s) == Trim(s)
  {
    assert (" " + s)[1..] == s;
  }

  /** An appended white-space character survives `trimStart` unless the string is all white space. */
  lemma {:induction false} TrimStartSnoc(s: string, w: char)
    requires IsWhitespace(w)
    ensures TrimStart(s + [w]) == if AllWhitespace(s) then [] else TrimStart(s) + [w]
  {
    if s == [] {
      assert [w][1..] == [];
    } else if IsWhitespace(s[0]) {
      assert (s + [w])[1..] == s[1..] + [w];
      TrimStartSnoc(s[1..], w);
      assert AllWhitespace(s) <==> AllWhitespace(s[1..]) by {
        if AllWhitespace(s[1..]) {
          forall k | 0 <= k < |s| ensures IsWhitespace(s[k]) {
            if k > 0 { assert s[k] == s[1..][k - 1]; }
          }
        }
      }
    } else {
      assert !AllWhitespace(s);
    }
  }

  /** White space after a string does not survive `trim`. */
  lemma TrimIgnoresTrailingWhitespace(s: string, w: char)
    requires IsWhitespace(w)
    ensures Trim(s + [w]) == Trim(s)
  {
    TrimStartSnoc(s, w);
    if AllWhitespace(s) {
      TrimEmptyIff(s);
    } else {
      var a := TrimStart(s);
      assert (a + [w])[..|a|] == a;
    }
  }

  /** `s.indexOf(c)`: the first index of `c` in `s`, or -1. */
  function IndexOf(s: string, c: char): (r: int)
    ensures -1 <= r < |s|
    ensures r >= 0 ==> s[r] == c && c !in s[..r]
    ensures r == -1 <==> c !in s
  {
    if s == [] then -1
    else if s[0] == c then 0
    else
      var r := IndexOf(s[1..], c);
      if r == -1 then -1
      else
        assert s[..r + 1] == [s[0]] + s[1..][..r];
        r + 1
  }

  /**
   * `s.split(c)` for a one-character separator: the pieces between occurrences
   * of `c`, read one character at a time.
   */
  function Split(s: string, c: char): (r: seq<string>)
    ensures |r| >= 1
  {
    if s == [] then [""]
    else if s[0] == c then [""] + Split(s[1..], c)
    else
      var r := Split(s[1..], c);
      [[s[0]] + r[0]] + r[1..]
  }

  /** No piece of a split holds the separator. */
  lemma {:induction false} SplitPiecesLackSeparator(s: string, c: char)
    ensures forall p :: p in Split(s, c) ==> c !in p
  {
    if s != [] {
      SplitPiecesLackSeparator(s[1..], c);
    }
  }

  /** A string without the separator is a single piece. */
  lemma {:induction false} SplitNone(s: string, c: char)
    requires c !in s
    ensures Split(s, c) == [s]
  {
    if s != [] {
      SplitNone(s[1..], c);
      assert [s[0]] + s[1..] == s;
    }
  }

  /** The first piece of a split ends at the first separator. */
  lemma {:induction false} SplitFound(s: string, c: char)
    requires c in s
    ensures var i := IndexOf(s, c); Split(s, c) == [s[..i]] + Split(s[i + 1..], c)
  {
    if s[0] != c {
      var i := IndexOf(s, c);
      SplitFound(s[1..], c);
      assert s[1..][..i - 1] == s[1..i];
      assert s[1..][i - 1 + 1..] == s[i + 1..];
      assert [s[0]] + s[1..i] == s[..i];
    }
  }

  /** `parts.join(sep)`. */
  function Join(parts: seq<string>, sep: string): string
  {
    if parts == [] then ""
    else if |parts| == 1 then parts[0]
    else parts[0] + sep + Join(parts[1..], sep)
  }

  /** Every part with `pad` in front. */
  function PadEach(pad: string, parts: seq<string>): (r: seq<string>)
    ensures |r| == |parts|
    ensures forall k :: 0 <= k < |parts| ==> r[k] == pad + parts[k]
  {
    if parts == [] then [] else [pad + parts[0]] + PadEach(pad, parts[1..])
  }

  /** The first occurrence of `c` in `p + t`, when `p` has none, is the first one in `t`. */
  lemma IndexOfAfter(p: string, t: string, c: char)
    requires c !in p
    ensures IndexOf(p + t, c) == if IndexOf(t, c) < 0 then -1 else |p| + IndexOf(t, c)
  {
    var i := IndexOf(t, c);
    if i >= 0 {
      assert (p + t)[|p| + i] == c;
      assert (p + t)[..|p| + i] == p + t[..i];
    } else {
      assert c !in p + t;
    }
  }

  /** Text appended after a found character does not move its first occurrence. */
  lemma IndexOfPrefix(s: string, t: string, c: char)
    requires IndexOf(s, c) >= 0
    ensures IndexOf(s + t, c) == IndexOf(s, c)
  {
    var i := IndexOf(s, c);
    assert (s + t)[i] == c;
    assert (s + t)[..i] == s[..i];
  }

  /** A prefix without the separator only extends the first piece. */
  lemma {:induction false} SplitAfter(p: string, t: string, c: char)
    requires c !in p
    ensures Split(p + t, c) == [p + Split(t, c)[0]] + Split(t, c)[1..]
  {
    var pieces := Split(t, c);
    if p == [] {
      assert p + t == t && p + pieces[0] == pieces[0];
      assert pieces == [pieces[0]] + pieces[1..];
    } else {
      assert (p + t)[0] == p[0] && (p + t)[1..] == p[1..] + t;
      SplitAfter(p[1..], t, c);
      var r := Split(p[1..] + t, c);
      assert r[0] == p[1..] + pieces[0] && r[1..] == pieces[1..];
      assert [p[0]] + (p[1..] + pieces[0]) == p + pieces[0];
    }
  }

  /** A string that starts with the separator splits into an empty piece and the pieces of the rest. */
  lemma SplitAtSeparator(s: string, c: char)
    requires s != [] && s[0] == c
    ensures Split(s, c) == [""] + Split(s[1..], c)
  {
    assert IndexOf(s, c) == 0;
    assert s[..0] == "";
  }

  /**
   * Splitting at `c` undoes joining with `c` followed by `pad`, except that the
   * pad stays in front of every part but the first.
   */
  lemma {:induction false} SplitJoin(parts: seq<string>, c: char, pad: string)
    requires |parts| > 0
    requires c !in pad
    requires forall k :: 0 <= k < |parts| ==> c !in parts[k]
    ensures Split(Join(parts, [c] + pad), c) == [parts[0]] + PadEach(pad, parts[1..])
  {
    var sep := [c] + pad;
    if |parts| == 1 {
      SplitNone(parts[0], c);
    } else {
      var tail := parts[1..];
      var rest := Join(tail, sep);
      var after := Split(sep + rest, c);
      assert Split(Join(parts, sep), c) == [parts[0] + after[0]] + after[1..] by {
        assert Join(parts, sep) == parts[0] + (sep + rest);
        SplitAfter(parts[0], sep + rest, c);
      }
      assert Split(rest, c) == [tail[0]] + PadEach(pad, tail[1..]) by {
        forall k | 0 <= k < |tail| ensures c !in tail[k] { assert tail[k] == parts[k + 1]; }
        SplitJoin(tail, c, pad);
      }
      assert after == [""] + PadEach(pad, tail) by {
        SplitAtSeparator(sep + rest, c);
        assert (sep + rest)[1..] == pad + rest;
        SplitAfter(pad, rest, c);
      }
      assert parts[0] + "" == parts[0];
    }
  }
}
