/**
 * The three Python string built-ins the transcript filter relies on:
 * `str.strip()`, `str.lower()` and `" ".join(...)`.
 */
module Strings {

  /** Python's `str.isspace` for one character (the characters `str.strip()` removes). */
  predicate IsSpace(c: char)
  {
    || ('\t' <= c <= '\r')
    || ('\U{1C}' <= c <= '\U{1F}')
    || c == ' ' || c == '\U{85}' || c == '\U{A0}' || c == '\U{1680}'
    || ('\U{2000}' <= c <= '\U{200A}')
    || c == '\U{2028}' || c == '\U{2029}' || c == '\U{202F}' || c == '\U{205F}' || c == '\U{3000}'
  }

  /** Neither the first nor the last character is whitespace. */
  predicate Trimmed(s: string)
  {
    s == [] || (!IsSpace(s[0]) && !IsSpace(s[|s| - 1]))
  }

  /** `s.rstrip()`: the longest whitespace suffix is removed. */
  function StripRight(s: string): (r: string)
    ensures |r| <= |s| && r == s[..|r|]
    ensures forall k :: |r| <= k < |s| ==> IsSpace(s[k])
    ensures r == [] || !IsSpace(r[|r| - 1])
  {
    if s != [] && IsSpace(s[|s| - 1]) then StripRight(s[..|s| - 1]) else s
  }

  /** `s.strip()`: whitespace removed from both ends. */
  function Strip(s: string): (r: string)
    ensures Trimmed(r)
    ensures |r| <= |s|
  {
    if s != [] && IsSpace(s[0]) then Strip(s[1..]) else StripRight(s)
  }

  /** `r` is `s[i..]` cut to length `|r|`, and everything of `s` outside it is whitespace. */
  predicate SpaceAround(s: string, i: int, r: string)
  {
    && 0 <= i <= |s| - |r|
    && s[i..i + |r|] == r
    && (forall k :: 0 <= k < i ==> IsSpace(s[k]))
    && (forall k :: i + |r| <= k < |s| ==> IsSpace(s[k]))
  }

  /**
   * What `Strip` removes: the result is a slice of `s` and everything outside
   * the slice is whitespace. With `Trimmed`, this pins the result down.
   */
  lemma {:induction false} StripSlice(s: string)
    ensures exists i :: SpaceAround(s, i, Strip(s))
  {
    var r := Strip(s);
    if s != [] && IsSpace(s[0]) {
      StripSlice(s[1..]);
      var i :| SpaceAround(s[1..], i, r);
      assert s[i + 1..i + 1 + |r|] == r;
      forall k | 0 <= k < i + 1 ensures IsSpace(s[k]) {
        if k > 0 {
          assert s[k] == s[1..][k - 1];
        }
      }
      forall k | i + 1 + |r| <= k < |s| ensures IsSpace(s[k]) {
        assert s[k] == s[1..][k - 1];
      }
      assert SpaceAround(s, i + 1, r);
    } else {
      assert SpaceAround(s, 0, r);
    }
  }

  /** `Strip` gives the empty string exactly when `s` is all whitespace. */
  lemma {:induction false} StripEmpty(s: string)
    ensures Strip(s) == [] <==> forall k :: 0 <= k < |s| ==> IsSpace(s[k])
  {
    if s != [] && IsSpace(s[0]) {
      StripEmpty(s[1..]);
      assert forall k :: 1 <= k < |s| ==> s[k] == s[1..][k - 1];
    }
  }

  /** Stripping a string that is already trimmed leaves it unchanged... */
  lemma StripTrimmed(s: string)
    requires Trimmed(s)
    ensures Strip(s) == s
  {
    if s != [] {
      assert !IsSpace(s[|s| - 1]);
    }
  }

  /** ...so stripping twice is stripping once. */
  lemma StripIdempotent(s: string)
    ensures Strip(Strip(s)) == Strip(s)
  {
    StripTrimmed(Strip(s));
  }

  /** The lower-case of one character, for the characters whose lower-case is ASCII. */
  function LowerChar(c: char): char
  {
    if 'A' <= c <= 'Z' then (c as int + 32) as char
    else if c == '\U{212A}' then 'k'  // KELVIN SIGN
    else c
  }

  /** `s.lower()`, character by character (see LowerChar). */
  function Lower(s: string): (r: string)
    ensures |r| == |s|
    ensures forall k :: 0 <= k < |s| ==> r[k] == LowerChar(s[k])
  {
    seq(|s|, k requires 0 <= k < |s| => LowerChar(s[k]))
  }

  /** `c` is `p` itself or an upper-case form of it: ASCII, or the Kelvin sign for 'k'. */
  predicate CaseVariant(c: char, p: char)
  {
    c == p || ('a' <= p <= 'z' && c as int == p as int - 32) || (p == 'k' && c == '\U{212A}')
  }

  /** `t` spells `h` letter by letter, up to letter case. */
  predicate SameIgnoringCase(t: string, h: string)
  {
    |t| == |h| && forall k :: 0 <= k < |t| ==> CaseVariant(t[k], h[k])
  }

  /** Text made only of lower-case ASCII letters, spaces and full stops. */
  predicate PlainLower(h: string)
  {
    forall k :: 0 <= k < |h| ==> 'a' <= h[k] <= 'z' || h[k] == ' ' || h[k] == '.'
  }

  /** Lower-casing gives a plain lower-case text exactly when the input is that text up to case. */
  lemma LowerMatches(t: string, h: string)
    requires PlainLower(h)
    ensures Lower(t) == h <==> SameIgnoringCase(t, h)
  {
    if Lower(t) == h {
      forall k | 0 <= k < |t|
        ensures CaseVariant(t[k], h[k])
      {
        assert LowerChar(t[k]) == h[k];
      }
    }
    if SameIgnoringCase(t, h) {
      forall k | 0 <= k < |t|
        ensures Lower(t)[k] == h[k]
      {
        assert CaseVariant(t[k], h[k]);
      }
    }
  }

  /** `s.endswith(suffix)`. */
  predicate EndsWith(s: string, suffix: string)
  {
    |suffix| <= |s| && s[|s| - |suffix|..] == suffix
  }

  /** `" ".join(pieces)`. */
  function JoinSpaces(pieces: seq<string>): string
  {
    if |pieces| == 0 then ""
    else if |pieces| == 1 then pieces[0]
    else pieces[0] + " " + JoinSpaces(pieces[1..])
  }

  /** Joining splits over concatenation: one space goes between the two halves. */
  lemma {:induction false} JoinSpacesAppend(xs: seq<string>, ys: seq<string>)
    requires xs != [] && ys != []
    ensures JoinSpaces(xs + ys) == JoinSpaces(xs) + " " + JoinSpaces(ys)
  {
    if |xs| == 1 {
      assert xs + ys == [xs[0]] + ys;
    } else {
      assert (xs + ys)[1..] == xs[1..] + ys;
      JoinSpacesAppend(xs[1..], ys);
    }
  }

  /**
   * Joining non-empty pieces: the result is empty exactly when there are no
   * pieces, it starts with the first piece and ends with the last.
   */
  lemma {:induction false} JoinSpacesEnds(pieces: seq<string>)
    requires forall k :: 0 <= k < |pieces| ==> pieces[k] != []
    ensures JoinSpaces(pieces) == [] <==> pieces == []
    ensures pieces != [] ==> pieces[0] <= JoinSpaces(pieces) && EndsWith(JoinSpaces(pieces), pieces[|pieces| - 1])
  {
    if |pieces| > 1 {
      var rest := pieces[1..];
      JoinSpacesEnds(rest);
      var j := JoinSpaces(pieces);
      var r := JoinSpaces(rest);
      var last := pieces[|pieces| - 1];
      assert j == pieces[0] + " " + r;
      assert rest[|rest| - 1] == last;
      assert j[|j| - |last|..] == r[|r| - |last|..];
    }
  }

  /** Joining non-empty trimmed pieces gives a trimmed string. */
  lemma JoinSpacesTrimmed(pieces: seq<string>)
    requires forall k :: 0 <= k < |pieces| ==> pieces[k] != [] && Trimmed(pieces[k])
    ensures Trimmed(JoinSpaces(pieces))
  {
    JoinSpacesEnds(pieces);
    if pieces != [] {
      var j := JoinSpaces(pieces);
      var last := pieces[|pieces| - 1];
      assert j[0] == pieces[0][0];
      assert j[|j| - 1] == j[|j| - |last|..][|last| - 1] == last[|last| - 1];
    }
  }
}
