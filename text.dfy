/** The parts of java.lang.String that the services rely on: case
    conversion, case-insensitive comparison, substring search, blank tests,
    trimming, splitting on ',' or '.', and Boolean.valueOf.
    Strings are sequences of UTF-16 code units, as in Java. */
module Text {
  import opened Common

  // ---------------------------------------------------------------------------
  // Case mapping

  predicate IsAsciiUpper(c: char) { 'A' <= c <= 'Z' }
  predicate IsAsciiLower(c: char) { 'a' <= c <= 'z' }

  /** Character.toUpperCase, for the ASCII letters and for the two
      non-ASCII characters whose upper case is an ASCII letter
      (dotless i and long s). Any other character is left as it is. */
  function UpperChar(c: char): (u: char)
    ensures IsAsciiLower(c) ==> IsAsciiUpper(u)
    ensures !IsAsciiLower(c) && c != '\U{0131}' && c != '\U{017F}' ==> u == c
  {
    if IsAsciiLower(c) then (c as int - 32) as char
    else if c == '\U{0131}' then 'I'
    else if c == '\U{017F}' then 'S'
    else c
  }

  /** Character.toLowerCase, for the ASCII letters and for the two
      non-ASCII characters whose lower case is an ASCII letter
      (dotted capital I and the Kelvin sign). */
  function LowerChar(c: char): (l: char)
    ensures IsAsciiUpper(c) ==> IsAsciiLower(l)
    ensures !IsAsciiUpper(c) && c != '\U{0130}' && c != '\U{212A}' ==> l == c
  {
    if IsAsciiUpper(c) then (c as int + 32) as char
    else if c == '\U{0130}' then 'i'
    else if c == '\U{212A}' then 'k'
    else c
  }

  /** The character test of String.equalsIgnoreCase (String.regionMatches
      with ignoreCase): equal, or equal upper cases, or equal lower cases
      of the upper cases. */
  predicate CharEqualsIgnoreCase(a: char, b: char)
  {
    a == b || UpperChar(a) == UpperChar(b) || LowerChar(UpperChar(a)) == LowerChar(UpperChar(b))
  }

  /** String.equalsIgnoreCase for two non-null strings. */
  predicate EqualsIgnoreCase(a: string, b: string)
  {
    |a| == |b| && forall i :: 0 <= i < |a| ==> CharEqualsIgnoreCase(a[i], b[i])
  }

  /** The canonical upper-case letter a character stands for when it is
      compared, ignoring case, with an upper-case ASCII letter. */
  function Fold(c: char): char
  {
    if c == '\U{0130}' then 'I'
    else if c == '\U{212A}' then 'K'
    else UpperChar(c)
  }

  /** Compared with an upper-case ASCII letter, equalsIgnoreCase is
      equality after Fold. */
  lemma CharEqualsUpperIffFold(letter: char, c: char)
    requires IsAsciiUpper(letter)
    ensures CharEqualsIgnoreCase(letter, c) <==> Fold(c) == letter
  {
  }

  predicate IsUpperWord(w: string)
  {
    forall i :: 0 <= i < |w| ==> IsAsciiUpper(w[i])
  }

  function FoldString(s: string): (r: string)
    ensures |r| == |s|
    ensures forall i :: 0 <= i < |s| ==> r[i] == Fold(s[i])
  {
    seq(|s|, i requires 0 <= i < |s| => Fold(s[i]))
  }

  /** Compared with an upper-case ASCII word, equalsIgnoreCase is equality
      after folding every character. */
  lemma EqualsUpperWordIffFold(w: string, s: string)
    requires IsUpperWord(w)
    ensures EqualsIgnoreCase(w, s) <==> FoldString(s) == w
  {
    if EqualsIgnoreCase(w, s) {
      forall i | 0 <= i < |w| ensures FoldString(s)[i] == w[i] {
        CharEqualsUpperIffFold(w[i], s[i]);
      }
    }
    if FoldString(s) == w {
      forall i | 0 <= i < |w| ensures CharEqualsIgnoreCase(w[i], s[i]) {
        CharEqualsUpperIffFold(w[i], s[i]);
      }
    }
  }

  /** ASCII lower-casing: 'A'..'Z' become 'a'..'z' and every other
      character is kept. This is narrower than String.toLowerCase, which
      also lower-cases non-ASCII letters (U+212A KELVIN SIGN to 'k', for
      one) and depends on the default locale. */
  function AsciiLowerChar(c: char): (l: char)
    ensures !IsAsciiUpper(l)
    ensures IsAsciiUpper(c) ==> l as int == c as int + 32
    ensures !IsAsciiUpper(c) ==> l == c
  {
    if IsAsciiUpper(c) then (c as int + 32) as char else c
  }

  function ToLower(s: string): (r: string)
    ensures |r| == |s|
    ensures forall i :: 0 <= i < |s| ==> r[i] == AsciiLowerChar(s[i])
  {
    seq(|s|, i requires 0 <= i < |s| => AsciiLowerChar(s[i]))
  }

  /** Folding the lower-case spelling of an upper-case word gives the
      word back. */
  lemma FoldToLowerUpperWord(w: string)
    requires IsUpperWord(w)
    ensures FoldString(ToLower(w)) == w
  {
    forall i | 0 <= i < |w| ensures FoldString(ToLower(w))[i] == w[i] {
      assert ToLower(w)[i] == AsciiLowerChar(w[i]);
    }
  }

  // ---------------------------------------------------------------------------
  // Substring search

  /** `t` occurs in `s` starting at position `i`. */
  predicate OccursAt(s: string, t: string, i: int)
  {
    0 <= i && i + |t| <= |s| && s[i..i + |t|] == t
  }

  /** String.contains: `t` occurs in `s` at some position. */
  function Contains(s: string, t: string): (b: bool)
    decreases |s|
  {
    if |t| > |s| then false
    else if s[..|t|] == t then true
    else Contains(s[1..], t)
  }

  /** A slice of the tail is the slice of `s` one position further on. */
  lemma SliceOfTail(s: string, i: int, n: int)
    requires 1 <= i && 0 <= n && i + n <= |s|
    ensures s[1..][i - 1..i - 1 + n] == s[i..i + n]
  {
    var a, b := s[1..][i - 1..i - 1 + n], s[i..i + n];
    assert |a| == |b| == n;
    forall k | 0 <= k < n ensures a[k] == b[k] {
      assert a[k] == s[1..][i - 1 + k];
    }
  }

  /** The search is exact: it succeeds if and only if there is a position
      where `t` occurs. */
  lemma {:induction false} ContainsIffOccurs(s: string, t: string)
    ensures Contains(s, t) <==> exists i :: OccursAt(s, t, i)
    decreases |s|
  {
    if |t| > |s| {
    } else if s[..|t|] == t {
      assert OccursAt(s, t, 0);
    } else {
      forall i | OccursAt(s, t, i) && i > 0 ensures OccursAt(s[1..], t, i - 1) {
        SliceOfTail(s, i, |t|);
      }
      ContainsIffOccurs(s[1..], t);
      if Contains(s, t) {
        var i :| OccursAt(s[1..], t, i);
        SliceOfTail(s, i + 1, |t|);
        assert OccursAt(s, t, i + 1);
      }
    }
  }

  // ---------------------------------------------------------------------------
  // Blank strings and trimming

  /** Character.isWhitespace: the Unicode space, line and paragraph
      separators other than the non-breaking ones, and the ASCII controls
      HT, LF, VT, FF, CR and FS, GS, RS, US. */
  predicate IsWhitespace(c: char)
  {
    c == ' ' || ('\t' <= c <= '\r') || ('\U{001C}' <= c <= '\U{001F}')
    || c == '\U{1680}' || ('\U{2000}' <= c <= '\U{2006}') || ('\U{2008}' <= c <= '\U{200A}')
    || c == '\U{2028}' || c == '\U{2029}' || c == '\U{205F}' || c == '\U{3000}'
  }

  /** String.isBlank: empty or only whitespace. */
  predicate IsBlank(s: string)
  {
    forall i :: 0 <= i < |s| ==> IsWhitespace(s[i])
  }

  /** The characters String.trim removes: code points up to the space. */
  predicate IsTrimmed(c: char) { c <= ' ' }

  /** Every character of s[lo..hi] is one trim removes. */
  predicate TrimmedBetween(s: string, lo: int, hi: int)
  {
    forall k :: 0 <= lo <= k < hi <= |s| ==> IsTrimmed(s[k])
  }

  /** The first index at or after `i` whose character trim keeps, or |s|
      (the forward cursor of String.trim). */
  function SkipTrimmed(s: string, i: nat): (r: nat)
    requires i <= |s|
    ensures i <= r <= |s| && TrimmedBetween(s, i, r)
    ensures r == |s| || !IsTrimmed(s[r])
    decreases |s| - i
  {
    if i < |s| && IsTrimmed(s[i]) then SkipTrimmed(s, i + 1) else i
  }

  /** The end of s[..j] with its trailing trimmed characters dropped,
      never before `lo` (the backward cursor of String.trim). */
  function BackTrimmed(s: string, lo: nat, j: nat): (r: nat)
    requires lo <= j <= |s|
    ensures lo <= r <= j && TrimmedBetween(s, r, j)
    ensures r == lo || !IsTrimmed(s[r - 1])
    decreases j
  {
    if j > lo && IsTrimmed(s[j - 1]) then BackTrimmed(s, lo, j - 1) else j
  }

  /** Where the part trim keeps begins. */
  function TrimStartIndex(s: string): nat
    ensures TrimStartIndex(s) <= |s|
  {
    SkipTrimmed(s, 0)
  }

  /** Where the part trim keeps ends. */
  function TrimEndIndex(s: string): nat
    ensures TrimStartIndex(s) <= TrimEndIndex(s) <= |s|
  {
    BackTrimmed(s, TrimStartIndex(s), |s|)
  }

  /** `r` is the slice s[i..j] and everything outside it is trimmed. */
  predicate TrimmedSliceAt(s: string, r: string, i: int, j: int)
  {
    && 0 <= i <= j <= |s| && r == s[i..j]
    && TrimmedBetween(s, 0, i) && TrimmedBetween(s, j, |s|)
  }

  /** String.trim: drop the leading and trailing characters up to ' '.
      What is kept is a contiguous slice of the input, and it neither
      starts nor ends with a character trim removes. */
  function Trim(s: string): (r: string)
    ensures TrimmedSliceAt(s, r, TrimStartIndex(s), TrimEndIndex(s))
    ensures r == [] || (!IsTrimmed(r[0]) && !IsTrimmed(r[|r| - 1]))
  {
    var i, j := TrimStartIndex(s), TrimEndIndex(s);
    var r := s[i..j];
    assert r != [] ==> r[0] == s[i] && r[|r| - 1] == s[j - 1];
    r
  }

  /** Trim leaves a string unchanged exactly when the string neither
      starts nor ends with a character trim removes. */
  lemma TrimFixedPoint(t: string)
    ensures Trim(t) == t <==> (t == [] || (!IsTrimmed(t[0]) && !IsTrimmed(t[|t| - 1])))
  {
  }

  // ---------------------------------------------------------------------------
  // Splitting on ',' and '.'

  /** The characters the regular expression "[,.]" matches. */
  predicate IsSeparator(c: char) { c == ',' || c == '.' }

  predicate NoSeparator(s: string)
  {
    forall i :: 0 <= i < |s| ==> !IsSeparator(s[i])
  }

  /** The pieces of `s` between separators, in order, empty pieces
      included. (String.split also drops trailing empty pieces; the
      search drops every empty piece afterwards, so that does not show.) */
  function Split(s: string): (r: seq<string>)
    ensures |r| >= 1
    ensures forall k :: 0 <= k < |r| ==> NoSeparator(r[k])
  {
    if s == [] then [[]]
    else if IsSeparator(s[0]) then [[]] + Split(s[1..])
    else
      var rest := Split(s[1..]);
      [[s[0]] + rest[0]] + rest[1..]
  }

  /** The separators of `s`, in order. */
  function Separators(s: string): (r: string)
  {
    if s == [] then []
    else if IsSeparator(s[0]) then [s[0]] + Separators(s[1..])
    else Separators(s[1..])
  }

  /** The pieces put back together, the i-th separator between the i-th
      and the (i+1)-th piece. */
  function Join(pieces: seq<string>, seps: string): string
    requires |pieces| == |seps| + 1
  {
    if |pieces| == 1 then pieces[0]
    else pieces[0] + [seps[0]] + Join(pieces[1..], seps[1..])
  }

  /** Splitting loses nothing: there is one more piece than there are
      separators, and joining the pieces with the separators gives back
      the original string. */
  lemma {:induction false} SplitJoin(s: string)
    ensures |Split(s)| == |Separators(s)| + 1
    ensures Join(Split(s), Separators(s)) == s
  {
    if s == [] {
    } else if IsSeparator(s[0]) {
      SplitJoin(s[1..]);
      assert Split(s)[1..] == Split(s[1..]);
    } else {
      SplitJoin(s[1..]);
      var rest := Split(s[1..]);
      var seps := Separators(s[1..]);
      if |rest| == 1 {
      } else {
        assert Split(s)[1..] == rest[1..];
        assert Join(Split(s), seps) == [s[0]] + rest[0] + [seps[0]] + Join(rest[1..], seps[1..]);
      }
    }
  }

  // ---------------------------------------------------------------------------
  // Boolean.valueOf

  /** Boolean.valueOf(String): true exactly for a non-null string equal to
      "true" ignoring case. */
  function BooleanValueOf(s: Option<string>): (b: bool)
  {
    s.Some? && EqualsIgnoreCase("true", s.value)
  }

  /** Boolean.toString. */
  function BooleanToString(b: bool): (s: string)
  {
    if b then "true" else "false"
  }

  /** Rendering a boolean and parsing it back gives the same boolean. */
  lemma BooleanRoundTrip(b: bool)
    ensures BooleanValueOf(Some(BooleanToString(b))) == b
  {
    if !b {
      assert !CharEqualsIgnoreCase("true"[0], "false"[0]);
    }
  }
}
