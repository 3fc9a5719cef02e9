/** Whitespace trimming as JavaScript's String.prototype.trim performs it. */
module Text {

  /** The characters trim removes from both ends, in code point order:
      ECMAScript WhiteSpace (tab, vertical tab, form feed, space, no-break
      space, the other Unicode space separators and the byte order mark) and
      LineTerminator (line feed, carriage return, line separator, paragraph
      separator). */
  const WhitespaceChars: string :=
    "\t\n\U{B}\U{C}\r \U{A0}\U{1680}"
    + "\U{2000}\U{2001}\U{2002}\U{2003}\U{2004}\U{2005}\U{2006}\U{2007}\U{2008}\U{2009}\U{200A}"
    + "\U{2028}\U{2029}\U{202F}\U{205F}\U{3000}\U{FEFF}"

  predicate IsWhitespace(c: char) {
    Occurs(c, WhitespaceChars)
  }

  /** `c` is one of the characters of `cs`. */
  predicate Occurs(c: char, cs: string) {
    cs != [] && (cs[0] == c || Occurs(c, cs[1..]))
  }

  /** `Occurs` is membership in the sequence of characters. */
  lemma {:induction false} OccursIsMembership(c: char, cs: string)
    ensures Occurs(c, cs) <==> c in cs
    decreases |cs|
  {
    if cs != [] {
      OccursIsMembership(c, cs[1..]);
      assert cs == [cs[0]] + cs[1..];
    }
  }

  /** No visible ASCII character ('!' to '~') is whitespace. */
  lemma VisibleAsciiNotWhitespace(c: char)
    requires '!' <= c <= '~'
    ensures !IsWhitespace(c)
  {
    OccursIsMembership(c, WhitespaceChars);
    assert forall i :: 0 <= i < |WhitespaceChars| ==> WhitespaceChars[i] < '!' || '~' < WhitespaceChars[i];
  }

  /** Every character of `s` at a position in [lo, hi) is whitespace. */
  predicate BlankBetween(s: string, lo: nat, hi: nat)
    requires lo <= hi <= |s|
  {
    forall i :: lo <= i < hi ==> IsWhitespace(s[i])
  }

  /** Every character of `s` is whitespace (the empty string included). */
  predicate Blank(s: string) {
    BlankBetween(s, 0, |s|)
  }

  /** `s` neither starts nor ends with whitespace. */
  predicate Unpadded(s: string) {
    s == [] || (!IsWhitespace(s[0]) && !IsWhitespace(s[|s| - 1]))
  }

  /** The position of the first non-whitespace character of `s` at or after
      `from`, or |s| when there is none: everything skipped is whitespace. */
  function FirstNonBlank(s: string, from: nat): (n: nat)
    requires from <= |s|
    ensures from <= n <= |s| && BlankBetween(s, from, n)
    ensures n < |s| ==> !IsWhitespace(s[n])
    decreases |s| - from
  {
    if from < |s| && IsWhitespace(s[from]) then FirstNonBlank(s, from + 1) else from
  }

  /** The end of the text in s[lo..hi] once its trailing whitespace is
      dropped: everything dropped is whitespace, and the character before the
      end (if it lies in the range) is not. */
  function EndOfNonBlank(s: string, lo: nat, hi: nat): (n: nat)
    requires lo <= hi <= |s|
    ensures lo <= n <= hi && BlankBetween(s, n, hi)
    ensures lo < n ==> !IsWhitespace(s[n - 1])
    decreases hi
  {
    if lo < hi && IsWhitespace(s[hi - 1]) then EndOfNonBlank(s, lo, hi - 1) else hi
  }

  /** String.prototype.trim: whitespace removed from both ends. The result is
      unpadded, and it is empty exactly when the input is blank. */
  function Trim(s: string): (r: string)
    ensures |r| <= |s| && Unpadded(r)
    ensures r == [] <==> Blank(s)
  {
    var i := FirstNonBlank(s, 0);
    var j := EndOfNonBlank(s, i, |s|);
    s[i..j]
  }

  /** FirstNonBlank stops exactly at the first non-whitespace position. */
  lemma {:induction false} FirstNonBlankIs(s: string, from: nat, i: nat)
    requires from <= i <= |s| && BlankBetween(s, from, i)
    requires i < |s| ==> !IsWhitespace(s[i])
    ensures FirstNonBlank(s, from) == i
    decreases i - from
  {
    if from < i {
      FirstNonBlankIs(s, from + 1, i);
    }
  }

  /** EndOfNonBlank stops exactly after the last non-whitespace position. */
  lemma {:induction false} EndOfNonBlankIs(s: string, lo: nat, hi: nat, j: nat)
    requires lo <= j <= hi <= |s| && BlankBetween(s, j, hi)
    requires lo < j ==> !IsWhitespace(s[j - 1])
    ensures EndOfNonBlank(s, lo, hi) == j
    decreases hi
  {
    if j < hi {
      EndOfNonBlankIs(s, lo, hi - 1, j);
    }
  }

  /** Trim is determined by its meaning: whatever unpadded slice of `s` has
      only whitespace before and after it is the trimmed string. */
  lemma TrimOfSplit(s: string, i: nat, j: nat)
    requires i <= j <= |s| && BlankBetween(s, 0, i) && BlankBetween(s, j, |s|)
    requires Unpadded(s[i..j])
    ensures Trim(s) == s[i..j]
  {
    if i < j {
      assert s[i..j][0] == s[i] && s[i..j][j - i - 1] == s[j - 1];
      FirstNonBlankIs(s, 0, i);
      EndOfNonBlankIs(s, i, |s|, j);
    } else {
      assert Blank(s);
    }
  }

  /** Both directions of the characterisation: `m` is the trim of `s` exactly
      when `s` splits into a blank prefix, the unpadded `m`, and a blank
      suffix. */
  lemma TrimCharacterized(s: string, m: string)
    ensures Trim(s) == m <==>
      exists i, j :: 0 <= i <= j <= |s| && s[i..j] == m && BlankBetween(s, 0, i) && BlankBetween(s, j, |s|) && Unpadded(m)
  {
    if Trim(s) == m {
      var i := FirstNonBlank(s, 0);
      var j := EndOfNonBlank(s, i, |s|);
      assert BlankBetween(s, 0, i) && BlankBetween(s, j, |s|) && s[i..j] == m;
    }
    forall i, j | 0 <= i <= j <= |s| && s[i..j] == m && BlankBetween(s, 0, i) && BlankBetween(s, j, |s|) && Unpadded(m)
      ensures Trim(s) == m
    {
      TrimOfSplit(s, i, j);
    }
  }

  /** Trimming twice is trimming once. */
  lemma TrimIdempotent(s: string)
    ensures Trim(Trim(s)) == Trim(s)
  {
    var t := Trim(s);
    assert t[0..|t|] == t;
    TrimOfSplit(t, 0, |t|);
  }

  /** A string whose first and last characters are visible ASCII is its own
      trim, and it is not blank. */
  lemma TrimKeepsVisibleEnds(s: string)
    requires s != [] && '!' <= s[0] <= '~' && '!' <= s[|s| - 1] <= '~'
    ensures Trim(s) == s && !Blank(s)
  {
    VisibleAsciiNotWhitespace(s[0]);
    VisibleAsciiNotWhitespace(s[|s| - 1]);
    assert s[0..|s|] == s;
    TrimOfSplit(s, 0, |s|);
  }
}
