/** What the letter case of a URI means to the parser of containers/core/containers_uri.c: nothing in the digits of an
    escape (section 2.1 of RFC 3986), and a drive letter may have either. */
module UriCase {
  import opened Common
  import opened UriText
  import opened UriSpec

  predicate Hexadecimal(c: Chr)
  {
    c in UPPER_DIGITS || c in LOWER_DIGITS
  }

  /** Two characters that are the same digit, if in different cases. */
  ghost predicate SameDigit(a: Chr, b: Chr)
  {
    exists v: bv8 :: v < 16 && a in {UPPER_DIGITS[v], LOWER_DIGITS[v]} && b in {UPPER_DIGITS[v], LOWER_DIGITS[v]}
  }

  /** Every % has two hexadecimal digits behind it. */
  ghost predicate WellEscaped(s: Str)
  {
    forall i :: 0 <= i < |s| && s[i] == PERCENT ==>
      i + 2 < |s| && Hexadecimal(s[i + 1]) && Hexadecimal(s[i + 2])
  }

  predicate BehindPercent(s: Str, i: nat)
    requires i < |s|
  {
    (i >= 1 && s[i - 1] == PERCENT) || (i >= 2 && s[i - 2] == PERCENT)
  }

  /** The strings differ at most in the case of the digits of their escapes. */
  ghost predicate SameBut(s: Str, t: Str)
  {
    && |s| == |t| && WellEscaped(s)
    && forall i {:trigger s[i]} {:trigger t[i]} :: 0 <= i < |s| ==>
         s[i] == t[i] || (SameDigit(s[i], t[i]) && BehindPercent(s, i))
  }

  lemma DigitFacts(a: Chr, b: Chr)
    requires SameDigit(a, b)
    ensures FromHexDigit(a) == FromHexDigit(b) && Hexadecimal(a) && Hexadecimal(b)
  {
    hide FromHexDigit, Hexadecimal;
    var v: bv8 :| v < 16 && a in {UPPER_DIGITS[v], LOWER_DIGITS[v]} && b in {UPPER_DIGITS[v], LOWER_DIGITS[v]};
    DigitIs(a, v);
    DigitIs(b, v);
  }

  lemma DigitIs(a: Chr, v: bv8)
    requires v < 16 && a in {UPPER_DIGITS[v], LOWER_DIGITS[v]}
    ensures FromHexDigit(a) == v && Hexadecimal(a)
  {
    hide FromHexDigit;
    DigitValue(v);
    assert UPPER_DIGITS[v] in UPPER_DIGITS && LOWER_DIGITS[v] in LOWER_DIGITS;
  }

  lemma NoPercentDigit()
    ensures !Hexadecimal(PERCENT)
  {
  }

  /** No escape goes across position n. */
  predicate Whole(s: Str, n: nat)
    requires n <= |s|
  {
    (n >= 1 ==> s[n - 1] != PERCENT) && (n >= 2 ==> s[n - 2] != PERCENT)
  }

  lemma SameSlices(s: Str, t: Str, n: nat)
    requires SameBut(s, t) && n <= |s| && Whole(s, n)
    ensures SameBut(s[..n], t[..n]) && SameBut(s[n..], t[n..])
  {
    hide Hexadecimal, SameDigit;
    forall i | 0 <= i < |s| - n && s[n..][i] == PERCENT
      ensures i + 2 < |s| - n && Hexadecimal(s[n..][i + 1]) && Hexadecimal(s[n..][i + 2])
    {
      assert s[n + i] == PERCENT;
    }
    forall i | 0 <= i < n && s[..n][i] == PERCENT
      ensures i + 2 < n && Hexadecimal(s[..n][i + 1]) && Hexadecimal(s[..n][i + 2])
    {
      assert s[i] == PERCENT;
    }
    forall i | 0 <= i < |s| - n
      ensures s[n..][i] == t[n..][i] || (SameDigit(s[n..][i], t[n..][i]) && BehindPercent(s[n..], i))
    {
      assert s[n + i] == t[n + i] || BehindPercent(s, n + i);
    }
  }

  /** Cutting at a delimiter, which no escape contains. */
  lemma SameCut(s: Str, t: Str, delimiters: Str)
    requires SameBut(s, t) && forall d :: d in delimiters ==> d != PERCENT && !Hexadecimal(d)
    ensures var n := Find(s, delimiters);
            && Find(t, delimiters) == n && SameBut(s[..n], t[..n]) && SameBut(s[n..], t[n..])
            && (n < |s| ==> s[n] == t[n] && SameBut(s[n + 1..], t[n + 1..]) && SameBut(s[..n + 1], t[..n + 1]))
  {
    hide Hexadecimal, SameDigit, Find;
    var n := Find(s, delimiters);
    NoPercentDigit();
    forall i | 0 <= i < |s| && SameDigit(s[i], t[i]) ensures Hexadecimal(s[i]) && Hexadecimal(t[i]) {
      DigitFacts(s[i], t[i]);
    }
    FindUnique(t, delimiters, n);
    SameSlices(s, t, n);
    if n < |s| {
      SameSlices(s, t, n + 1);
    }
  }

  /** The same stretch in both spellings. */
  lemma {:induction false} SameUnescaped(s: Str, t: Str)
    requires SameBut(s, t)
    ensures Unescape(s) == Unescape(t)
    decreases |s|
  {
    hide Hexadecimal, SameDigit, FromHexDigit;
    NoPercentDigit();
    if s != [] {
      if s[0] == PERCENT {
        Digit(s[1], t[1]);
        Digit(s[2], t[2]);
        SameSlices(s, t, 3);
        SameUnescaped(s[3..], t[3..]);
      } else {
        SameSlices(s, t, 1);
        SameUnescaped(s[1..], t[1..]);
      }
    }
  }

  lemma Digit(a: Chr, b: Chr)
    requires a == b || SameDigit(a, b)
    ensures FromHexDigit(a) == FromHexDigit(b)
  {
    hide SameDigit, FromHexDigit;
    if a != b {
      DigitFacts(a, b);
    }
  }

  lemma SameText(s: Str, t: Str)
    requires SameBut(s, t)
    ensures Text(s) == Text(t)
  {
    hide SameBut, Unescape;
    SameUnescaped(s, t);
  }

  predicate IsDelimiter(d: Chr)
  {
    || d in SCHEME_DELIMITERS || d in NETWORK_DELIMITERS || d in HOST_PORT_DELIMITERS || d in PATH_DELIMITERS
    || d in QUERY_DELIMITERS || d in SEPARATORS || d in [EQUALS] || d in [COLON] || d in [CLOSE]
  }

  /** None of the delimiters is part of an escape. */
  lemma DelimiterPlain(d: Chr)
    requires IsDelimiter(d)
    ensures d != PERCENT && !Hexadecimal(d)
  {
  }

  lemma AllPlain()
    ensures forall d :: IsDelimiter(d) ==> d != PERCENT && !Hexadecimal(d)
  {
    hide Hexadecimal, IsDelimiter;
    forall d | IsDelimiter(d)
      ensures d != PERCENT && !Hexadecimal(d)
    {
      DelimiterPlain(d);
    }
  }

  lemma SameItem(s: Str, t: Str)
    requires SameBut(s, t)
    ensures DecodeAll(ItemOf(s)) == DecodeAll(ItemOf(t))
  {
    AllPlain();
    hide SameBut, Text, Hexadecimal, Find;
    SameCut(s, t, [EQUALS]);
    var e := Find(s, [EQUALS]);
    SameLength(s, t);
    SameText(s[..e], t[..e]);
    if e < |s| {
      SameText(s[e + 1..], t[e + 1..]);
    }
  }

  lemma SameLength(s: Str, t: Str)
    requires SameBut(s, t)
    ensures |s| == |t|
  {
    hide WellEscaped;
  }

  lemma {:induction false} SameQueries(s: Str, t: Str)
    requires SameBut(s, t)
    ensures ParseQueries(s) == ParseQueries(t)
    decreases |s|
  {
    AllPlain();
    hide SameBut, Hexadecimal, Find, ItemOf, DecodeAll, Fields;
    SameCut(s, t, SEPARATORS);
    SameLength(s, t);
    var n := Find(s, SEPARATORS);
    FieldsStep(s);
    FieldsStep(t);
    SameItem(s[..n], t[..n]);
    if n < |s| {
      SameQueries(s[n + 1..], t[n + 1..]);
      DecodeConcat(ItemOf(s[..n]), Fields(s[n + 1..]));
      DecodeConcat(ItemOf(t[..n]), Fields(t[n + 1..]));
    } else {
      DecodeConcat(ItemOf(s[..n]), []);
      DecodeConcat(ItemOf(t[..n]), []);
    }
  }

  /** Both start with the same character, unless that is in the middle of an escape. */
  lemma SameStart(s: Str, t: Str)
    requires SameBut(s, t)
    ensures |s| == |t| && (s != [] ==> s[0] == t[0] && (s[0] != PERCENT ==> SameBut(s[1..], t[1..])))
  {
    hide Hexadecimal, SameDigit;
    if s != [] && s[0] != PERCENT {
      SameSlices(s, t, 1);
    }
  }

  lemma SameFragment(s: Str, t: Str)
    requires SameBut(s, t)
    ensures ParseFragment(s) == ParseFragment(t)
  {
    hide SameBut, Text;
    SameStart(s, t);
    if StartsWith(s, HASH) {
      SameText(s[1..], t[1..]);
    }
  }

  lemma SameEnd(s: Str, t: Str)
    requires SameBut(s, t)
    ensures ParseEnd(s) == ParseEnd(t)
  {
    AllPlain();
    hide SameBut, Hexadecimal, ParseQueries, ParseFragment, Find;
    SameStart(s, t);
    if StartsWith(s, QUESTION) {
      SameCut(s[1..], t[1..], QUERY_DELIMITERS);
      var n := Find(s[1..], QUERY_DELIMITERS);
      SameQueries(s[1..][..n], t[1..][..n]);
      SameFragment(s[1..][n..], t[1..][n..]);
    } else {
      SameFragment(s, t);
    }
  }

  lemma SameTail(scheme: Option<Str>, authority: Authority, s: Str, t: Str)
    requires SameBut(s, t)
    ensures ParseTail(scheme, authority, s) == ParseTail(scheme, authority, t)
  {
    AllPlain();
    hide SameBut, Hexadecimal, ParseEnd, Find, Text;
    SameCut(s, t, PATH_DELIMITERS);
    var m := Find(s, PATH_DELIMITERS);
    SameText(s[..m], t[..m]);
    SameEnd(s[m..], t[m..]);
  }

  lemma SameHostEnd(s: Str, t: Str)
    requires SameBut(s, t)
    ensures var e := HostEnd(s); HostEnd(t) == e && SameBut(s[..e], t[..e]) && SameBut(s[e..], t[e..])
  {
    AllPlain();
    hide SameBut, Hexadecimal, Find;
    SameStart(s, t);
    SameCut(s, t, [COLON]);
    SameCut(s, t, [CLOSE]);
    assert s[..|s|] == s && t[..|t|] == t && s[|s|..] == [] == t[|t|..];
    SameNothing();
  }

  lemma SameNothing()
    ensures SameBut([], [])
  {
  }

  lemma SameHostPort(userinfo: Option<Str>, s: Str, t: Str)
    requires SameBut(s, t)
    ensures ParseHostPort(userinfo, s) == ParseHostPort(userinfo, t)
  {
    hide SameBut, HostEnd, Text, Lower;
    SameHostEnd(s, t);
    var e := HostEnd(s);
    SameText(s[..e], t[..e]);
    SameStart(s[e..], t[e..]);
    if StartsWith(s[e..], COLON) {
      SameText(s[e..][1..], t[e..][1..]);
    }
  }

  lemma SameAuthority(s: Str, t: Str)
    requires SameBut(s, t)
    ensures ParseAuthority(s).0 == ParseAuthority(t).0 && SameBut(ParseAuthority(s).1, ParseAuthority(t).1)
  {
    AllPlain();
    hide SameBut, Hexadecimal, ParseHostPort, Find, Text;
    SameCut(s, t, NETWORK_DELIMITERS);
    SameLength(s, t);
    var m := Find(s, NETWORK_DELIMITERS);
    SameStart(s[m..], t[m..]);
    if StartsWith(s[m..], AT) {
      var n := Find(s[m + 1..], HOST_PORT_DELIMITERS);
      SameText(s[..m], t[..m]);
      SameCut(s[m + 1..], t[m + 1..], HOST_PORT_DELIMITERS);
      SameHostPort(Some(Text(s[..m])), s[m + 1..][..n], t[m + 1..][..n]);
    } else {
      var n := Find(s, HOST_PORT_DELIMITERS);
      SameCut(s, t, HOST_PORT_DELIMITERS);
      SameHostPort(None, s[..n], t[..n]);
    }
  }

  lemma SameHier(scheme: Option<Str>, s: Str, t: Str)
    requires SameBut(s, t)
    ensures ParseHier(scheme, s) == ParseHier(scheme, t)
  {
    hide SameBut, ParseAuthority, ParseTail;
    SameStart(s, t);
    if |s| >= 2 && s[0] == SLASH {
      SameStart(s[1..], t[1..]);
      assert s[1..][1..] == s[2..] && t[1..][1..] == t[2..];
    }
    if DoubleSlash(s) {
      SameAuthority(s[2..], t[2..]);
      SameTail(scheme, ParseAuthority(s[2..]).0, ParseAuthority(s[2..]).1, ParseAuthority(t[2..]).1);
    } else {
      SameTail(scheme, NO_AUTHORITY, s, t);
    }
  }

  /** Parsing does not depend on the case of the digits of any escape; only a DOS name is kept as it was written. */
  lemma ParseIgnoresDigitCase(s: Str, t: Str)
    requires SameBut(s, t)
    ensures Parse(s) == Parse(t) || (DosPath(s) && Parse(s).path == Some(s) && Parse(t).path == Some(t))
  {
    AllPlain();
    DosPaths(s);
    DosPaths(t);
    hide SameBut, Hexadecimal, ParseHier, Find, Text, Lower, DosPath;
    SameCut(s, t, SCHEME_DELIMITERS);
    SameLength(s, t);
    var m := Find(s, SCHEME_DELIMITERS);
    SameStart(s[m..], t[m..]);
    SameDos(s, t);
    if StartsWith(s[m..], COLON) {
      SameText(s[..m], t[..m]);
      SameHier(Some(Lower(Text(s[..m]))), s[m + 1..], t[m + 1..]);
    } else {
      SameHier(None, s, t);
    }
  }

  // ---------- drive letters ----------

  /** A letter of either case, a colon and a backslash. */
  predicate DosPath(uri: Str)
  {
    && |uri| > 2 && (uri[0] in UPPER_LETTERS || uri[0] in LOWER_LETTERS) && uri[1] == COLON && uri[2] == BACKSLASH
  }

  lemma Letters(c: Chr)
    ensures IsAlpha(c) <==> c in UPPER_LETTERS || c in LOWER_LETTERS
  {
    if 0x41 <= c <= 0x5A {
      LettersInOrder(c - 0x41);
      assert UPPER_LETTERS[c - 0x41] in UPPER_LETTERS;
    } else if 0x61 <= c <= 0x7A {
      LettersInOrder(c - 0x61);
      assert LOWER_LETTERS[c - 0x61] in LOWER_LETTERS;
    }
    if c in UPPER_LETTERS {
      UpperRange(c);
    } else if c in LOWER_LETTERS {
      LowerRange(c);
    }
    hide UPPER_LETTERS, LOWER_LETTERS;
  }

  lemma UpperRange(c: Chr)
    requires c in UPPER_LETTERS
    ensures 0x41 <= c <= 0x5A
  {
  }

  lemma LowerRange(c: Chr)
    requires c in LOWER_LETTERS
    ensures 0x61 <= c <= 0x7A
  {
  }

  lemma LetterPlain(c: Chr)
    requires IsAlpha(c)
    ensures c !in SCHEME_DELIMITERS
  {
  }

  /** Exactly the strings that start with a drive letter, a colon and a backslash are taken for a path as they stand. */
  lemma DosPaths(uri: Str)
    ensures var m := Find(uri, SCHEME_DELIMITERS);
            DosPath(uri) <==> StartsWith(uri[m..], COLON) && DosName(uri, m)
    ensures DosPath(uri) ==> Parse(uri) == Parts(None, NO_AUTHORITY, Some(uri), [], None)
  {
    hide Find, IsAlpha, UPPER_LETTERS, LOWER_LETTERS, ParseHier;
    if |uri| > 2 {
      Letters(uri[0]);
      if DosPath(uri) {
        LetterPlain(uri[0]);
        FindUnique(uri, SCHEME_DELIMITERS, 1);
      }
    }
  }

  lemma SameDos(s: Str, t: Str)
    requires SameBut(s, t)
    ensures DosPath(s) <==> DosPath(t)
  {
    hide Hexadecimal, SameDigit, UPPER_LETTERS, LOWER_LETTERS;
    NoPercentLetter();
  }

  lemma NoPercentLetter()
    ensures PERCENT !in UPPER_LETTERS && PERCENT !in LOWER_LETTERS
  {
  }
}
