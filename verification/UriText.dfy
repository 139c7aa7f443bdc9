/** Characters, reserved-character tables and escaping of containers/core/containers_uri.c (section 2.1 of RFC 3986). */
module UriText {
  import opened Common

  type Chr = bv8

  type Str = seq<Chr>

  /** What a C string can hold: everything but the terminating NUL. */
  predicate NulFree(s: Str)
  {
    0 !in s
  }

  const PERCENT: Chr := 0x25
  const AMPERSAND: Chr := 0x26
  const SLASH: Chr := 0x2F
  const COLON: Chr := 0x3A
  const SEMICOLON: Chr := 0x3B
  const EQUALS: Chr := 0x3D
  const QUESTION: Chr := 0x3F
  const AT: Chr := 0x40
  const OPEN: Chr := 0x5B
  const BACKSLASH: Chr := 0x5C
  const CLOSE: Chr := 0x5D
  const HASH: Chr := 0x23

  datatype Component = Scheme | UserInfo | Host | Port | Path | Query | Fragment

  /** The eight 32-bit words of the reserved-character table of a component, one bit for each character. */
  function Table(k: Component): (t: seq<bv32>)
    ensures |t| == 8
  {
    match k
    case Scheme => [0xFFFFFFFF, 0xFC0097FF, 0x78000001, 0xB8000001, 0xFFFFFFFF, 0xFFFFFFFF, 0xFFFFFFFF, 0xFFFFFFFF]
    case UserInfo => [0xFFFFFFFF, 0xD000802D, 0x78000001, 0xB8000001, 0xFFFFFFFF, 0xFFFFFFFF, 0xFFFFFFFF, 0xFFFFFFFF]
    case Host => [0xFFFFFFFF, 0xD000802D, 0x50000001, 0xB8000001, 0xFFFFFFFF, 0xFFFFFFFF, 0xFFFFFFFF, 0xFFFFFFFF]
    case Port => [0xFFFFFFFF, 0xFC009FFF, 0x78000001, 0xB8000001, 0xFFFFFFFF, 0xFFFFFFFF, 0xFFFFFFFF, 0xFFFFFFFF]
    case Path => [0xFFFFFFFF, 0xD000002D, 0x78000000, 0xB8000001, 0xFFFFFFFF, 0xFFFFFFFF, 0xFFFFFFFF, 0xFFFFFFFF]
    case Query => [0xFFFFFFFF, 0x5000002D, 0x78000000, 0xB8000001, 0xFFFFFFFF, 0xFFFFFFFF, 0xFFFFFFFF, 0xFFFFFFFF]
    case Fragment => [0xFFFFFFFF, 0x5000002D, 0x78000000, 0xB8000001, 0xFFFFFFFF, 0xFFFFFFFF, 0xFFFFFFFF, 0xFFFFFFFF]
  }

  /** The word of a table that holds the bit of c. */
  function Word(t: seq<bv32>, c: Chr): bv32
    requires |t| == 8
  {
    var w := c >> 5;
    if w == 0 then t[0] else if w == 1 then t[1] else if w == 2 then t[2] else if w == 3 then t[3]
    else if w == 4 then t[4] else if w == 5 then t[5] else if w == 6 then t[6] else t[7]
  }

  predicate Reserved(k: Component, c: Chr)
  {
    Word(Table(k), c) & (1 << ((c & 0x1F) as bv32)) != 0
  }

  /** The characters that every component escapes: controls, space, "#%<>^`{|}, backslash, and 0x7F and above. */
  predicate AlwaysReserved(c: Chr)
  {
    || c <= 0x20 || c >= 0x7F || c == 0x22 || c == HASH || c == PERCENT || c == 0x3C || c == 0x3E
    || c == BACKSLASH || c == 0x5E || c == 0x60 || 0x7B <= c <= 0x7D
  }

  predicate IsBracket(c: Chr)
  {
    c == OPEN || c == CLOSE
  }

  /** The tables encode the character classes that their comments list. */
  lemma ReservedClasses(c: Chr)
    ensures Reserved(Scheme, c) <==>
            AlwaysReserved(c) || 0x21 <= c <= 0x2A || c == 0x2C || c == SLASH || COLON <= c <= AT || IsBracket(c)
    ensures Reserved(UserInfo, c) <==> AlwaysReserved(c) || c == SLASH || c == QUESTION || c == AT || IsBracket(c)
    ensures Reserved(Host, c) <==> AlwaysReserved(c) || c == SLASH || c == QUESTION || c == AT
    ensures Reserved(Port, c) <==>
            AlwaysReserved(c) || 0x21 <= c <= 0x2C || c == SLASH || COLON <= c <= AT || IsBracket(c)
    ensures Reserved(Path, c) <==> AlwaysReserved(c) || c == QUESTION || IsBracket(c)
    ensures Reserved(Query, c) <==> AlwaysReserved(c) || IsBracket(c)
    ensures Reserved(Fragment, c) <==> AlwaysReserved(c) || IsBracket(c)
  {
    hide AlwaysReserved, IsBracket, Reserved;
    SchemeClass(c);
    UserInfoClass(c);
    HostClass(c);
    PortClass(c);
    PathClass(c);
    QueryClass(c);
    FragmentClass(c);
  }

  lemma SchemeClass(c: Chr)
    ensures Reserved(Scheme, c) <==>
            AlwaysReserved(c) || 0x21 <= c <= 0x2A || c == 0x2C || c == SLASH || COLON <= c <= AT || IsBracket(c)
  {
  }

  lemma UserInfoClass(c: Chr)
    ensures Reserved(UserInfo, c) <==> AlwaysReserved(c) || c == SLASH || c == QUESTION || c == AT || IsBracket(c)
  {
  }

  lemma HostClass(c: Chr)
    ensures Reserved(Host, c) <==> AlwaysReserved(c) || c == SLASH || c == QUESTION || c == AT
  {
  }

  lemma PortClass(c: Chr)
    ensures Reserved(Port, c) <==>
            AlwaysReserved(c) || 0x21 <= c <= 0x2C || c == SLASH || COLON <= c <= AT || IsBracket(c)
  {
  }

  lemma PathClass(c: Chr)
    ensures Reserved(Path, c) <==> AlwaysReserved(c) || c == QUESTION || IsBracket(c)
  {
  }

  lemma QueryClass(c: Chr)
    ensures Reserved(Query, c) <==> AlwaysReserved(c) || IsBracket(c)
  {
  }

  lemma FragmentClass(c: Chr)
    ensures Reserved(Fragment, c) <==> AlwaysReserved(c) || IsBracket(c)
  {
  }

  function ToHex(v: bv8): Chr
  {
    if v > 9 then 0x41 + v - 10 else 0x30 + v
  }

  /** The value of a hexadecimal digit in either case, zero for anything else. */
  function FromHexDigit(c: Chr): bv8
  {
    if 0x30 <= c <= 0x39 then c - 0x30
    else if 0x41 <= c <= 0x46 then c - (0x41 - 10)
    else if 0x61 <= c <= 0x66 then c - (0x61 - 10)
    else 0
  }

  function FromHex(a: Chr, b: Chr): Chr
  {
    (FromHexDigit(a) << 4) + FromHexDigit(b)
  }

  lemma HexRoundTrip(c: Chr)
    ensures FromHex(ToHex((c >> 4) & 0xF), ToHex(c & 0xF)) == c
  {
  }

  /** The digits of each value from 0 to 15, in either case. */
  const UPPER_DIGITS: Str := [0x30, 0x31, 0x32, 0x33, 0x34, 0x35, 0x36, 0x37, 0x38, 0x39, 0x41, 0x42, 0x43, 0x44, 0x45,
                              0x46]
  const LOWER_DIGITS: Str := [0x30, 0x31, 0x32, 0x33, 0x34, 0x35, 0x36, 0x37, 0x38, 0x39, 0x61, 0x62, 0x63, 0x64, 0x65,
                              0x66]

  /** A digit in either case has the value of its place in the list of digits. */
  lemma DigitValue(v: bv8)
    requires v < 16
    ensures FromHexDigit(UPPER_DIGITS[v]) == v && FromHexDigit(LOWER_DIGITS[v]) == v
  {
  }

  lemma NoDigitValue(c: Chr)
    requires c !in UPPER_DIGITS && c !in LOWER_DIGITS
    ensures FromHexDigit(c) == 0
  {
    assert forall v: bv8 :: v < 16 ==> UPPER_DIGITS[v] in UPPER_DIGITS && LOWER_DIGITS[v] in LOWER_DIGITS;
  }

  // ---------- escaping ----------

  function EscapeChr(k: Component, c: Chr): (r: Str)
  {
    if Reserved(k, c) then [PERCENT, ToHex((c >> 4) & 0xF), ToHex(c & 0xF)] else [c]
  }

  /** s with every reserved character written as % and two hexadecimal digits. */
  function Escape(k: Component, s: Str): Str
  {
    if s == [] then [] else EscapeChr(k, s[0]) + Escape(k, s[1..])
  }

  /** s with every % that has two characters behind it replaced by the character those spell. */
  function Unescape(s: Str): (r: Str)
    ensures |r| <= |s| && (s != [] ==> r != [])
  {
    if s == [] then []
    else if s[0] == PERCENT && |s| > 2 then [FromHex(s[1], s[2])] + Unescape(s[3..])
    else [s[0]] + Unescape(s[1..])
  }

  /** The C string at the start of a buffer. */
  function Cut(s: Str): (r: Str)
    ensures NulFree(r) && r <= s
  {
    if s == [] || s[0] == 0 then [] else [s[0]] + Cut(s[1..])
  }

  lemma {:induction false} CutString(s: Str, rest: Str)
    requires NulFree(s)
    ensures Cut(s) == s && Cut(s + [0] + rest) == s
  {
    if s != [] {
      CutString(s[1..], rest);
      assert (s + [0] + rest)[1..] == s[1..] + [0] + rest;
    }
  }

  lemma {:induction false} CutTerminated(s: Str)
    ensures Cut(s + [0]) == Cut(s)
  {
    if s != [] {
      CutTerminated(s[1..]);
      assert (s + [0])[1..] == s[1..] + [0];
    }
  }

  /** The string that the parser makes of a stretch of the URI. */
  function Text(s: Str): Str
  {
    Cut(Unescape(s))
  }

  lemma EscapeCons(k: Component, c: Chr, s: Str)
    ensures Escape(k, [c] + s) == EscapeChr(k, c) + Escape(k, s)
  {
    hide EscapeChr;
    assert ([c] + s)[1..] == s;
  }

  lemma EscapeNothing(k: Component)
    ensures Escape(k, []) == []
  {
  }

  lemma {:induction false} EscapeConcat(k: Component, a: Str, b: Str)
    ensures Escape(k, a + b) == Escape(k, a) + Escape(k, b)
  {
    hide EscapeChr, Escape;
    if a == [] {
      EscapeNothing(k);
      assert a + b == b;
    } else {
      EscapeConcat(k, a[1..], b);
      assert a + b == [a[0]] + (a[1..] + b) && a == [a[0]] + a[1..];
      EscapeCons(k, a[0], a[1..] + b);
      EscapeCons(k, a[0], a[1..]);
    }
  }

  lemma PercentReserved(k: Component)
    ensures Reserved(k, PERCENT) && Reserved(k, 0)
  {
    hide Reserved;
    ReservedClasses(PERCENT);
    ReservedClasses(0);
  }

  lemma UnescapeChr(k: Component, c: Chr, rest: Str)
    ensures Unescape(EscapeChr(k, c) + rest) == [c] + Unescape(rest)
  {
    PercentReserved(k);
    HexRoundTrip(c);
    hide Reserved, ToHex, FromHex;
    assert (EscapeChr(k, c) + rest)[|EscapeChr(k, c)|..] == rest;
  }

  /** Unescaping inverts escaping, for every string and every component. */
  lemma {:induction false} UnescapeEscape(k: Component, s: Str)
    ensures Unescape(Escape(k, s)) == s
  {
    if s != [] {
      hide EscapeChr, Unescape;
      UnescapeEscape(k, s[1..]);
      UnescapeChr(k, s[0], Escape(k, s[1..]));
    }
  }

  lemma TextOfEscape(k: Component, s: Str)
    requires NulFree(s)
    ensures Text(Escape(k, s)) == s
  {
    UnescapeEscape(k, s);
    CutString(s, []);
  }

  /** A hexadecimal digit as ToHex writes it. */
  predicate IsHexDigit(c: Chr)
  {
    0x30 <= c <= 0x39 || 0x41 <= c <= 0x46
  }

  lemma ToHexIsDigit(v: bv8)
    ensures IsHexDigit(ToHex(v & 0xF))
  {
  }

  /** A character that is neither % nor a hexadecimal digit occurs in the escaped form only if it occurs in s
      and needs no escape. */
  lemma {:induction false} EscapeAvoids(k: Component, s: Str, c: Chr)
    requires c != PERCENT && !IsHexDigit(c) && (Reserved(k, c) || c !in s)
    ensures c !in Escape(k, s)
  {
    if s != [] {
      hide Reserved, ToHex, IsHexDigit;
      EscapeAvoids(k, s[1..], c);
      ToHexIsDigit(s[0] >> 4);
      ToHexIsDigit(s[0]);
      var e := EscapeChr(k, s[0]);
      assert c !in e;
    }
  }

  lemma EscapeNulFree(k: Component, s: Str)
    ensures NulFree(Escape(k, s))
  {
    PercentReserved(k);
    EscapeAvoids(k, s, 0);
  }

  lemma EscapeHead(k: Component, s: Str)
    requires s != []
    ensures Escape(k, s) != []
    ensures Escape(k, s)[0] == if Reserved(k, s[0]) then PERCENT else s[0]
    ensures !Reserved(k, s[0]) ==> Escape(k, s) == [s[0]] + Escape(k, s[1..])
  {
  }

  // ---------- delimiters ----------

  /** The least index of s that holds one of the delimiters, or the length of s. */
  function Find(s: Str, delimiters: Str): (n: nat)
    ensures n <= |s| && (n < |s| ==> s[n] in delimiters)
    ensures forall i :: 0 <= i < n ==> s[i] !in delimiters
  {
    if s == [] || s[0] in delimiters then 0 else 1 + Find(s[1..], delimiters)
  }

  lemma FindUnique(s: Str, delimiters: Str, n: nat)
    requires n <= |s| && (n < |s| ==> s[n] in delimiters) && forall i :: 0 <= i < n ==> s[i] !in delimiters
    ensures Find(s, delimiters) == n
  {
  }

  ghost predicate Avoids(s: Str, delimiters: Str)
  {
    forall i :: 0 <= i < |s| ==> s[i] !in delimiters
  }

  predicate Stops(s: Str, delimiters: Str)
  {
    s == [] || s[0] in delimiters
  }

  lemma FindJoin(a: Str, b: Str, delimiters: Str)
    requires Avoids(a, delimiters) && Stops(b, delimiters)
    ensures Find(a + b, delimiters) == |a| && (a + b)[..|a|] == a && (a + b)[|a|..] == b
  {
    FindUnique(a + b, delimiters, |a|);
  }

  lemma FindPrefix(a: Str, b: Str, delimiters: Str)
    requires Find(a, delimiters) < |a|
    ensures Find(a + b, delimiters) == Find(a, delimiters)
    ensures (a + b)[..Find(a, delimiters)] == a[..Find(a, delimiters)]
  {
    FindUnique(a + b, delimiters, Find(a, delimiters));
  }

  /** Delimiters that k leaves unescaped and that no escape contains. */
  ghost predicate Plain(k: Component, delimiters: Str)
  {
    forall d :: d in delimiters ==> !Reserved(k, d) && d != PERCENT && !IsHexDigit(d)
  }

  /** Cutting at a plain delimiter commutes with escaping. */
  lemma FindEscaped(k: Component, s: Str, delimiters: Str)
    requires Plain(k, delimiters)
    ensures var (n, m) := (Find(s, delimiters), Find(Escape(k, s), delimiters));
            && (m == 0 <==> n == 0) && (m < |Escape(k, s)| <==> n < |s|)
            && Escape(k, s)[..m] == Escape(k, s[..n])
            && (n < |s| ==> Escape(k, s)[m] == s[n] && Escape(k, s)[m + 1..] == Escape(k, s[n + 1..]))
  {
    hide Reserved, IsHexDigit, Find, Escape;
    var n := Find(s, delimiters);
    var a, b := Escape(k, s[..n]), Escape(k, s[n..]);
    assert s == s[..n] + s[n..];
    EscapeConcat(k, s[..n], s[n..]);
    AvoidsEscaped(k, s[..n], delimiters);
    EscapeEmpty(k, s[..n]);
    EscapeEmpty(k, s[n..]);
    if n < |s| {
      EscapeHead(k, s[n..]);
      assert s[n..][1..] == s[n + 1..];
    }
    FindJoin(a, b, delimiters);
    if b != [] {
      assert (a + b)[|a| + 1..] == b[1..];
    }
  }

  lemma EscapeEmpty(k: Component, s: Str)
    ensures Escape(k, s) == [] <==> s == []
  {
  }

  lemma AvoidsEscaped(k: Component, s: Str, delimiters: Str)
    requires Avoids(s, delimiters)
    requires forall d :: d in delimiters ==> d != PERCENT && !IsHexDigit(d)
    ensures Avoids(Escape(k, s), delimiters)
  {
    hide Reserved, IsHexDigit, Escape;
    forall d | d in delimiters
      ensures d !in Escape(k, s)
    {
      assert d !in s;
      EscapeAvoids(k, s, d);
    }
  }

  /** An escaped string has none of the delimiters its component reserves. */
  lemma ReservedAvoided(k: Component, s: Str, delimiters: Str)
    requires forall d :: d in delimiters ==> Reserved(k, d) && d != PERCENT && !IsHexDigit(d)
    ensures Avoids(Escape(k, s), delimiters)
  {
    hide Reserved, IsHexDigit, Escape;
    forall d | d in delimiters
      ensures d !in Escape(k, s)
    {
      EscapeAvoids(k, s, d);
    }
  }

  // ---------- case ----------

  function LowerChr(c: Chr): Chr
  {
    if 0x41 <= c <= 0x5A then c - 0x41 + 0x61 else c
  }

  function Lower(s: Str): (r: Str)
    ensures |r| == |s| && forall i :: 0 <= i < |s| ==> r[i] == LowerChr(s[i])
  {
    if s == [] then [] else [LowerChr(s[0])] + Lower(s[1..])
  }

  const UPPER_LETTERS: Str := [0x41, 0x42, 0x43, 0x44, 0x45, 0x46, 0x47, 0x48, 0x49, 0x4A, 0x4B, 0x4C, 0x4D, 0x4E, 0x4F,
                               0x50, 0x51, 0x52, 0x53, 0x54, 0x55, 0x56, 0x57, 0x58, 0x59, 0x5A]
  const LOWER_LETTERS: Str := [0x61, 0x62, 0x63, 0x64, 0x65, 0x66, 0x67, 0x68, 0x69, 0x6A, 0x6B, 0x6C, 0x6D, 0x6E, 0x6F,
                               0x70, 0x71, 0x72, 0x73, 0x74, 0x75, 0x76, 0x77, 0x78, 0x79, 0x7A]

  /** A letter in either case becomes the lower-case letter at its place in the alphabet. */
  lemma LetterLowered(k: bv8)
    requires k < 26
    ensures LowerChr(UPPER_LETTERS[k]) == LOWER_LETTERS[k] == LowerChr(LOWER_LETTERS[k])
  {
    LettersInOrder(k);
    hide UPPER_LETTERS, LOWER_LETTERS;
  }

  lemma LettersInOrder(k: bv8)
    requires k < 26
    ensures UPPER_LETTERS[k] == 0x41 + k && LOWER_LETTERS[k] == 0x61 + k
  {
  }

  /** Nothing but upper-case letters is changed. */
  lemma OtherKept(c: Chr)
    requires c !in UPPER_LETTERS
    ensures LowerChr(c) == c
  {
    assert forall k: bv8 :: k < 26 ==> UPPER_LETTERS[k] in UPPER_LETTERS;
  }
}
