/** Parsing told apart from printing: the components of a URI as appendix B of RFC 3986 delimits them, and what the
    parser of containers/core/containers_uri.c makes of each. */
module UriGrammar {
  import opened Common
  import opened UriText
  import opened UriSpec
  import opened UriCase

  /** The authority as it stands in a URI; junk is what follows the closing bracket of a host without a colon. */
  datatype RawAuthority = RawAuthority(userinfo: Option<Str>, host: Str, port: Option<Str>, junk: Str)

  /** The components as they stand in a URI. */
  datatype Raw = Raw(scheme: Option<Str>, authority: Option<RawAuthority>, path: Str, query: Option<Str>,
                     fragment: Option<Str>)

  function Before(s: Option<Str>, mark: Chr): Str
  {
    if s.Some? then s.value + [mark] else []
  }

  function Behind(mark: Chr, s: Option<Str>): Str
  {
    if s.Some? then [mark] + s.value else []
  }

  function ComposedAuthority(a: RawAuthority): Str
  {
    Before(a.userinfo, AT) + (a.host + (Behind(COLON, a.port) + a.junk))
  }

  function ComposedHier(r: Raw): Str
  {
    (if r.authority.Some? then [SLASH, SLASH] + ComposedAuthority(r.authority.value) else [])
    + (r.path + (Behind(QUESTION, r.query) + Behind(HASH, r.fragment)))
  }

  /** Section 5.3 of RFC 3986. */
  function Composed(r: Raw): Str
  {
    Before(r.scheme, COLON) + ComposedHier(r)
  }

  /** The host ends behind its first bracket if it starts with one, else in front of a colon. */
  ghost predicate HostDelimited(a: RawAuthority)
  {
    if StartsWith(a.host, OPEN) then
      && !StartsWith(a.junk, COLON) && (a.port.Some? ==> a.junk == [])
      && ((Avoids(a.host, [CLOSE]) && a.port.None? && a.junk == [])
          || (a.host[|a.host| - 1] == CLOSE && Avoids(a.host[..|a.host| - 1], [CLOSE])))
    else Avoids(a.host, [COLON]) && a.junk == []
  }

  ghost predicate AuthorityDelimited(a: RawAuthority)
  {
    && Avoids(ComposedAuthority(a), [SLASH, QUESTION, HASH]) && HostDelimited(a)
    && Avoids(if a.userinfo.Some? then a.userinfo.value else ComposedAuthority(a), [AT])
  }

  /** No component holds the delimiter that ends it, and none can be taken for another one. */
  ghost predicate Delimited(r: Raw)
  {
    && (r.scheme.Some? ==> Avoids(r.scheme.value, [COLON, SLASH, QUESTION, HASH]))
    && (r.authority.Some? ==> AuthorityDelimited(r.authority.value))
    && Avoids(r.path, [QUESTION, HASH]) && (r.query.Some? ==> HASH !in r.query.value)
    && (if r.authority.Some? then r.path == [] || r.path[0] == SLASH else !DoubleSlash(r.path))
    && (r.scheme.None? && r.authority.None? ==> NoScheme(r.path))
  }

  /** A slash comes before any colon. */
  ghost predicate NoScheme(path: Str)
  {
    forall i :: 0 <= i < |path| && path[i] == COLON ==> SLASH in path[..i]
  }

  // ---------- what the components mean ----------

  function Told(s: Option<Str>): Option<Str>
  {
    if s.Some? then Some(Text(s.value)) else None
  }

  function ToldAuthority(a: Option<RawAuthority>): Authority
  {
    if a.None? then NO_AUTHORITY
    else Authority(Told(a.value.userinfo), Some(Lower(Text(a.value.host))), Told(a.value.port))
  }

  /** All components unescaped, scheme and host in lower case; an empty path is none. */
  function Meaning(r: Raw): Parts
  {
    Parts(if r.scheme.Some? then Some(Lower(Text(r.scheme.value))) else None, ToldAuthority(r.authority),
          if r.path == [] then None else Some(Text(r.path)),
          if r.query.Some? then ParseQueries(r.query.value) else [], Told(r.fragment))
  }

  // ---------- parsing ----------

  lemma EndParsed(query: Option<Str>, fragment: Option<Str>)
    requires query.Some? ==> HASH !in query.value
    ensures ParseEnd(Behind(QUESTION, query) + Behind(HASH, fragment))
            == (if query.Some? then ParseQueries(query.value) else [], Told(fragment))
  {
    hide ParseQueries, Text;
    var f := Behind(HASH, fragment);
    if query.Some? {
      assert (([QUESTION] + query.value) + f)[1..] == query.value + f;
      FindJoin(query.value, f, QUERY_DELIMITERS);
    } else {
      assert [] + f == f;
    }
  }

  lemma TailParsed(scheme: Option<Str>, authority: Authority, path: Str, query: Option<Str>, fragment: Option<Str>)
    requires Avoids(path, [QUESTION, HASH]) && (query.Some? ==> HASH !in query.value)
    ensures ParseTail(scheme, authority, path + (Behind(QUESTION, query) + Behind(HASH, fragment)))
            == Parts(scheme, authority, if path == [] then None else Some(Text(path)),
                     if query.Some? then ParseQueries(query.value) else [], Told(fragment))
  {
    hide ParseQueries, Text, ParseEnd;
    EndParsed(query, fragment);
    FindJoin(path, Behind(QUESTION, query) + Behind(HASH, fragment), PATH_DELIMITERS);
  }

  lemma HostEndIs(a: RawAuthority)
    requires HostDelimited(a)
    ensures HostEnd(a.host + (Behind(COLON, a.port) + a.junk)) == |a.host|
  {
    var more := Behind(COLON, a.port) + a.junk;
    var t := a.host + more;
    hide Find;
    if !StartsWith(a.host, OPEN) {
      FindJoin(a.host, more, [COLON]);
    } else if !Avoids(a.host, [CLOSE]) {
      FindUnique(t, [CLOSE], |a.host| - 1);
    } else {
      assert more == [] && t == a.host;
      FindUnique(t, [CLOSE], |t|);
    }
  }

  lemma PortParsed(a: RawAuthority)
    requires HostDelimited(a)
    ensures ParsePort(Behind(COLON, a.port) + a.junk) == Told(a.port)
  {
    if a.port.Some? {
      assert Behind(COLON, a.port) + a.junk == [COLON] + a.port.value;
    }
  }

  lemma HostParsed(userinfo: Option<Str>, a: RawAuthority)
    requires HostDelimited(a)
    ensures ParseHostPort(userinfo, a.host + (Behind(COLON, a.port) + a.junk))
            == Authority(userinfo, Some(Lower(Text(a.host))), Told(a.port))
  {
    HostEndIs(a);
    PortParsed(a);
    hide Text, Lower, HostDelimited, HostEnd, ParsePort, Told, Behind;
    var more := Behind(COLON, a.port) + a.junk;
    assert (a.host + more)[..|a.host|] == a.host && (a.host + more)[|a.host|..] == more;
  }

  lemma WithUserInfo(u: Str, h: Str, rest: Str)
    requires Avoids(u, [AT, SLASH, QUESTION, HASH]) && Avoids(h, [SLASH, QUESTION, HASH])
    requires Stops(rest, [SLASH, QUESTION, HASH])
    ensures ParseAuthority(((u + [AT]) + h) + rest) == (ParseHostPort(Some(Text(u)), h), rest)
  {
    hide ParseHostPort, Text, Find, Avoids;
    var s := ((u + [AT]) + h) + rest;
    assert s == u + ([AT] + (h + rest));
    FindJoin(u, [AT] + (h + rest), NETWORK_DELIMITERS);
    assert s[|u| + 1..] == h + rest;
    FindJoin(h, rest, HOST_PORT_DELIMITERS);
  }

  lemma WithoutUserInfo(h: Str, rest: Str)
    requires Avoids(h, [AT, SLASH, QUESTION, HASH]) && Stops(rest, [SLASH, QUESTION, HASH])
    ensures ParseAuthority(h + rest) == (ParseHostPort(None, h), rest)
  {
    hide ParseHostPort, Text, Find;
    FindJoin(h, rest, NETWORK_DELIMITERS);
    FindJoin(h, rest, HOST_PORT_DELIMITERS);
  }

  lemma AuthorityParsed(a: RawAuthority, rest: Str)
    requires AuthorityDelimited(a) && Stops(rest, [SLASH, QUESTION, HASH])
    ensures ParseAuthority(ComposedAuthority(a) + rest) == (ToldAuthority(Some(a)), rest)
  {
    hide ParseHostPort, ParseAuthority, Text, HostDelimited, Lower;
    var s := ComposedAuthority(a);
    var h := a.host + (Behind(COLON, a.port) + a.junk);
    HostParsed(Told(a.userinfo), a);
    if a.userinfo.Some? {
      var u := a.userinfo.value;
      assert s == (u + [AT]) + h;
      assert forall i :: 0 <= i < |u| ==> u[i] == s[i];
      assert forall i :: 0 <= i < |h| ==> h[i] == s[|u| + 1 + i];
      WithUserInfo(u, h, rest);
    } else {
      assert s == [] + h == h;
      WithoutUserInfo(h, rest);
    }
  }

  lemma StillNoAuthority(path: Str, more: Str)
    requires !DoubleSlash(path) && Stops(more, [QUESTION, HASH])
    ensures !DoubleSlash(path + more)
  {
  }

  lemma HierParsed(scheme: Option<Str>, r: Raw)
    requires Delimited(r)
    ensures ParseHier(scheme, ComposedHier(r)) == Meaning(r).(scheme := scheme)
  {
    hide ParseAuthority, ParseTail, Text, AuthorityDelimited, ComposedAuthority, ParseQueries;
    var rest := r.path + (Behind(QUESTION, r.query) + Behind(HASH, r.fragment));
    TailParsed(scheme, ToldAuthority(r.authority), r.path, r.query, r.fragment);
    if r.authority.Some? {
      var a := ComposedAuthority(r.authority.value);
      AuthorityParsed(r.authority.value, rest);
      assert (([SLASH, SLASH] + a) + rest)[2..] == a + rest;
    } else {
      assert [] + rest == rest;
      StillNoAuthority(r.path, Behind(QUESTION, r.query) + Behind(HASH, r.fragment));
    }
  }

  lemma SchemeEnds(r: Raw)
    requires Delimited(r)
    ensures var (m, s) := (Find(Composed(r), SCHEME_DELIMITERS), Composed(r));
            if r.scheme.Some? then m == |r.scheme.value| < |s| && s[m] == COLON && s[..m] == r.scheme.value
                                   && s[m + 1..] == ComposedHier(r)
            else !StartsWith(s[m..], COLON) && s == ComposedHier(r)
  {
    hide Find, AuthorityDelimited, ComposedAuthority;
    var s := Composed(r);
    if r.scheme.Some? {
      assert s == r.scheme.value + ([COLON] + ComposedHier(r));
      FindJoin(r.scheme.value, [COLON] + ComposedHier(r), SCHEME_DELIMITERS);
    } else {
      assert s == ComposedHier(r);
      if r.authority.None? {
        assert s == r.path + (Behind(QUESTION, r.query) + Behind(HASH, r.fragment));
        NoSchemeFound(r.path, Behind(QUESTION, r.query) + Behind(HASH, r.fragment));
      } else {
        assert s[0] == SLASH;
        FindUnique(s, SCHEME_DELIMITERS, 0);
      }
    }
  }

  lemma NoSchemeFound(path: Str, more: Str)
    requires NoScheme(path) && Stops(more, [QUESTION, HASH])
    ensures !StartsWith((path + more)[Find(path + more, SCHEME_DELIMITERS)..], COLON)
  {
    var m := Find(path + more, SCHEME_DELIMITERS);
    assert more != [] ==> (path + more)[|path|] == more[0];
    if m < |path| {
      forall i | 0 <= i < m ensures path[..m][i] != SLASH {
        assert (path + more)[i] !in SCHEME_DELIMITERS;
      }
    }
  }

  /** What each component of a URI is parsed into, unless the URI is taken for a DOS name. */
  lemma ParsedByGrammar(r: Raw)
    requires Delimited(r)
    ensures DosPath(Composed(r)) || Parse(Composed(r)) == Meaning(r)
  {
    DosPaths(Composed(r));
    SchemeEnds(r);
    hide Find, Composed, ComposedHier, ParseHier, DosName, DosPath, Delimited, Text, Lower, Told, ToldAuthority,
         ParseQueries;
    HierParsed(Meaning(r).scheme, r);
  }

  // ---------- every string has components ----------

  function SplitHost(userinfo: Option<Str>, h: Str): RawAuthority
  {
    var e := if !StartsWith(h, OPEN) then Find(h, [COLON]) else Min(Find(h, [CLOSE]) + 1, |h|);
    if StartsWith(h[e..], COLON) then RawAuthority(userinfo, h[..e], Some(h[e + 1..]), [])
    else RawAuthority(userinfo, h[..e], None, h[e..])
  }

  function SplitAuthority(a: Str): RawAuthority
  {
    var n := Find(a, [AT]);
    if n < |a| then SplitHost(Some(a[..n]), a[n + 1..]) else SplitHost(None, a)
  }

  function SplitFragment(s: Str): Option<Str>
  {
    if s == [] then None else Some(s[1..])
  }

  function SplitEnd(s: Str): (Option<Str>, Option<Str>)
  {
    if StartsWith(s, QUESTION) then
      var n := Find(s[1..], [HASH]);
      (Some(s[1..][..n]), SplitFragment(s[1..][n..]))
    else (None, SplitFragment(s))
  }

  function SplitPath(scheme: Option<Str>, authority: Option<RawAuthority>, s: Str): Raw
  {
    var m := Find(s, [QUESTION, HASH]);
    var (query, fragment) := SplitEnd(s[m..]);
    Raw(scheme, authority, s[..m], query, fragment)
  }

  function SplitHier(scheme: Option<Str>, s: Str): Raw
  {
    if DoubleSlash(s) then
      var n := Find(s[2..], [SLASH, QUESTION, HASH]);
      SplitPath(scheme, Some(SplitAuthority(s[2..][..n])), s[2..][n..])
    else SplitPath(scheme, None, s)
  }

  function Split(uri: Str): Raw
  {
    var m := Find(uri, [COLON, SLASH, QUESTION, HASH]);
    if m < |uri| && uri[m] == COLON then SplitHier(Some(uri[..m]), uri[m + 1..]) else SplitHier(None, uri)
  }

  lemma HostComposed(userinfo: Option<Str>, h: Str)
    ensures var a := SplitHost(userinfo, h);
            a.userinfo == userinfo && a.host + (Behind(COLON, a.port) + a.junk) == h
  {
    hide Find;
  }

  lemma NameSplit(userinfo: Option<Str>, h: Str)
    requires !StartsWith(h, OPEN)
    ensures HostDelimited(SplitHost(userinfo, h))
  {
    var e := Find(h, [COLON]);
    hide Find;
    assert !StartsWith(h[..e], OPEN) && (!StartsWith(h[e..], COLON) ==> h[e..] == []);
  }

  lemma BracketSplit(userinfo: Option<Str>, h: Str)
    requires StartsWith(h, OPEN)
    ensures HostDelimited(SplitHost(userinfo, h))
  {
    var n := Find(h, [CLOSE]);
    hide Find;
    if n < |h| {
      assert h[..n + 1][n] == CLOSE && h[..n + 1][..n] == h[..n];
    } else {
      assert h[..n] == h && h[n..] == [];
    }
  }

  lemma HostSplit(userinfo: Option<Str>, h: Str)
    ensures var a := SplitHost(userinfo, h);
            a.userinfo == userinfo && HostDelimited(a) && a.host + (Behind(COLON, a.port) + a.junk) == h
  {
    hide *;
    HostComposed(userinfo, h);
    if StartsWith(h, OPEN) {
      BracketSplit(userinfo, h);
    } else {
      NameSplit(userinfo, h);
    }
  }

  lemma Recomposed(s: Str, n: nat)
    requires n < |s|
    ensures (s[..n] + [s[n]]) + s[n + 1..] == s
  {
  }

  lemma AtFirst(s: Str)
    ensures var n := Find(s, [AT]);
            Avoids(s[..n], [AT]) && if n < |s| then (s[..n] + [AT]) + s[n + 1..] == s else s[..n] == s
  {
    var n := Find(s, [AT]);
    if n < |s| {
      Recomposed(s, n);
    }
    hide Find;
  }

  lemma AuthoritySplit(s: Str)
    requires Avoids(s, [SLASH, QUESTION, HASH])
    ensures AuthorityDelimited(SplitAuthority(s)) && ComposedAuthority(SplitAuthority(s)) == s
  {
    hide HostDelimited, SplitHost, Find, Behind, Avoids;
    AtFirst(s);
    var n := Find(s, [AT]);
    if n < |s| {
      HostSplit(Some(s[..n]), s[n + 1..]);
    } else {
      HostSplit(None, s);
      assert [] + s == s;
    }
  }

  lemma FragmentSplit(s: Str)
    requires Stops(s, [HASH])
    ensures Behind(HASH, SplitFragment(s)) == s
  {
  }

  lemma EndSplit(s: Str)
    requires Stops(s, [QUESTION, HASH])
    ensures var (query, fragment) := SplitEnd(s);
            (query.Some? ==> HASH !in query.value) && Behind(QUESTION, query) + Behind(HASH, fragment) == s
  {
    hide SplitFragment, Find;
    if StartsWith(s, QUESTION) {
      var n := Find(s[1..], [HASH]);
      FragmentSplit(s[1..][n..]);
      assert s == ([QUESTION] + s[1..][..n]) + s[1..][n..];
    } else {
      FragmentSplit(s);
      assert [] + s == s;
    }
  }

  lemma PathSplit(scheme: Option<Str>, authority: Option<RawAuthority>, s: Str)
    ensures var r := SplitPath(scheme, authority, s);
            && r.scheme == scheme && r.authority == authority && Avoids(r.path, [QUESTION, HASH])
            && r.path == s[..Find(s, [QUESTION, HASH])] && (r.query.Some? ==> HASH !in r.query.value)
            && r.path + (Behind(QUESTION, r.query) + Behind(HASH, r.fragment)) == s
  {
    hide SplitEnd, Behind, Find;
    var m := Find(s, [QUESTION, HASH]);
    EndSplit(s[m..]);
    assert s == s[..m] + s[m..];
  }

  /** Behind the authority the path is empty or starts with a slash. */
  lemma PathBehind(t: Str)
    ensures var u := t[Find(t, [SLASH, QUESTION, HASH])..];
            var path := u[..Find(u, [QUESTION, HASH])];
            path == [] || path[0] == SLASH
  {
  }

  lemma NoSchemeSplit(s: Str)
    requires !StartsWith(s[Find(s, [COLON, SLASH, QUESTION, HASH])..], COLON)
    ensures NoScheme(s[..Find(s, [QUESTION, HASH])])
  {
    var (m, n) := (Find(s, [COLON, SLASH, QUESTION, HASH]), Find(s, [QUESTION, HASH]));
    var path := s[..n];
    forall i | 0 <= i < n && path[i] == COLON ensures SLASH in path[..i] {
      assert m < i && s[m] == SLASH;
      assert path[..i][m] == SLASH;
    }
  }

  lemma SplitWithAuthority(scheme: Option<Str>, t: Str)
    ensures var n := Find(t, [SLASH, QUESTION, HASH]);
            SplitHier(scheme, [SLASH, SLASH] + t) == SplitPath(scheme, Some(SplitAuthority(t[..n])), t[n..])
  {
    hide SplitPath, SplitAuthority, Find;
    assert ([SLASH, SLASH] + t)[2..] == t;
  }

  lemma ComposedWithAuthority(r: Raw, a: Str, rest: Str)
    requires r.authority.Some? && ComposedAuthority(r.authority.value) == a
    requires r.path + (Behind(QUESTION, r.query) + Behind(HASH, r.fragment)) == rest
    ensures ComposedHier(r) == [SLASH, SLASH] + (a + rest)
  {
    hide ComposedAuthority, Behind;
    ConcatAssoc([SLASH, SLASH], a, rest);
  }

  lemma WithAuthority(scheme: Option<Str>, t: Str)
    requires scheme.Some? ==> Avoids(scheme.value, [COLON, SLASH, QUESTION, HASH])
    ensures var r := SplitHier(scheme, [SLASH, SLASH] + t);
            Delimited(r) && ComposedHier(r) == [SLASH, SLASH] + t && r.scheme == scheme
  {
    hide SplitPath, SplitHier, SplitAuthority, AuthorityDelimited, ComposedAuthority, ComposedHier, Find, Behind;
    var n := Find(t, [SLASH, QUESTION, HASH]);
    var r := SplitPath(scheme, Some(SplitAuthority(t[..n])), t[n..]);
    SplitWithAuthority(scheme, t);
    AuthoritySplit(t[..n]);
    PathSplit(scheme, Some(SplitAuthority(t[..n])), t[n..]);
    PathBehind(t);
    ComposedWithAuthority(r, t[..n], t[n..]);
    assert t == t[..n] + t[n..];
  }

  lemma WithoutAuthority(scheme: Option<Str>, s: Str)
    requires scheme.Some? ==> Avoids(scheme.value, [COLON, SLASH, QUESTION, HASH])
    requires scheme.None? ==> !StartsWith(s[Find(s, [COLON, SLASH, QUESTION, HASH])..], COLON)
    requires !DoubleSlash(s)
    ensures var r := SplitHier(scheme, s); Delimited(r) && ComposedHier(r) == s && r.scheme == scheme
  {
    hide SplitPath, Find, NoScheme, StartsWith;
    PathSplit(scheme, None, s);
    if scheme.None? {
      NoSchemeSplit(s);
    }
    assert [] + s == s;
  }

  lemma HierSplit(scheme: Option<Str>, s: Str)
    requires scheme.Some? ==> Avoids(scheme.value, [COLON, SLASH, QUESTION, HASH])
    requires scheme.None? ==> !StartsWith(s[Find(s, [COLON, SLASH, QUESTION, HASH])..], COLON)
    ensures var r := SplitHier(scheme, s); Delimited(r) && ComposedHier(r) == s && r.scheme == scheme
  {
    hide SplitHier, Delimited, ComposedHier, Find, Avoids;
    if DoubleSlash(s) {
      assert s == [SLASH, SLASH] + s[2..];
      WithAuthority(scheme, s[2..]);
    } else {
      WithoutAuthority(scheme, s);
    }
  }

  /** Every string is composed of components that its delimiters tell apart. */
  lemma SplitDelimited(uri: Str)
    ensures Delimited(Split(uri)) && Composed(Split(uri)) == uri
  {
    hide SplitHier, Find, Delimited, ComposedHier;
    var m := Find(uri, [COLON, SLASH, QUESTION, HASH]);
    if m < |uri| && uri[m] == COLON {
      HierSplit(Some(uri[..m]), uri[m + 1..]);
      assert uri == (uri[..m] + [COLON]) + uri[m + 1..];
    } else {
      HierSplit(None, uri);
      assert [] + uri == uri;
    }
  }

  /** So this is what any string is parsed into. */
  lemma ParsedAsSplit(uri: Str)
    ensures DosPath(uri) || Parse(uri) == Meaning(Split(uri))
  {
    hide *;
    SplitDelimited(uri);
    ParsedByGrammar(Split(uri));
  }

  // ---------- escapes ----------

  /** An escape is read as the number that its two digits spell, whatever follows. */
  lemma EscapeRead(v: bv8, w: bv8, a: Chr, b: Chr, rest: Str)
    requires v < 16 && w < 16
    requires a in {UPPER_DIGITS[v], LOWER_DIGITS[v]} && b in {UPPER_DIGITS[w], LOWER_DIGITS[w]}
    ensures Unescape([PERCENT, a, b] + rest) == [16 * v + w] + Unescape(rest)
  {
    DigitIs(a, v);
    DigitIs(b, w);
    hide FromHexDigit, UPPER_DIGITS, LOWER_DIGITS;
    assert ([PERCENT, a, b] + rest)[3..] == rest;
    assert (v << 4) + w == 16 * v + w;
  }

  /** All else is kept, and so is what is too short for an escape. */
  lemma NoEscapeRead(c: Chr, rest: Str)
    requires c != PERCENT || |rest| < 2
    ensures Unescape([c] + rest) == [c] + Unescape(rest)
  {
    assert ([c] + rest)[1..] == rest;
  }

  // ---------- the query ----------

  /** Either separator divides the query into parts that are read on their own. */
  lemma QueryDivided(a: Str, mark: Chr, more: Str)
    requires Avoids(a, [AMPERSAND, SEMICOLON]) && (mark == AMPERSAND || mark == SEMICOLON)
    ensures ParseQueries(a + ([mark] + more)) == ParseQueries(a) + ParseQueries(more)
  {
    ParseAt(a, [mark] + more);
    ParseAt(a, []);
    hide ParseQueries, ItemOf;
    assert a + [] == a && ([mark] + more)[1..] == more;
    assert DecodeAll(ItemOf(a)) + [] == DecodeAll(ItemOf(a));
  }

  /** A part is a name, with a value behind its first equals sign; without a name it is passed over. */
  lemma QueryPart(name: Str, value: Str)
    requires Avoids(name, [AMPERSAND, SEMICOLON, EQUALS]) && Avoids(value, [AMPERSAND, SEMICOLON])
    ensures ParseQueries(name) == if name == [] then [] else [Item(Text(name), None)]
    ensures ParseQueries(name + ([EQUALS] + value))
            == if name == [] then [] else [Item(Text(name), Some(Text(value)))]
  {
    hide ParseQueries, Text, Find;
    PartRead(name);
    PartRead(name + ([EQUALS] + value));
    FindJoin(name, [], [EQUALS]);
    assert name + [] == name;
    FindJoin(name, [EQUALS] + value, [EQUALS]);
    assert (name + ([EQUALS] + value))[|name| + 1..] == value;
  }

  lemma PartRead(s: Str)
    requires Avoids(s, [AMPERSAND, SEMICOLON])
    ensures var e := Find(s, [EQUALS]);
            ParseQueries(s)
            == if e == 0 then [] else [Item(Text(s[..e]), if e < |s| then Some(Text(s[e + 1..])) else None)]
  {
    hide *;
    assert s + [] == s;
    assert DecodeAll(ItemOf(s)) + [] == DecodeAll(ItemOf(s));
    SeparatorsAre();
    ParseAt(s, []);
    ItemDecoded(s);
  }

  lemma SeparatorsAre()
    ensures SEPARATORS == [AMPERSAND, SEMICOLON] && Stops([], SEPARATORS)
  {
  }

  lemma ItemDecoded(s: Str)
    ensures var e := Find(s, [EQUALS]);
            DecodeAll(ItemOf(s))
            == if e == 0 then [] else [Item(Text(s[..e]), if e < |s| then Some(Text(s[e + 1..])) else None)]
  {
    hide Text, Find;
  }

  /** The delimiters as characters. */
  lemma Spelled()
    ensures (PERCENT as int as char, AMPERSAND as int as char, SLASH as int as char) == ('%', '&', '/')
    ensures (COLON as int as char, SEMICOLON as int as char, EQUALS as int as char) == (':', ';', '=')
    ensures (QUESTION as int as char, AT as int as char, HASH as int as char) == ('?', '@', '#')
    ensures (OPEN as int as char, BACKSLASH as int as char, CLOSE as int as char) == ('[', '\\', ']')
  {
  }
}
