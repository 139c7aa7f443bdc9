/** Parsing a printed URI gives back its parts exactly if they are well-formed. */
module UriRoundTrip {
  import opened Common
  import opened UriText
  import opened UriSpec

  predicate OptionFree(s: Option<Str>)
  {
    s.Some? ==> NulFree(s.value)
  }

  predicate ItemFree(q: Item)
  {
    NulFree(q.name) && OptionFree(q.value)
  }

  /** All strings of the parts are C strings. */
  predicate PartsFree(p: Parts)
  {
    && OptionFree(p.scheme) && OptionFree(p.authority.userinfo) && OptionFree(p.authority.host)
    && OptionFree(p.authority.port) && OptionFree(p.path) && OptionFree(p.fragment)
    && forall i :: 0 <= i < |p.queries| ==> ItemFree(p.queries[i])
  }

  lemma {:induction false} JoinFree(qs: seq<Item>)
    requires forall i :: 0 <= i < |qs| ==> ItemFree(qs[i])
    ensures NulFree(Join(qs))
  {
    if qs != [] {
      assert NulFree(ItemText(qs[0]));
      JoinFree(qs[1..]);
    }
  }

  // ---------- what the components cannot contain ----------

  lemma PathAvoids(s: Str)
    ensures Avoids(Escape(Path, s), PATH_DELIMITERS) && BACKSLASH !in Escape(Path, s)
  {
    ReservedClasses(QUESTION);
    ReservedClasses(HASH);
    ReservedClasses(BACKSLASH);
    hide Reserved, Escape;
    ReservedAvoided(Path, s, PATH_DELIMITERS);
    EscapeAvoids(Path, s, BACKSLASH);
  }

  lemma QueryAvoids(s: Str)
    ensures Avoids(Escape(Query, s), QUERY_DELIMITERS)
  {
    ReservedClasses(HASH);
    hide Reserved, Escape;
    ReservedAvoided(Query, s, QUERY_DELIMITERS);
  }

  lemma SchemeAvoids(s: Str)
    ensures Avoids(Escape(Scheme, s), SCHEME_DELIMITERS)
  {
    ReservedClasses(COLON);
    ReservedClasses(SLASH);
    ReservedClasses(QUESTION);
    ReservedClasses(HASH);
    hide Reserved, Escape;
    ReservedAvoided(Scheme, s, SCHEME_DELIMITERS);
  }

  lemma AuthorityAvoids(k: Component, s: Str)
    requires k == UserInfo || k == Host || k == Port
    ensures Avoids(Escape(k, s), NETWORK_DELIMITERS) && Avoids(Escape(k, s), HOST_PORT_DELIMITERS)
  {
    ReservedClasses(AT);
    ReservedClasses(SLASH);
    ReservedClasses(QUESTION);
    ReservedClasses(HASH);
    hide Reserved, Escape;
    ReservedAvoided(k, s, NETWORK_DELIMITERS);
    ReservedAvoided(k, s, HOST_PORT_DELIMITERS);
  }

  lemma PortAvoidsClose(s: Str)
    ensures Avoids(Escape(Port, s), [CLOSE])
  {
    ReservedClasses(CLOSE);
    hide Reserved, Escape;
    ReservedAvoided(Port, s, [CLOSE]);
  }

  lemma PlainInHost()
    ensures Plain(Host, [COLON]) && Plain(Host, [CLOSE]) && Plain(Host, [OPEN])
  {
    ReservedClasses(COLON);
    ReservedClasses(CLOSE);
    ReservedClasses(OPEN);
    hide Reserved;
  }

  // ---------- path, query and fragment ----------

  lemma FragmentPrint(fragment: Option<Str>)
    requires OptionFree(fragment)
    ensures ParseFragment(Prefixed(Fragment, HASH, fragment)) == fragment
  {
    if fragment.Some? {
      TextOfEscape(Fragment, fragment.value);
      hide Escape, Text;
      assert ([HASH] + Escape(Fragment, fragment.value))[1..] == Escape(Fragment, fragment.value);
    }
  }

  lemma NoFields()
    ensures Fields(Join([])) == []
  {
  }

  lemma EndPrint(qs: seq<Item>, fragment: Option<Str>)
    requires NulFree(Join(qs)) && OptionFree(fragment)
    ensures ParseEnd(QueryText(qs) + Prefixed(Fragment, HASH, fragment)) == (Fields(Join(qs)), fragment)
  {
    var f := Prefixed(Fragment, HASH, fragment);
    assert Stops(f, QUERY_DELIMITERS) && !StartsWith(f, QUESTION);
    FragmentPrint(fragment);
    hide Escape, Find, ParseQueries, Fields, Join, ParseFragment, Avoids, Prefixed, Stops;
    if qs == [] {
      NoFields();
      assert QueryText(qs) + f == f;
    } else {
      var q := Escape(Query, Join(qs));
      QueryAvoids(Join(qs));
      ParseEscaped(Join(qs));
      FindJoin(q, f, QUERY_DELIMITERS);
      BehindMark(QUESTION, q, f);
    }
  }

  lemma BehindMark(c: Chr, q: Str, f: Str)
    ensures StartsWith(([c] + q) + f, c) && (([c] + q) + f)[1..] == q + f
  {
  }

  /** Behind the authority, everything but an empty path and ill-formed items survives. */
  lemma TailPrint(scheme: Option<Str>, authority: Authority, path: Str, qs: seq<Item>, fragment: Option<Str>)
    requires NulFree(path) && NulFree(Join(qs)) && OptionFree(fragment)
    ensures ParseTail(scheme, authority, Escape(Path, path) + (QueryText(qs) + Prefixed(Fragment, HASH, fragment)))
            == Parts(scheme, authority, if path == [] then None else Some(path), Fields(Join(qs)), fragment)
  {
    var e := Escape(Path, path);
    var r := QueryText(qs) + Prefixed(Fragment, HASH, fragment);
    assert Stops(r, PATH_DELIMITERS);
    hide Escape, Text, Find, Avoids, Fields, Join, ParseEnd, Prefixed, QueryText;
    PathAvoids(path);
    FindJoin(e, r, PATH_DELIMITERS);
    EscapeEmpty(Path, path);
    TextOfEscape(Path, path);
    EndPrint(qs, fragment);
  }

  // ---------- the authority ----------

  function HostPortText(h: Str, port: Option<Str>): Str
  {
    Escape(Host, h) + Prefixed(Port, COLON, port)
  }

  lemma PortPrint(port: Option<Str>)
    requires OptionFree(port)
    ensures ParsePort(Prefixed(Port, COLON, port)) == port
  {
    if port.Some? {
      TextOfEscape(Port, port.value);
      hide Escape, Text;
      assert ([COLON] + Escape(Port, port.value))[1..] == Escape(Port, port.value);
    }
  }

  lemma HostHead(h: Str, port: Option<Str>)
    ensures StartsWith(HostPortText(h, port), OPEN) <==> StartsWith(h, OPEN)
  {
    PlainInHost();
    hide Reserved;
    if h != [] {
      EscapeHead(Host, h);
    }
  }

  /** The first delimiter inside the escaped host is the first one of host and port. */
  lemma FindInHost(h: Str, port: Option<Str>, d: Chr)
    requires Plain(Host, [d]) && d in h
    ensures var n := Find(h, [d]);
            var e := Find(HostPortText(h, port), [d]);
            && n < |h| && e < |Escape(Host, h)| && Escape(Host, h)[e] == d
            && HostPortText(h, port)[..e] == Escape(Host, h)[..e] == Escape(Host, h[..n])
            && Escape(Host, h)[e + 1..] == Escape(Host, h[n + 1..])
  {
    hide *;
    var a, b := Escape(Host, h), Prefixed(Port, COLON, port);
    FindsMember(h, d);
    FindEscaped(Host, h, [d]);
    FindPrefix(a, b, [d]);
    HostPortSplit(h, port);
  }

  lemma FindsMember(s: Str, d: Chr)
    ensures d in s <==> Find(s, [d]) < |s|
    ensures d in s ==> s[Find(s, [d])] == d
  {
  }

  lemma HostPortSplit(h: Str, port: Option<Str>)
    ensures HostPortText(h, port) == Escape(Host, h) + Prefixed(Port, COLON, port)
  {
    hide Escape, Prefixed;
  }

  lemma HostShort(h: Str, n: nat)
    requires n <= |h| && NulFree(h)
    ensures Text(Escape(Host, h[..n])) == h[..n] && |Lower(h[..n])| == n
  {
    TextOfEscape(Host, h[..n]);
  }

  /** A host that does not start with a bracket is read back up to its first colon. */
  lemma NamePrint(h: Str, port: Option<Str>)
    requires NulFree(h) && OptionFree(port) && !StartsWith(h, OPEN)
    ensures var a := ParseHostPort(None, HostPortText(h, port));
            a == Authority(None, Some(h), port) <==> HostOk(h, port)
  {
    PlainInHost();
    HostHead(h, port);
    var n := Find(h, [COLON]);
    HostShort(h, n);
    if COLON in h {
      FindInHost(h, port, COLON);
    } else {
      AvoidsEscaped(Host, h, [COLON]);
      FindJoin(Escape(Host, h), Prefixed(Port, COLON, port), [COLON]);
      PortPrint(port);
      assert h[..n] == h;
    }
  }

  lemma EscapeThrough(h: Str, n: nat)
    requires n < |h| && h[n] == CLOSE
    ensures Escape(Host, h[..n + 1]) == Escape(Host, h[..n]) + [CLOSE]
    ensures Escape(Host, h[n + 1..]) == [] <==> n + 1 == |h|
  {
    PlainInHost();
    EscapeHead(Host, [CLOSE]);
    EscapeEmpty(Host, []);
    EscapeEmpty(Host, h[n + 1..]);
    EscapeConcat(Host, h[..n], [CLOSE]);
    hide Escape;
    assert h[..n + 1] == h[..n] + [CLOSE];
  }

  lemma CutBehind(a: Str, b: Str, e: nat)
    requires e < |a|
    ensures (a + b)[..e + 1] == a[..e] + [a[e]]
    ensures a[e + 1..] == [] ==> (a + b)[e + 1..] == b
  {
  }

  lemma BracketCut(h: Str, port: Option<Str>)
    requires NulFree(h) && StartsWith(h, OPEN) && CLOSE in h
    ensures var (t, n) := (HostPortText(h, port), Find(h, [CLOSE]));
            && n < |h| && t[..HostEnd(t)] == Escape(Host, h[..n + 1])
            && (n + 1 == |h| ==> t[HostEnd(t)..] == Prefixed(Port, COLON, port))
  {
    PlainInHost();
    HostHead(h, port);
    hide Escape, Find, Plain, Reserved, Prefixed, NulFree;
    FindInHost(h, port, CLOSE);
    EscapeThrough(h, Find(h, [CLOSE]));
    CutBehind(Escape(Host, h), Prefixed(Port, COLON, port), Find(HostPortText(h, port), [CLOSE]));
  }

  lemma BracketClosed(h: Str, port: Option<Str>)
    requires NulFree(h) && OptionFree(port) && StartsWith(h, OPEN) && CLOSE in h
    ensures var a := ParseHostPort(None, HostPortText(h, port));
            a == Authority(None, Some(h), port) <==> HostOk(h, port)
  {
    BracketCut(h, port);
    PortPrint(port);
    var n := Find(h, [CLOSE]);
    hide Escape, Find, Text, ParsePort, Prefixed, HostEnd, HostPortText;
    HostShort(h, n + 1);
    if n + 1 == |h| {
      assert h[..n + 1] == h;
    }
  }

  lemma BracketOpen(h: Str, port: Option<Str>)
    requires NulFree(h) && OptionFree(port) && StartsWith(h, OPEN) && CLOSE !in h
    ensures var a := ParseHostPort(None, HostPortText(h, port));
            a == Authority(None, Some(h), port) <==> HostOk(h, port)
  {
    PlainInHost();
    HostHead(h, port);
    var t := HostPortText(h, port);
    AvoidsEscaped(Host, h, [CLOSE]);
    if port.Some? {
      PortAvoidsClose(port.value);
    }
    FindJoin(t, [], [CLOSE]);
    assert t + [] == t;
    TextOfEscape(Host, h);
    hide Escape, Text, Plain, Reserved;
    if port.None? {
      assert t == Escape(Host, h);
    }
  }

  /** The host and port are read back exactly if the host is lower-case and its end can be found. */
  lemma HostPortPrint(userinfo: Option<Str>, h: Str, port: Option<Str>)
    requires NulFree(h) && OptionFree(port)
    ensures ParseHostPort(userinfo, HostPortText(h, port)) == Authority(userinfo, Some(h), port) <==> HostOk(h, port)
  {
    hide HostPortText, HostOk, Text, HostEnd, ParsePort;
    if StartsWith(h, OPEN) {
      if CLOSE in h {
        BracketClosed(h, port);
      } else {
        BracketOpen(h, port);
      }
    } else {
      NamePrint(h, port);
    }
  }

  lemma HostPortAvoids(h: Str, port: Option<Str>)
    ensures Avoids(HostPortText(h, port), NETWORK_DELIMITERS) && Avoids(HostPortText(h, port), HOST_PORT_DELIMITERS)
  {
    AuthorityAvoids(Host, h);
    if port.Some? {
      AuthorityAvoids(Port, port.value);
    }
    hide Escape;
  }

  /** Where a userinfo u, a host and port t, and what follows are cut apart. */
  lemma UserInfoCut(u: Str, t: Str, rest: Str)
    requires Avoids(u, NETWORK_DELIMITERS)
    ensures var a := u + ([AT] + (t + rest));
            UserInfoEnd(a) == Some(|u|) && a[..|u|] == u && a[|u| + 1..] == t + rest
  {
    hide Find, Avoids;
    var a := u + ([AT] + (t + rest));
    FindJoin(u, [AT] + (t + rest), NETWORK_DELIMITERS);
    assert a[|u| + 1..] == t + rest;
  }

  lemma NoUserInfo(t: Str, rest: Str)
    requires Avoids(t, NETWORK_DELIMITERS) && Stops(rest, HOST_PORT_DELIMITERS)
    ensures UserInfoEnd(t + rest) == None
  {
    hide Find, Avoids;
    FindJoin(t, rest, NETWORK_DELIMITERS);
  }

  lemma ParseWithUserInfo(u: Str, t: Str, rest: Str)
    requires Avoids(u, NETWORK_DELIMITERS) && Avoids(t, HOST_PORT_DELIMITERS) && Stops(rest, HOST_PORT_DELIMITERS)
    ensures ParseAuthority(u + ([AT] + (t + rest))) == (ParseHostPort(Some(Text(u)), t), rest)
  {
    hide Text, Find, ParseHostPort, Avoids, UserInfoEnd;
    UserInfoCut(u, t, rest);
    FindJoin(t, rest, HOST_PORT_DELIMITERS);
  }

  lemma ParseWithoutUserInfo(t: Str, rest: Str)
    requires Avoids(t, NETWORK_DELIMITERS) && Avoids(t, HOST_PORT_DELIMITERS) && Stops(rest, HOST_PORT_DELIMITERS)
    ensures ParseAuthority(t + rest) == (ParseHostPort(None, t), rest)
  {
    hide Text, Find, ParseHostPort, Avoids, UserInfoEnd;
    NoUserInfo(t, rest);
    FindJoin(t, rest, HOST_PORT_DELIMITERS);
  }

  /** The authority ends where its printed form ends, whatever stop follows; then its host and port are parsed. */
  lemma AuthorityPrint(a: Authority, rest: Str)
    requires a.host.Some? && OptionFree(a.userinfo) && Stops(rest, HOST_PORT_DELIMITERS)
    ensures ParseAuthority(AuthorityText(a) + rest)
            == (ParseHostPort(a.userinfo, HostPortText(a.host.value, a.port)), rest)
  {
    var t := HostPortText(a.host.value, a.port);
    HostPortAvoids(a.host.value, a.port);
    AuthorityParts(a, rest);
    if a.userinfo.Some? {
      AuthorityAvoids(UserInfo, a.userinfo.value);
      TextOfEscape(UserInfo, a.userinfo.value);
      hide *;
      ParseWithUserInfo(Escape(UserInfo, a.userinfo.value), t, rest);
    } else {
      hide *;
      ParseWithoutUserInfo(t, rest);
    }
  }

  lemma AuthorityParts(a: Authority, rest: Str)
    requires a.host.Some?
    ensures var t := HostPortText(a.host.value, a.port);
            AuthorityText(a) + rest
            == if a.userinfo.Some? then Escape(UserInfo, a.userinfo.value) + ([AT] + (t + rest)) else t + rest
  {
    hide Escape, Prefixed;
  }

  // ---------- the whole URI ----------

  /** How what follows the authority starts. */
  lemma PathHead(p: Parts)
    ensures DoubleSlash(PathAndTail(p)) <==> DoubleSlash(OrEmpty(p.path))
    ensures OrEmpty(p.path) == [] || p.path.value[0] == SLASH ==> Stops(PathAndTail(p), HOST_PORT_DELIMITERS)
    ensures !StartsWith(PathAndTail(p), BACKSLASH)
  {
    var path := OrEmpty(p.path);
    assert Stops(TailText(p), PATH_DELIMITERS);
    ReservedClasses(SLASH);
    PathAvoids(path);
    EscapeEmpty(Path, path);
    if path != [] {
      EscapeHead(Path, path);
      EscapeEmpty(Path, path[1..]);
      if |path| > 1 {
        EscapeHead(Path, path[1..]);
      }
    }
    hide Reserved, Avoids, TailText, Escape;
  }

  /** The parts with this scheme and authority, without an empty path and with the query split anew. */
  function Survivors(scheme: Option<Str>, authority: Authority, p: Parts): Parts
  {
    Parts(scheme, authority, if OrEmpty(p.path) == [] then None else p.path, Fields(Join(p.queries)), p.fragment)
  }

  lemma TailSurvives(scheme: Option<Str>, authority: Authority, p: Parts)
    requires PartsFree(p)
    ensures ParseTail(scheme, authority, PathAndTail(p)) == Survivors(scheme, authority, p)
  {
    JoinFree(p.queries);
    hide Escape, ParseTail, QueryText, Prefixed, Fields, Join;
    TailPrint(scheme, authority, OrEmpty(p.path), p.queries, p.fragment);
  }

  lemma NoHostPrint(scheme: Option<Str>, p: Parts)
    requires PartsFree(p) && p.authority.host.None? && !DoubleSlash(OrEmpty(p.path))
    ensures ParseHier(scheme, HierText(p)) == Survivors(scheme, NO_AUTHORITY, p)
  {
    PathHead(p);
    TailSurvives(scheme, NO_AUTHORITY, p);
    hide PathAndTail, ParseTail, DoubleSlash, Survivors, PartsFree;
  }

  lemma HostPrint(scheme: Option<Str>, p: Parts)
    requires PartsFree(p) && p.authority.host.Some? && (OrEmpty(p.path) == [] || p.path.value[0] == SLASH)
    ensures var a := ParseHostPort(p.authority.userinfo, HostPortText(p.authority.host.value, p.authority.port));
            ParseHier(scheme, HierText(p)) == Survivors(scheme, a, p)
  {
    PathHead(p);
    AuthorityPrint(p.authority, PathAndTail(p));
    var a := ParseHostPort(p.authority.userinfo, HostPortText(p.authority.host.value, p.authority.port));
    hide PathAndTail, ParseTail, Survivors, PartsFree, AuthorityText, ParseAuthority, ParseHostPort, HostPortText,
         Stops;
    TailSurvives(scheme, a, p);
    AfterSlashes(AuthorityText(p.authority) + PathAndTail(p));
  }

  lemma AfterSlashes(s: Str)
    ensures DoubleSlash([SLASH, SLASH] + s) && ([SLASH, SLASH] + s)[2..] == s
  {
  }

  /** Behind a parsed authority there is no path or one that starts with a slash. */
  lemma PathBehindAuthority(scheme: Option<Str>, s: Str)
    requires DoubleSlash(s)
    ensures var p := ParseHier(scheme, s);
            p.authority.host.Some? && (p.path.Some? ==> StartsWith(p.path.value, SLASH))
  {
    var rest := ParseAuthority(s[2..]).1;
    assert Stops(rest, HOST_PORT_DELIMITERS);
    var m := Find(rest, PATH_DELIMITERS);
    if m > 0 {
      assert rest[..m] == [SLASH] + rest[1..m];
      TextSlash(rest[1..m]);
    }
  }

  lemma TextSlash(s: Str)
    ensures StartsWith(Text([SLASH] + s), SLASH)
  {
  }

  lemma HierHead(p: Parts)
    ensures !StartsWith(HierText(p), BACKSLASH)
    ensures p.authority.host.Some? || DoubleSlash(OrEmpty(p.path)) ==> DoubleSlash(HierText(p))
  {
    PathHead(p);
    hide PathAndTail, AuthorityText;
  }

  lemma ParseScheme(e: Str, hier: Str)
    requires Avoids(e, SCHEME_DELIMITERS) && !StartsWith(hier, BACKSLASH)
    ensures Parse(e + ([COLON] + hier)) == ParseHier(Some(Lower(Text(e))), hier)
  {
    hide Text, Find, Avoids, ParseHier, Lower;
    FindJoin(e, [COLON] + hier, SCHEME_DELIMITERS);
    assert (e + ([COLON] + hier))[|e| + 1..] == hier;
  }

  lemma PrintScheme(p: Parts)
    requires p.scheme.Some?
    ensures Print(p) == Escape(Scheme, p.scheme.value) + ([COLON] + HierText(p))
  {
    hide Escape, HierText;
  }

  /** The scheme is read back in lower case; a printed URI is never taken for a DOS name. */
  lemma SchemePrint(p: Parts)
    requires PartsFree(p) && p.scheme.Some?
    ensures Parse(Print(p)) == ParseHier(Some(Lower(p.scheme.value)), HierText(p))
  {
    assert NulFree(p.scheme.value);
    hide *;
    SchemeAvoids(p.scheme.value);
    TextOfEscape(Scheme, p.scheme.value);
    HierHead(p);
    PrintScheme(p);
    ParseScheme(Escape(Scheme, p.scheme.value), HierText(p));
  }

  /** Parts with a scheme survive printing and parsing exactly if they are well-formed. */
  lemma RoundTrip(p: Parts)
    requires PartsFree(p) && p.scheme.Some?
    ensures Parse(Print(p)) == p <==> WellFormed(p)
  {
    hide Parse, Print, ParseHier, HierText, Fields, Join, QueriesOk, ParseHostPort, HostPortText, HostOk, Lower,
            PartsFree;
    SchemePrint(p);
    FieldsJoin(p.queries);
    HierHead(p);
    if p.authority.host.None? {
      NoHostRoundTrip(Some(Lower(p.scheme.value)), p);
    } else {
      HostRoundTrip(Some(Lower(p.scheme.value)), p);
    }
  }

  lemma NoHostRoundTrip(scheme: Option<Str>, p: Parts)
    requires PartsFree(p) && p.authority.host.None?
    ensures ParseHier(scheme, HierText(p)) == p <==>
            scheme == p.scheme && AuthorityOk(p.authority) && PathOk(p) && Fields(Join(p.queries)) == p.queries
  {
    hide ParseHier, HierText, Fields, Join, PartsFree, HostOk;
    if DoubleSlash(OrEmpty(p.path)) {
      HierHead(p);
      PathBehindAuthority(scheme, HierText(p));
    } else {
      NoHostPrint(scheme, p);
    }
  }

  lemma HostRoundTrip(scheme: Option<Str>, p: Parts)
    requires PartsFree(p) && p.authority.host.Some?
    ensures ParseHier(scheme, HierText(p)) == p <==>
            scheme == p.scheme && AuthorityOk(p.authority) && PathOk(p) && Fields(Join(p.queries)) == p.queries
  {
    HostPortPrint(p.authority.userinfo, p.authority.host.value, p.authority.port);
    hide ParseHier, HierText, Fields, Join, PartsFree, DoubleSlash, HostOk, ParseHostPort, HostPortText;
    if OrEmpty(p.path) == [] || p.path.value[0] == SLASH {
      HostPrint(scheme, p);
    } else {
      HierHead(p);
      PathBehindAuthority(scheme, HierText(p));
    }
  }

  lemma TextFixed(s: Str)
    requires NulFree(s)
    ensures Text(s) == s <==> Unescape(s) == s
    ensures |Text(s)| <= |s|
  {
    CutString(s, []);
    hide Unescape, Cut;
  }

  lemma TextShrinks(s: Str)
    ensures |Text(s)| <= |s|
  {
    hide Unescape, Cut;
  }

  /** Without an authority a plain path survives exactly if it has no delimiters and no escapes. */
  lemma PlainTail(s: Str)
    requires NulFree(s)
    ensures var p := ParseTail(None, NO_AUTHORITY, s);
            if s == [] then p == Parts(None, NO_AUTHORITY, None, [], None)
            else if Find(s, PATH_DELIMITERS) == |s|
                    && Unescape(s) == s then p == Parts(None, NO_AUTHORITY, Some(s), [], None)
            else p.path != Some(s)
  {
    var m := Find(s, PATH_DELIMITERS);
    hide Text, Find, Unescape, ParseQueries;
    assert s[..m] == s <==> m == |s|;
    TextFixed(s);
    TextShrinks(s[..m]);
  }

  lemma AuthorityShrinks(s: Str)
    requires DoubleSlash(s)
    ensures ParseHier(None, s).path != Some(s)
  {
    var rest := ParseAuthority(s[2..]).1;
    hide Text, ParseQueries, ParseHostPort, Find;
    TextShrinks(rest[..Find(rest, PATH_DELIMITERS)]);
  }

  lemma SchemeKept(scheme: Option<Str>, s: Str)
    ensures ParseHier(scheme, s).scheme == scheme
  {
  }

  /** Without a scheme only a path is printed, and it survives exactly if it can be printed plainly. */
  lemma PlainRoundTrip(p: Parts)
    requires PartsFree(p) && p.scheme.None?
    ensures Parse(Print(p)) == p <==>
            p.authority == NO_AUTHORITY && p.queries == [] && p.fragment.None?
                    && (p.path.None? || PlainPath(p.path.value))
  {
    var s := OrEmpty(p.path);
    hide Find, Unescape, ParseTail, ParseAuthority, ParseEnd;
    var m := Find(s, SCHEME_DELIMITERS);
    if !StartsWith(s[m..], COLON) {
      if DoubleSlash(s) {
        hide ParseHier;
        AuthorityShrinks(s);
      } else {
        PlainTail(s);
      }
    } else {
      SchemeKept(Some(Lower(Text(s[..m]))), s[m + 1..]);
    }
  }
}
