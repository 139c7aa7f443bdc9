/** What the URI parser and builder of containers/core/containers_uri.c compute, and when they are inverse. */
module UriSpec {
  import opened Common
  import opened UriText

  const SCHEME_DELIMITERS: Str := [COLON, SLASH, QUESTION, HASH]
  const NETWORK_DELIMITERS: Str := [AT, SLASH, QUESTION, HASH]
  const HOST_PORT_DELIMITERS: Str := [SLASH, QUESTION, HASH]
  const PATH_DELIMITERS: Str := [QUESTION, HASH]
  const QUERY_DELIMITERS: Str := [HASH]

  /** One name, or name and value, of the query. */
  datatype Item = Item(name: Str, value: Option<Str>)

  datatype Authority = Authority(userinfo: Option<Str>, host: Option<Str>, port: Option<Str>)

  const NO_AUTHORITY := Authority(None, None, None)

  datatype Parts = Parts(scheme: Option<Str>, authority: Authority, path: Option<Str>, queries: seq<Item>,
                         fragment: Option<Str>)

  function OrEmpty(s: Option<Str>): Str
  {
    if s.Some? then s.value else []
  }

  // ---------- the query ----------

  const SEPARATORS: Str := [AMPERSAND, SEMICOLON]

  /** The items of one stretch between separators: none if the name would be empty. */
  function ItemOf(s: Str): (r: seq<Item>)
    ensures |r| <= 1
  {
    var e := Find(s, [EQUALS]);
    if e == 0 then [] else [Item(s[..e], if e < |s| then Some(s[e + 1..]) else None)]
  }

  /** The names and values of a query as they stand in it, split at & or ; and at the first = of each stretch. */
  function Fields(s: Str): seq<Item>
    decreases |s|, 1
  {
    FieldsFrom(s, Find(s, SEPARATORS))
  }

  function FieldsFrom(s: Str, n: nat): seq<Item>
    requires n <= |s|
    decreases |s|, 0
  {
    ItemOf(s[..n]) + if n < |s| then Fields(s[n + 1..]) else []
  }

  function Decode(q: Item): Item
  {
    Item(Text(q.name), if q.value.Some? then Some(Text(q.value.value)) else None)
  }

  function DecodeAll(qs: seq<Item>): seq<Item>
  {
    seq(|qs|, i requires 0 <= i < |qs| => Decode(qs[i]))
  }

  function ParseQueries(s: Str): seq<Item>
  {
    DecodeAll(Fields(s))
  }

  // ---------- printing ----------

  function ItemText(q: Item): Str
  {
    q.name + if q.value.Some? then [EQUALS] + q.value.value else []
  }

  /** The query before escaping. */
  function Join(qs: seq<Item>): Str
  {
    if qs == [] then []
    else if |qs| == 1 then ItemText(qs[0])
    else ItemText(qs[0]) + [AMPERSAND] + Join(qs[1..])
  }

  function Prefixed(k: Component, mark: Chr, s: Option<Str>): Str
  {
    if s.Some? then [mark] + Escape(k, s.value) else []
  }

  function QueryText(qs: seq<Item>): Str
  {
    if qs == [] then [] else [QUESTION] + Escape(Query, Join(qs))
  }

  function UserInfoText(u: Option<Str>): Str
  {
    if u.Some? then Escape(UserInfo, u.value) + [AT] else []
  }

  /** The authority without the two slashes. */
  function AuthorityText(a: Authority): Str
    requires a.host.Some?
  {
    UserInfoText(a.userinfo) + Escape(Host, a.host.value) + Prefixed(Port, COLON, a.port)
  }

  function TailText(p: Parts): Str
  {
    QueryText(p.queries) + Prefixed(Fragment, HASH, p.fragment)
  }

  /** Path, query and fragment. */
  function PathAndTail(p: Parts): Str
  {
    Escape(Path, OrEmpty(p.path)) + TailText(p)
  }

  /** What follows the colon of the scheme. */
  function HierText(p: Parts): Str
  {
    if p.authority.host.Some? then [SLASH, SLASH] + (AuthorityText(p.authority) + PathAndTail(p)) else PathAndTail(p)
  }

  /** The printed URI; without a scheme it is the plain path. */
  function Print(p: Parts): Str
  {
    if p.scheme.None? then OrEmpty(p.path) else Escape(Scheme, p.scheme.value) + [COLON] + HierText(p)
  }

  // ---------- parsing ----------

  predicate IsAlpha(c: Chr)
  {
    0x41 <= c <= 0x5A || 0x61 <= c <= 0x7A
  }

  predicate StartsWith(s: Str, c: Chr)
  {
    s != [] && s[0] == c
  }

  predicate DoubleSlash(s: Str)
  {
    |s| >= 2 && s[0] == SLASH && s[1] == SLASH
  }

  /** A drive letter, a colon and a backslash; m is the first scheme delimiter. */
  predicate DosName(uri: Str, m: nat)
  {
    m == 1 && |uri| > 2 && IsAlpha(uri[0]) && uri[2] == BACKSLASH
  }

  /** The end of the host at the start of t: behind the first ] if it starts with [, else at the first colon. */
  function HostEnd(t: Str): (e: nat)
    ensures e <= |t|
  {
    if StartsWith(t, OPEN) then Min(Find(t, [CLOSE]) + 1, |t|) else Find(t, [COLON])
  }

  function ParsePort(r: Str): Option<Str>
  {
    if StartsWith(r, COLON) then Some(Text(r[1..])) else None
  }

  function ParseHostPort(userinfo: Option<Str>, t: Str): Authority
  {
    var e := HostEnd(t);
    Authority(userinfo, Some(Lower(Text(t[..e]))), ParsePort(t[e..]))
  }

  /** Where the userinfo ends, if there is one. */
  function UserInfoEnd(a: Str): (m: Option<nat>)
    ensures m.Some? ==> m.value < |a|
  {
    var m := Find(a, NETWORK_DELIMITERS);
    if StartsWith(a[m..], AT) then Some(m) else None
  }

  /** The authority at the start of a, and what is left behind it. */
  function ParseAuthority(a: Str): (Authority, Str)
  {
    match UserInfoEnd(a)
    case Some(m) =>
      var n := Find(a[m + 1..], HOST_PORT_DELIMITERS);
      (ParseHostPort(Some(Text(a[..m])), a[m + 1..][..n]), a[m + 1..][n..])
    case None =>
      var n := Find(a, HOST_PORT_DELIMITERS);
      (ParseHostPort(None, a[..n]), a[n..])
  }

  function ParseFragment(r: Str): Option<Str>
  {
    if StartsWith(r, HASH) then Some(Text(r[1..])) else None
  }

  /** The query and the fragment at the start of r. */
  function ParseEnd(r: Str): (seq<Item>, Option<Str>)
  {
    if StartsWith(r, QUESTION) then
      var n := Find(r[1..], QUERY_DELIMITERS);
      (ParseQueries(r[1..][..n]), ParseFragment(r[1..][n..]))
    else ([], ParseFragment(r))
  }

  function ParseTail(scheme: Option<Str>, authority: Authority, s: Str): Parts
  {
    var m := Find(s, PATH_DELIMITERS);
    var (queries, fragment) := ParseEnd(s[m..]);
    Parts(scheme, authority, if m > 0 then Some(Text(s[..m])) else None, queries, fragment)
  }

  function ParseHier(scheme: Option<Str>, s: Str): Parts
  {
    if DoubleSlash(s) then
      var (authority, rest) := ParseAuthority(s[2..]);
      ParseTail(scheme, authority, rest)
    else ParseTail(scheme, NO_AUTHORITY, s)
  }

  function Parse(uri: Str): Parts
  {
    var m := Find(uri, SCHEME_DELIMITERS);
    if StartsWith(uri[m..], COLON) then
      if DosName(uri, m) then Parts(None, NO_AUTHORITY, Some(uri), [], None)
      else ParseHier(Some(Lower(Text(uri[..m]))), uri[m + 1..])
    else ParseHier(None, uri)
  }

  // ---------- when parsing gives back what was printed ----------

  /** A non-empty name without & ; = and a value without & ;. */
  predicate ItemOk(q: Item)
  {
    && q.name != [] && AMPERSAND !in q.name && SEMICOLON !in q.name && EQUALS !in q.name
    && (q.value.Some? ==> AMPERSAND !in q.value.value && SEMICOLON !in q.value.value)
  }

  predicate QueriesOk(qs: seq<Item>)
  {
    forall i :: 0 <= i < |qs| ==> ItemOk(qs[i])
  }

  /** A lower-case host that is free of colons or ends with its first ]; it may lack the ] if there is no port. */
  predicate HostOk(h: Str, port: Option<Str>)
  {
    && Lower(h) == h
    && if StartsWith(h, OPEN) then Find(h, [CLOSE]) + 1 == |h| || (CLOSE !in h && port.None?) else COLON !in h
  }

  predicate AuthorityOk(a: Authority)
  {
    if a.host.Some? then HostOk(a.host.value, a.port) else a == NO_AUTHORITY
  }

  /** Non-empty if present; behind an authority it starts with a slash, without one not with two. */
  predicate PathOk(p: Parts)
  {
    p.path.Some? ==>
      && p.path.value != []
      && if p.authority.host.Some? then p.path.value[0] == SLASH else !DoubleSlash(p.path.value)
  }

  predicate WellFormed(p: Parts)
    requires p.scheme.Some?
  {
    Lower(p.scheme.value) == p.scheme.value && AuthorityOk(p.authority) && PathOk(p) && QueriesOk(p.queries)
  }

  /** A path that is safe to print without escaping: a DOS name, or no delimiters that matter and no escapes. */
  predicate PlainPath(s: Str)
  {
    var m := Find(s, SCHEME_DELIMITERS);
    if StartsWith(s[m..], COLON) then DosName(s, m)
    else s != [] && !DoubleSlash(s) && Find(s, PATH_DELIMITERS) == |s| && Unescape(s) == s
  }

  // ---------- the query round trip ----------

  lemma PlainInQuery()
    ensures Plain(Query, SEPARATORS) && Plain(Query, [EQUALS])
  {
    ReservedClasses(AMPERSAND);
    ReservedClasses(SEMICOLON);
    ReservedClasses(EQUALS);
    hide Reserved;
  }

  lemma ItemOfEscaped(s: Str)
    requires NulFree(s)
    ensures DecodeAll(ItemOf(Escape(Query, s))) == ItemOf(s)
  {
    PlainInQuery();
    FindEscaped(Query, s, [EQUALS]);
    hide Plain, Escape, Find, Text;
    var e := Find(s, [EQUALS]);
    TextOfEscape(Query, s[..e]);
    if e < |s| {
      TextOfEscape(Query, s[e + 1..]);
    }
  }

  lemma FieldsStep(s: Str)
    ensures var n := Find(s, SEPARATORS);
            Fields(s) == ItemOf(s[..n]) + if n < |s| then Fields(s[n + 1..]) else []
  {
    hide Find, ItemOf;
    assert Fields(s) == FieldsFrom(s, Find(s, SEPARATORS));
  }

  lemma DecodeConcat(a: seq<Item>, b: seq<Item>)
    ensures DecodeAll(a + b) == DecodeAll(a) + DecodeAll(b) && DecodeAll([]) == []
  {
    hide Decode;
  }

  /** Splitting and then unescaping the printed query is splitting the query before it was escaped. */
  lemma {:induction false} ParseEscaped(s: Str)
    requires NulFree(s)
    ensures ParseQueries(Escape(Query, s)) == Fields(s)
    decreases |s|
  {
    PlainInQuery();
    FindEscaped(Query, s, SEPARATORS);
    var n := Find(s, SEPARATORS);
    var e := Escape(Query, s);
    var m := Find(e, SEPARATORS);
    hide Plain, Escape, Find, Text, ItemOf, Fields, DecodeAll;
    ItemOfEscaped(s[..n]);
    FieldsStep(s);
    FieldsStep(e);
    if n < |s| {
      ParseEscaped(s[n + 1..]);
      DecodeConcat(ItemOf(e[..m]), Fields(e[m + 1..]));
    } else {
      DecodeConcat(ItemOf(e[..m]), []);
    }
  }

  lemma NothingParsed()
    ensures ParseQueries([]) == []
  {
  }

  /** Parsing a query takes off its first stretch. */
  lemma ParseAt(a: Str, more: Str)
    requires Avoids(a, SEPARATORS) && Stops(more, SEPARATORS)
    ensures ParseQueries(a + more) == DecodeAll(ItemOf(a)) + if more == [] then [] else ParseQueries(more[1..])
  {
    hide ItemOf, Fields, DecodeAll, Avoids, Stops;
    FieldsAt(a, more);
    DecodeConcat(ItemOf(a), if more == [] then [] else Fields(more[1..]));
  }

  lemma ItemOfOk(s: Str)
    requires Avoids(s, SEPARATORS)
    ensures QueriesOk(ItemOf(s))
  {
    assert forall c :: c in s ==> c !in SEPARATORS;
    var e := Find(s, [EQUALS]);
    assert EQUALS !in s[..e];
  }

  /** Every item that splitting finds is well-formed. */
  lemma {:induction false} FieldsOk(s: Str)
    ensures QueriesOk(Fields(s))
    decreases |s|
  {
    var n := Find(s, SEPARATORS);
    hide Find, ItemOf, ItemOk;
    ItemOfOk(s[..n]);
    if n < |s| {
      FieldsOk(s[n + 1..]);
    }
  }

  /** Splitting the joined items gives back the items exactly if they are well-formed. */
  lemma {:induction false} FieldsJoin(qs: seq<Item>)
    ensures Fields(Join(qs)) == qs <==> QueriesOk(qs)
  {
    FieldsOk(Join(qs));
    if QueriesOk(qs) {
      FieldsJoinOk(qs);
    }
  }

  lemma JoinCons(q: Item, qs: seq<Item>)
    ensures Join([q] + qs) == ItemText(q) + (if qs == [] then [] else [AMPERSAND] + Join(qs))
  {
    assert ([q] + qs)[1..] == qs;
    hide ItemText;
  }

  lemma BehindFirst(a: Str, b: Str)
    requires b != []
    ensures (a + b)[|a| + 1..] == b[1..]
  {
  }

  lemma FieldsAt(a: Str, more: Str)
    requires Avoids(a, SEPARATORS) && Stops(more, SEPARATORS)
    ensures Fields(a + more) == ItemOf(a) + if more == [] then [] else Fields(more[1..])
  {
    hide ItemOf, Find, Fields, Avoids, Stops;
    FindJoin(a, more, SEPARATORS);
    FieldsStep(a + more);
    if more != [] {
      BehindFirst(a, more);
    }
  }

  /** The first item is split off at the separator behind it. */
  lemma FirstItem(q: Item, more: Str)
    requires ItemOk(q) && Stops(more, SEPARATORS)
    ensures Fields(ItemText(q) + more) == [q] + (if more == [] then [] else Fields(more[1..]))
  {
    ItemOfText(q);
    hide ItemText, ItemOf, Fields, Avoids, ItemOk, Stops;
    FieldsAt(ItemText(q), more);
  }

  lemma {:induction false} FieldsJoinOk(qs: seq<Item>)
    requires QueriesOk(qs)
    ensures Fields(Join(qs)) == qs
  {
    if qs == [] {
      assert Join(qs) == [];
    } else {
      hide Fields, Join, ItemText, ItemOk;
      var q, more := qs[0], qs[1..];
      assert qs == [q] + more;
      JoinCons(q, more);
      FirstItem(q, if more == [] then [] else [AMPERSAND] + Join(more));
      if more != [] {
        assert ([AMPERSAND] + Join(more))[1..] == Join(more);
        FieldsJoinOk(more);
      }
    }
  }

  lemma ItemOfText(q: Item)
    requires ItemOk(q)
    ensures ItemOf(ItemText(q)) == [q] && Avoids(ItemText(q), SEPARATORS)
  {
    var rest := if q.value.Some? then [EQUALS] + q.value.value else [];
    FindJoin(q.name, rest, [EQUALS]);
    hide Find;
    if q.value.Some? {
      assert ItemText(q)[|q.name| + 1..] == q.value.value;
    }
  }
}
