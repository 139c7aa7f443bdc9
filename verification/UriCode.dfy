/** The string loops and the parts structure of containers/core/containers_uri.c. */
module UriCode {
  import opened Common
  import opened UriText
  import Spec = UriSpec
  import opened UriRoundTrip

  /** The character a pointer into a C string sees. */
  function CharAt(s: Str, i: nat): Chr
    requires i <= |s|
  {
    if i < |s| then s[i] else 0
  }

  method EscapedLength(s: Str, k: Component) returns (length: nat)
    ensures length == |Escape(k, s)|
  {
    length := 0;
    var count: nat := |s|;
    assert s[0..] == s;
    while count > 0
      invariant count <= |s|
      invariant length + |Escape(k, s[|s| - count..])| == |Escape(k, s)|
    {
      var c := s[|s| - count];
      EscapeCons(k, c, s[|s| - count + 1..]);
      assert s[|s| - count..] == [c] + s[|s| - count + 1..];
      if Reserved(k, c) {
        length := length + 3;
      } else {
        length := length + 1;
      }
      count := count - 1;
    }
    EscapeNothing(k);
  }

  /** Stores one character behind the first at ones. */
  method Put(buffer: array<Chr>, at: nat, c: Chr) returns (end: nat)
    requires at < buffer.Length
    modifies buffer
    ensures end == at + 1 && buffer[..end] == old(buffer[..at]) + [c]
    ensures forall i :: end <= i < buffer.Length ==> buffer[i] == old(buffer[i])
  {
    buffer[at] := c;
    end := at + 1;
  }

  /** One round of EscapeString. */
  method PutEscaped(buffer: array<Chr>, at: nat, c: Chr, k: Component) returns (end: nat)
    requires at + |EscapeChr(k, c)| <= buffer.Length
    modifies buffer
    ensures end == at + |EscapeChr(k, c)| && buffer[..end] == old(buffer[..at]) + EscapeChr(k, c)
    ensures forall i :: end <= i < buffer.Length ==> buffer[i] == old(buffer[i])
  {
    hide Reserved, ToHex;
    if Reserved(k, c) {
      end := Put(buffer, at, PERCENT);
      end := Put(buffer, end, ToHex((c >> 4) & 0xF));
      end := Put(buffer, end, ToHex(c & 0xF));
    } else {
      end := Put(buffer, at, c);
    }
  }

  /** Appends the escaped form of s to the first at characters of the buffer. */
  method EscapeString(s: Str, buffer: array<Chr>, at: nat, k: Component) returns (end: nat)
    requires at + |Escape(k, s)| <= buffer.Length
    modifies buffer
    ensures end == at + |Escape(k, s)| && buffer[..end] == old(buffer[..at]) + Escape(k, s)
    ensures forall i :: end <= i < buffer.Length ==> buffer[i] == old(buffer[i])
  {
    hide EscapeChr, Escape;
    ghost var before := buffer[..at];
    end := at;
    EscapeNothing(k);
    var i := 0;
    while i < |s|
      invariant i <= |s| && end == at + |Escape(k, s[..i])| <= buffer.Length
      invariant buffer[..end] == before + Escape(k, s[..i])
      invariant forall j :: end <= j < buffer.Length ==> buffer[j] == old(buffer[j])
    {
      var c := s[i];
      EscapeStep(k, s, i);
      end := PutEscaped(buffer, end, c, k);
      i := i + 1;
    }
    assert s[..|s|] == s;
  }

  lemma EscapeStep(k: Component, s: Str, i: nat)
    requires i < |s|
    ensures Escape(k, s[..i + 1]) == Escape(k, s[..i]) + EscapeChr(k, s[i])
    ensures |Escape(k, s[..i + 1])| <= |Escape(k, s)|
  {
    hide EscapeChr, Escape;
    EscapeCons(k, s[i], []);
    EscapeNothing(k);
    assert [s[i]] + [] == [s[i]];
    EscapeConcat(k, s[..i], [s[i]]);
    assert s[..i] + [s[i]] == s[..i + 1];
    EscapeConcat(k, s[..i + 1], s[i + 1..]);
    assert s[..i + 1] + s[i + 1..] == s;
  }

  lemma UnescapeStep(s: Str, i: nat)
    requires i < |s|
    ensures s[i] == PERCENT && i + 2 < |s| ==>
              Unescape(s[i..]) == [FromHex(s[i + 1], s[i + 2])] + Unescape(s[i + 3..])
    ensures !(s[i] == PERCENT && i + 2 < |s|) ==> Unescape(s[i..]) == [s[i]] + Unescape(s[i + 1..])
  {
    hide FromHex;
    if i + 2 < |s| {
      assert s[i..][3..] == s[i + 3..];
    }
    assert s[i..][1..] == s[i + 1..];
  }

  method UnescapedLength(s: Str) returns (length: nat)
    ensures length == |Unescape(s)|
  {
    hide Unescape;
    length := 0;
    var i := 0;
    assert s[0..] == s;
    while i < |s|
      invariant i <= |s| && length + |Unescape(s[i..])| == |Unescape(s)|
    {
      UnescapeStep(s, i);
      if s[i] == PERCENT && i + 2 < |s| {
        i := i + 2;
      }
      length := length + 1;
      i := i + 1;
    }
  }

  method UnescapeString(s: Str, buffer: array<Chr>)
    requires |Unescape(s)| < buffer.Length
    modifies buffer
    ensures buffer[..|Unescape(s)| + 1] == Unescape(s) + [0]
  {
    hide Unescape;
    var i, end := 0, 0;
    assert s[0..] == s;
    while i < |s|
      invariant i <= |s| && end <= buffer.Length && buffer[..end] + Unescape(s[i..]) == Unescape(s)
    {
      UnescapeStep(s, i);
      ghost var rest := Unescape(s[i..]);
      assert |buffer[..end] + rest| == |Unescape(s)|;
      var c := s[i];
      if c == PERCENT && i + 2 < |s| {
        c := FromHex(s[i + 1], s[i + 2]);
        i := i + 2;
      }
      ghost var before := buffer[..end];
      end := Put(buffer, end, c);
      i := i + 1;
      assert before + rest == (before + [c]) + Unescape(s[i..]);
    }
    NothingToUnescape(s[i..]);
    end := Put(buffer, end, 0);
  }

  lemma NothingToUnescape(s: Str)
    ensures s == [] ==> Unescape(s) == []
  {
  }

  /** A new buffer that holds exactly the unescaped stretch and its NUL. */
  method CreateUnescapedString(s: Str) returns (buffer: array<Chr>)
    ensures fresh(buffer) && buffer[..] == Unescape(s) + [0]
  {
    var length := UnescapedLength(s);
    buffer := new Chr[length + 1];
    UnescapeString(s, buffer);
  }

  lemma CutAt(s: Str, z: nat)
    requires z < |s| && s[z] == 0 && forall i :: 0 <= i < z ==> s[i] != 0
    ensures Cut(s) == s[..z]
  {
    CutString(s[..z], s[z + 1..]);
    assert s[..z] + [0] + s[z + 1..] == s;
  }

  lemma CutEnds(s: Str)
    requires 0 in s
    ensures |Cut(s)| < |s| && s[|Cut(s)|] == 0
  {
  }

  /** Lower-cases the C string in the buffer in place. */
  method ToLowerString(buffer: array<Chr>)
    requires 0 in buffer[..]
    modifies buffer
    ensures Cut(buffer[..]) == Lower(old(Cut(buffer[..])))
  {
    ghost var was := buffer[..];
    ghost var z := |Cut(was)|;
    CutEnds(was);
    var i := 0;
    while buffer[i] != 0
      invariant i <= z
      invariant forall j :: 0 <= j < i ==> buffer[j] == LowerChr(was[j])
      invariant forall j :: i <= j < buffer.Length ==> buffer[j] == was[j]
      decreases z - i
    {
      var c := buffer[i];
      if 0x41 <= c <= 0x5A {
        buffer[i] := c - 0x41 + 0x61;
      }
      i := i + 1;
    }
    assert i == z;
    CutAt(buffer[..], z);
  }

  /** The string of a stretch of the URI, as stored in the parts. */
  method StoredString(s: Str) returns (r: Str)
    ensures r == Text(s)
  {
    var buffer := CreateUnescapedString(s);
    CutTerminated(Unescape(s));
    r := Cut(buffer[..]);
  }

  /** The same in lower case. */
  method StoredLower(s: Str) returns (r: Str)
    ensures r == Lower(Text(s))
  {
    var buffer := CreateUnescapedString(s);
    CutTerminated(Unescape(s));
    assert buffer[..][|Unescape(s)|] == 0;
    ToLowerString(buffer);
    r := Cut(buffer[..]);
  }

  /** The first delimiter at or behind a position, or the end of the string. */
  method FindDelimiter(s: Str, from: nat, delimiters: Str) returns (at: nat)
    requires NulFree(s) && NulFree(delimiters) && from <= |s|
    ensures at == from + Find(s[from..], delimiters)
  {
    at := from;
    while CharAt(s, at) != 0
      invariant from <= at <= |s|
      invariant forall i :: from <= i < at ==> s[i] !in delimiters
      decreases |s| - at
    {
      if CharAt(s, at) in delimiters {
        break;
      }
      at := at + 1;
    }
    FindUnique(s[from..], delimiters, at - from);
  }

  // ---------- the parts structure ----------

  class UriParts {
    var scheme: Option<Str>
    var userinfo: Option<Str>
    var host: Option<Str>
    var port: Option<Str>
    var path: Option<Str>
    var fragment: Option<Str>
    var queries: array?<Spec.Item>
    var numQueries: nat

    predicate QueriesFit()
      reads this`queries, this`numQueries
    {
      numQueries <= if queries == null then 0 else queries.Length
    }

    function Queries(): seq<Spec.Item>
      requires QueriesFit()
      reads this`queries, this`numQueries, queries
    {
      if queries == null then [] else queries[..numQueries]
    }

    function View(): Spec.Parts
      requires QueriesFit()
      reads this, queries
    {
      Spec.Parts(scheme, Spec.Authority(userinfo, host, port), path, Queries(), fragment)
    }

    /** All strings are C strings. */
    ghost predicate Valid()
      reads this, queries
    {
      QueriesFit() && PartsFree(View())
    }

    constructor ()
      ensures Valid() && View() == Spec.Parts(None, Spec.NO_AUTHORITY, None, [], None)
    {
      scheme, userinfo, host, port, path, fragment := None, None, None, None, None, None;
      queries := null;
      numQueries := 0;
    }

    method Clear()
      modifies this
      ensures queries == null && numQueries == 0 && Valid()
              && View() == Spec.Parts(None, Spec.NO_AUTHORITY, None, [], None)
    {
      scheme, userinfo, host, port, path, fragment := None, None, None, None, None, None;
      queries := null;
      numQueries := 0;
    }

    /** Stores the authority that stretches from one position to another; userinfoEnd points at its first @. */
    method ParseAuthority(uri: Str, from: nat, end: nat, userinfoEnd: Option<nat>)
      requires from <= end <= |uri| && (userinfoEnd.Some? ==> from <= userinfoEnd.value < end)
      requires Stops(uri[end..], Spec.HOST_PORT_DELIMITERS)
      requires userinfo.None? && port.None?
      modifies this`userinfo, this`host, this`port
      ensures Spec.Authority(userinfo, host, port) ==
              match userinfoEnd
              case Some(m) => Spec.ParseHostPort(Some(Text(uri[from..m])), uri[m + 1..end])
              case None => Spec.ParseHostPort(None, uri[from..end])
    {
      hide Text, Spec.HostEnd, Spec.ParsePort;
      var str := from;
      if userinfoEnd.Some? {
        var text := StoredString(uri[from..userinfoEnd.value]);
        userinfo := Some(text);
        str := userinfoEnd.value + 1;
      }
      ParseHostPort(uri, str, end);
    }

    method ParseHostPort(uri: Str, str: nat, end: nat)
      requires str <= end <= |uri| && Stops(uri[end..], Spec.HOST_PORT_DELIMITERS)
      requires port.None?
      modifies this`host, this`port
      ensures Spec.Authority(userinfo, host, port) == Spec.ParseHostPort(userinfo, uri[str..end])
    {
      hide Text, Spec.HostEnd;
      var marker := HostMarker(uri, str, end);
      SliceOfSlice(uri, str, end, 0, marker - str);
      var text := StoredLower(uri[str..marker]);
      host := Some(text);
      SliceOfSlice(uri, str, end, marker - str, end - str);
      if CharAt(uri, marker) == COLON {
        SliceOfSlice(uri, marker, end, 1, end - marker);
        text := StoredString(uri[marker + 1..end]);
        port := Some(text);
      }
    }

    /** Appends the item between nameStart and end, if it has a name; there must be room for it. */
    method StoreQuery(s: Str, nameStart: nat, equals: Option<nat>, end: nat)
      requires nameStart <= end <= |s| && queries != null && numQueries < queries.Length
      requires equals == FirstEquals(s, nameStart, end)
      modifies this`numQueries, queries
      ensures QueriesFit() && queries == old(queries) && numQueries <= old(numQueries) + 1
      ensures Queries() == old(Queries()) + Spec.DecodeAll(Spec.ItemOf(s[nameStart..end]))
    {
      hide Text, Find;
      ghost var piece := s[nameStart..end];
      ghost var e := Find(piece, [EQUALS]);
      var nameEnd := if equals.Some? then equals.value else end;
      SliceOfSlice(s, nameStart, end, 0, e);
      assert nameEnd == nameStart + e;
      if nameEnd > nameStart {
        var value: Option<Str> := None;
        if equals.Some? {
          SliceOfSlice(s, nameStart, end, e + 1, end - nameStart);
          var text := StoredString(s[equals.value + 1..end]);
          value := Some(text);
        }
        var name := StoredString(s[nameStart..nameEnd]);
        queries[numQueries] := Spec.Item(name, value);
        numQueries := numQueries + 1;
      }
    }

    /** Splits a non-empty query and stores its items. */
    method ParseQuery(s: Str)
      requires queries == null && numQueries == 0
      modifies this`queries, this`numQueries
      ensures QueriesFit() && (queries != null ==> fresh(queries)) && Queries() == Spec.ParseQueries(s)
    {
      hide Text, Find, Spec.Fields, Spec.ItemOf;
      if |s| == 0 {
        Spec.NothingParsed();
        return;
      }
      var queryCount := CountItems(s);
      queries := new Spec.Item[queryCount];
      FillQueries(s);
    }

    /** The second pass of ParseQuery. */
    method FillQueries(s: Str)
      requires queries != null && numQueries == 0 && queries.Length == Separators(s) + 1
      modifies this`numQueries, queries
      ensures QueriesFit() && queries == old(queries) && Queries() == Spec.ParseQueries(s)
    {
      hide Text, Find, Spec.ParseQueries, Separators, UriParts.Queries, FirstEquals;
      NoQueriesYet();
      NoEqualsYet(s);
      var nameStart, i := 0, 0;
      var equals: Option<nat> := None;
      assert s[0..] == s;
      while i < |s|
        invariant nameStart <= i <= |s| && queries == old(queries) && QueriesFit()
        invariant numQueries + Separators(s[i..]) < queries.Length
        invariant Queries() + Spec.ParseQueries(s[nameStart..]) == Spec.ParseQueries(s)
        invariant Avoids(s[nameStart..i], Spec.SEPARATORS)
        invariant equals == FirstEquals(s, nameStart, i)
      {
        var c := s[i];
        SeparatorsStep(s, i);
        FirstEqualsStep(s, nameStart, i);
        assert s[nameStart..i + 1] == s[nameStart..i] + [c];
        if c == EQUALS && equals.None? {
          equals := Some(i);
        }
        if c == AMPERSAND || c == SEMICOLON {
          EndItem(s, nameStart, equals, i);
          equals := None;
          nameStart := i + 1;
        }
        i := i + 1;
      }
      EndItem(s, nameStart, equals, |s|);
    }

    lemma NoQueriesYet()
      requires QueriesFit() && numQueries == 0
      ensures Queries() == []
    {
    }

    /** Storing the item in front of a separator or of the end leaves what is behind to be parsed. */
    method EndItem(s: Str, from: nat, equals: Option<nat>, end: nat)
      requires from <= end <= |s| && Avoids(s[from..end], Spec.SEPARATORS) && Stops(s[end..], Spec.SEPARATORS)
      requires queries != null && numQueries < queries.Length && equals == FirstEquals(s, from, end)
      modifies this`numQueries, queries
      ensures QueriesFit() && queries == old(queries) && numQueries <= old(numQueries) + 1
      ensures Queries() + (if end < |s| then Spec.ParseQueries(s[end + 1..]) else [])
              == old(Queries()) + Spec.ParseQueries(s[from..])
    {
      hide Spec.ParseQueries, Avoids, Spec.DecodeAll, Spec.ItemOf;
      StoreQuery(s, from, equals, end);
      PieceDone(s, from, end);
    }

    /** Fills the parts from a URI. */
    method Parse(uri: Str) returns (ok: bool)
      requires NulFree(uri)
      modifies this
      ensures ok && Valid() && View() == Spec.Parse(uri)
    {
      hide Text, Find, Spec.ParseHier, PartsFree;
      ParseFree(uri);
      Clear();
      var at := 0;
      var marker := FindDelimiter(uri, 0, Spec.SCHEME_DELIMITERS);
      assert uri[0..] == uri;
      if CharAt(uri, marker) == COLON {
        if marker == 1 && Spec.IsAlpha(uri[0]) && CharAt(uri, marker + 1) == BACKSLASH {
          path := Some(uri);
          return true;
        }
        var text := StoredLower(uri[..marker]);
        scheme := Some(text);
        at := marker + 1;
      }
      ParseHier(uri, at);
      ok := true;
    }

    /** What follows the scheme. */
    method ParseHier(uri: Str, from: nat)
      requires NulFree(uri) && from <= |uri| && QueriesFit()
      requires View() == Spec.Parts(scheme, Spec.NO_AUTHORITY, None, [], None) && queries == null && numQueries == 0
      modifies this
      ensures QueriesFit() && View() == Spec.ParseHier(old(scheme), uri[from..])
    {
      hide Text, Find, Spec.ParseTail, Spec.ParseAuthority;
      var at := from;
      if CharAt(uri, at) == SLASH && CharAt(uri, at + 1) == SLASH {
        assert uri[from..][2..] == uri[at + 2..];
        at := FindAuthority(uri, at + 2);
      }
      ParseTail(uri, at);
    }

    /** Finds the end of the authority and stores it. */
    method FindAuthority(uri: Str, from: nat) returns (end: nat)
      requires NulFree(uri) && from <= |uri| && userinfo.None? && port.None?
      modifies this`userinfo, this`host, this`port
      ensures from <= end <= |uri|
      ensures (Spec.Authority(userinfo, host, port), uri[end..]) == Spec.ParseAuthority(uri[from..])
    {
      hide Text, Find, Spec.ParseHostPort, Spec.ParseAuthority, Stops, Spec.UserInfoEnd;
      end := FindDelimiter(uri, from, Spec.NETWORK_DELIMITERS);
      var userinfoEnd: Option<nat> := None;
      AtFound(uri, from, end);
      if CharAt(uri, end) == AT {
        userinfoEnd := Some(end);
        end := FindDelimiter(uri, end + 1, Spec.HOST_PORT_DELIMITERS);
        UserInfoFound(uri, from, userinfoEnd.value, end);
      } else {
        NoUserInfoFound(uri, from, end);
      }
      ParseAuthority(uri, from, end, userinfoEnd);
    }

    /** What follows the authority. */
    method ParseTail(uri: Str, from: nat)
      requires NulFree(uri) && from <= |uri| && path.None? && fragment.None? && queries == null && numQueries == 0
      modifies this`path, this`queries, this`numQueries, this`fragment
      ensures QueriesFit() && View() == Spec.ParseTail(scheme, Spec.Authority(userinfo, host, port), uri[from..])
    {
      hide Text, Find, Spec.ParseEnd;
      var marker := FindDelimiter(uri, from, Spec.PATH_DELIMITERS);
      TailSlices(uri, from, 0, marker - from);
      if marker > from {
        var text := StoredString(uri[from..marker]);
        path := Some(text);
      }
      ParseEnd(uri, marker);
    }

    /** The query and the fragment. */
    method ParseEnd(uri: Str, from: nat)
      requires NulFree(uri) && from <= |uri| && fragment.None? && queries == null && numQueries == 0
      modifies this`queries, this`numQueries, this`fragment
      ensures QueriesFit() && (Queries(), fragment) == Spec.ParseEnd(uri[from..])
    {
      hide Text, Find, Spec.ParseQueries, UriParts.Queries;
      var marker := from;
      NoQueriesYet();
      if CharAt(uri, marker) == QUESTION {
        TailSlices(uri, from, 1, 0);
        marker := FindDelimiter(uri, from + 1, Spec.QUERY_DELIMITERS);
        TailSlices(uri, from, 1, marker - from - 1);
        ParseQuery(uri[from + 1..marker]);
      }
      if CharAt(uri, marker) == HASH {
        TailSlices(uri, marker, 1, 0);
        var text := StoredString(uri[marker + 1..]);
        fragment := Some(text);
      }
    }

    /** Returns the length of the URI, and prints it if there is a buffer with room for it and its NUL. */
    method Build(buffer: array?<Chr>, size: nat) returns (required: nat)
      requires Valid() && (buffer != null ==> size <= buffer.Length)
      modifies if buffer == null then {} else {buffer}
      ensures required == |Spec.Print(old(View()))|
      ensures buffer != null && required < size ==> buffer[..required + 1] == Spec.Print(old(View())) + [0]
      ensures buffer != null && required >= size ==> buffer[..] == old(buffer[..])
    {
      hide Spec.Print, PartsFree, UriParts.View;
      var p := View();
      required := CalculateUriLength(p);
      if buffer != null && required < size {
        BuildUri(p, buffer, size);
      }
    }
  }

  // ---------- building ----------

  /** The length of the printed URI, without its NUL. */
  method CalculateUriLength(p: Spec.Parts) returns (length: nat)
    ensures length == |Spec.Print(p)|
  {
    hide Escape, Spec.AuthorityText, Spec.QueryText;
    if p.scheme.None? {
      return if p.path.Some? then |p.path.value| else 0;
    }
    length := EscapedLength(p.scheme.value, Scheme);
    length := length + 1;
    var n;
    if p.authority.host.Some? {
      n := AuthorityLength(p.authority);
      length := length + n + 2;
    }
    if p.path.Some? {
      n := EscapedLength(p.path.value, Path);
      length := length + n;
    } else {
      EscapeNothing(Path);
    }
    n := QueriesLength(p.queries);
    length := length + n;
    if p.fragment.Some? {
      n := EscapedLength(p.fragment.value, Fragment);
      length := length + n + 1;
    }
  }

  method AuthorityLength(a: Spec.Authority) returns (length: nat)
    requires a.host.Some?
    ensures length == |Spec.AuthorityText(a)|
  {
    hide Escape;
    length := EscapedLength(a.host.value, Host);
    if a.userinfo.Some? {
      var n := EscapedLength(a.userinfo.value, UserInfo);
      length := length + n + 1;
    }
    if a.port.Some? {
      var n := EscapedLength(a.port.value, Port);
      length := length + n + 1;
    }
  }

  method QueriesLength(queries: seq<Spec.Item>) returns (length: nat)
    ensures length == |Spec.QueryText(queries)|
  {
    hide Escape, Spec.Join;
    length := 0;
    var count: nat := |queries|;
    var i: nat := 0;
    assert queries[0..] == queries;
    while count > 0
      invariant i + count == |queries|
      invariant length + (if count > 0 then 1 + |Escape(Query, Spec.Join(queries[i..]))| else 0)
                == |Spec.QueryText(queries)|
    {
      count := count - 1;
      JoinEscapes(queries, i);
      var n := EscapedLength(queries[i].name, Query);
      length := length + n + 1;
      if queries[i].value.Some? {
        n := EscapedLength(queries[i].value.value, Query);
        length := length + n + 1;
      }
      i := i + 1;
    }
  }

  lemma Append2(x: Str, a: Str, b: Str)
    ensures (x + a) + b == x + (a + b)
  {
  }

  lemma Append3(x: Str, a: Str, b: Str, c: Str)
    ensures ((x + a) + b) + c == x + ((a + b) + c)
  {
  }

  lemma Append4(x: Str, a: Str, b: Str, c: Str, d: Str)
    ensures (((x + a) + b) + c) + d == x + (a + (b + (c + d)))
    ensures x + a + b + c + d == x + (a + (b + (c + d)))
  {
  }

  /** A mark and a component, if it is there. */
  method BuildPrefixed(k: Component, mark: Chr, s: Option<Str>, buffer: array<Chr>, at: nat) returns (end: nat)
    requires at + |Spec.Prefixed(k, mark, s)| <= buffer.Length
    modifies buffer
    ensures end == at + |Spec.Prefixed(k, mark, s)| && buffer[..end] == old(buffer[..at]) + Spec.Prefixed(k, mark, s)
    ensures forall i :: end <= i < buffer.Length ==> buffer[i] == old(buffer[i])
  {
    hide Escape;
    end := at;
    if s.Some? {
      end := Put(buffer, end, mark);
      end := EscapeString(s.value, buffer, end, k);
    }
  }

  method BuildUserInfo(u: Option<Str>, buffer: array<Chr>, at: nat) returns (end: nat)
    requires at + |Spec.UserInfoText(u)| <= buffer.Length
    modifies buffer
    ensures end == at + |Spec.UserInfoText(u)| && buffer[..end] == old(buffer[..at]) + Spec.UserInfoText(u)
    ensures forall i :: end <= i < buffer.Length ==> buffer[i] == old(buffer[i])
  {
    hide Escape;
    end := at;
    if u.Some? {
      end := EscapeString(u.value, buffer, end, UserInfo);
      end := Put(buffer, end, AT);
    }
  }

  method BuildAuthority(a: Spec.Authority, buffer: array<Chr>, at: nat) returns (end: nat)
    requires a.host.Some? && at + 2 + |Spec.AuthorityText(a)| <= buffer.Length
    modifies buffer
    ensures end == at + 2 + |Spec.AuthorityText(a)|
    ensures buffer[..end] == (old(buffer[..at]) + [SLASH, SLASH]) + Spec.AuthorityText(a)
    ensures forall i :: end <= i < buffer.Length ==> buffer[i] == old(buffer[i])
  {
    hide Escape, Spec.UserInfoText, Spec.Prefixed;
    ghost var before := buffer[..at];
    end := Put(buffer, at, SLASH);
    end := Put(buffer, end, SLASH);
    assert (before + [SLASH]) + [SLASH] == before + [SLASH, SLASH];
    end := BuildUserInfo(a.userinfo, buffer, end);
    end := EscapeString(a.host.value, buffer, end, Host);
    end := BuildPrefixed(Port, COLON, a.port, buffer, end);
    Append3(before + [SLASH, SLASH], Spec.UserInfoText(a.userinfo), Escape(Host, a.host.value),
            Spec.Prefixed(Port, COLON, a.port));
  }

  method BuildItem(q: Spec.Item, buffer: array<Chr>, at: nat) returns (end: nat)
    requires at + |ItemEscaped(q)| <= buffer.Length
    modifies buffer
    ensures end == at + |ItemEscaped(q)| && buffer[..end] == old(buffer[..at]) + ItemEscaped(q)
    ensures forall i :: end <= i < buffer.Length ==> buffer[i] == old(buffer[i])
  {
    hide Escape;
    end := EscapeString(q.name, buffer, at, Query);
    if q.value.Some? {
      end := Put(buffer, end, EQUALS);
      end := EscapeString(q.value.value, buffer, end, Query);
    }
  }

  /** An item and, unless it is the last one, its separator. */
  method BuildRound(queries: seq<Spec.Item>, i: nat, buffer: array<Chr>, at: nat) returns (end: nat)
    requires i < |queries| && at + |Escape(Query, Spec.Join(queries[i..]))| <= buffer.Length
    modifies buffer
    ensures at <= end <= buffer.Length
    ensures buffer[..end] + Escape(Query, Spec.Join(queries[i + 1..]))
            == old(buffer[..at]) + Escape(Query, Spec.Join(queries[i..]))
    ensures forall j :: end <= j < buffer.Length ==> buffer[j] == old(buffer[j])
  {
    hide *;
    ghost var before := buffer[..at];
    JoinEscapes(queries, i);
    JoinNothing();
    end := BuildItem(queries[i], buffer, at);
    if i + 1 < |queries| {
      end := Put(buffer, end, AMPERSAND);
    } else {
      assert queries[i + 1..] == [];
    }
  }

  method BuildQueries(queries: seq<Spec.Item>, buffer: array<Chr>, at: nat) returns (end: nat)
    requires at + |Spec.QueryText(queries)| <= buffer.Length
    modifies buffer
    ensures end == at + |Spec.QueryText(queries)| && buffer[..end] == old(buffer[..at]) + Spec.QueryText(queries)
    ensures forall i :: end <= i < buffer.Length ==> buffer[i] == old(buffer[i])
  {
    hide Escape, Spec.Join, ItemEscaped;
    end := at;
    var count: nat := |queries|;
    if count == 0 {
      return;
    }
    var i: nat := 0;
    ghost var all := buffer[..at] + Spec.QueryText(queries);
    end := Put(buffer, at, QUESTION);
    assert queries[0..] == queries;
    while count > 0
      invariant i + count == |queries| && end <= buffer.Length
      invariant buffer[..end] + Escape(Query, Spec.Join(queries[i..])) == all
      invariant forall j :: end <= j < buffer.Length ==> buffer[j] == old(buffer[j])
    {
      count := count - 1;
      assert |all| <= buffer.Length;
      end := BuildRound(queries, i, buffer, end);
      i := i + 1;
    }
    JoinNothing();
    assert queries[i..] == [];
  }

  /** Prints the parts and a NUL. */
  method BuildUri(p: Spec.Parts, buffer: array<Chr>, size: nat)
    requires |Spec.Print(p)| < size <= buffer.Length && PartsFree(p)
    modifies buffer
    ensures buffer[..|Spec.Print(p)| + 1] == Spec.Print(p) + [0]
  {
    hide Escape;
    if p.scheme.None? {
      if p.path.Some? {
        CopyString(buffer, p.path.value, size);
      } else {
        buffer[0] := 0;
      }
      return;
    }
    hide Spec.Print;
    BuildFromScheme(p, buffer);
  }

  /** Where the printed parts stand. */
  lemma PrintParts(p: Spec.Parts)
    requires p.scheme.Some?
    ensures Spec.Print(p) ==
            (((Escape(Scheme, p.scheme.value) + [COLON]) + HostPart(p)) + Escape(Path, Spec.OrEmpty(p.path)))
            + (Spec.QueryText(p.queries) + Spec.Prefixed(Fragment, HASH, p.fragment))
  {
    hide Escape, Spec.QueryText, Spec.Prefixed, Spec.AuthorityText;
    var head := Escape(Scheme, p.scheme.value) + [COLON];
    if p.authority.host.Some? {
      Append4(head, [SLASH, SLASH], Spec.AuthorityText(p.authority), Escape(Path, Spec.OrEmpty(p.path)),
              Spec.TailText(p));
      Append2(head, [SLASH, SLASH], Spec.AuthorityText(p.authority));
    } else {
      Append2(head, Escape(Path, Spec.OrEmpty(p.path)), Spec.TailText(p));
    }
  }

  function HostPart(p: Spec.Parts): Str
  {
    if p.authority.host.Some? then [SLASH, SLASH] + Spec.AuthorityText(p.authority) else []
  }

  method BuildHost(p: Spec.Parts, buffer: array<Chr>, at: nat) returns (end: nat)
    requires at + |HostPart(p)| <= buffer.Length
    modifies buffer
    ensures end == at + |HostPart(p)| && buffer[..end] == old(buffer[..at]) + HostPart(p)
    ensures forall i :: end <= i < buffer.Length ==> buffer[i] == old(buffer[i])
  {
    hide Spec.AuthorityText;
    end := at;
    if p.authority.host.Some? {
      ghost var before := buffer[..at];
      end := BuildAuthority(p.authority, buffer, end);
      Append2(before, [SLASH, SLASH], Spec.AuthorityText(p.authority));
    }
  }

  method BuildFromScheme(p: Spec.Parts, buffer: array<Chr>)
    requires p.scheme.Some? && |Spec.Print(p)| < buffer.Length
    modifies buffer
    ensures buffer[..|Spec.Print(p)| + 1] == Spec.Print(p) + [0]
    ensures forall i :: |Spec.Print(p)| < i < buffer.Length ==> buffer[i] == old(buffer[i])
  {
    hide *;
    PrintParts(p);
    EscapeNothing(Path);
    var end := EscapeString(p.scheme.value, buffer, 0, Scheme);
    assert buffer[..end] == Escape(Scheme, p.scheme.value);
    end := Put(buffer, end, COLON);
    end := BuildHost(p, buffer, end);
    ghost var before := buffer[..end];
    end := EscapeString(Spec.OrEmpty(p.path), buffer, end, Path);
    ghost var head := before + Escape(Path, Spec.OrEmpty(p.path));
    end := BuildQueries(p.queries, buffer, end);
    end := BuildPrefixed(Fragment, HASH, p.fragment, buffer, end);
    Append2(head, Spec.QueryText(p.queries), Spec.Prefixed(Fragment, HASH, p.fragment));
    end := Put(buffer, end, 0);
  }

  /** strncpy: the string, and NULs up to the size. */
  method CopyString(buffer: array<Chr>, s: Str, size: nat)
    requires NulFree(s) && |s| < size <= buffer.Length
    modifies buffer
    ensures buffer[..|s| + 1] == s + [0] && forall i :: |s| <= i < size ==> buffer[i] == 0
  {
    forall i | 0 <= i < size {
      buffer[i] := if i < |s| then s[i] else 0;
    }
  }

  /** The printed form of an item. */
  function ItemEscaped(q: Spec.Item): Str
  {
    Escape(Query, q.name) + if q.value.Some? then [EQUALS] + Escape(Query, q.value.value) else []
  }

  lemma ItemEscapes(q: Spec.Item)
    ensures Escape(Query, Spec.ItemText(q)) == ItemEscaped(q)
  {
    ReservedClasses(EQUALS);
    hide Reserved;
    if q.value.Some? {
      EscapeHead(Query, [EQUALS] + q.value.value);
      hide Escape;
      assert ([EQUALS] + q.value.value)[1..] == q.value.value;
      EscapeConcat(Query, q.name, [EQUALS] + q.value.value);
    } else {
      hide Escape;
      assert Spec.ItemText(q) == q.name && ItemEscaped(q) == Escape(Query, q.name);
    }
  }

  /** The printed query from item i on. */
  lemma JoinEscapes(qs: seq<Spec.Item>, i: nat)
    requires i < |qs|
    ensures Escape(Query, Spec.Join(qs[i..])) == ItemEscaped(qs[i]) +
            if i + 1 < |qs| then [AMPERSAND] + Escape(Query, Spec.Join(qs[i + 1..])) else []
  {
    hide *;
    assert qs[i..] == [qs[i]] + qs[i + 1..];
    Spec.JoinCons(qs[i], qs[i + 1..]);
    ItemEscapes(qs[i]);
    var rest := Spec.Join(qs[i + 1..]);
    EscapeNothing(Query);
    Ampersand(rest);
    EscapeConcat(Query, Spec.ItemText(qs[i]), if i + 1 < |qs| then [AMPERSAND] + rest else []);
  }

  lemma Ampersand(s: Str)
    ensures Escape(Query, [AMPERSAND] + s) == [AMPERSAND] + Escape(Query, s)
  {
    ReservedClasses(AMPERSAND);
    EscapeHead(Query, [AMPERSAND] + s);
    hide Reserved, Escape;
    assert ([AMPERSAND] + s)[1..] == s;
  }

  lemma JoinNothing()
    ensures Escape(Query, Spec.Join([])) == []
  {
  }

  /** The parser stores C strings. */
  lemma ParseFree(uri: Str)
    requires NulFree(uri)
    ensures PartsFree(Spec.Parse(uri))
  {
    hide Find, Text, Spec.ParseHier;
    var m := Find(uri, Spec.SCHEME_DELIMITERS);
    TextFree(uri[..m]);
    if Spec.StartsWith(uri[m..], COLON) {
      HierFree(Some(Lower(Text(uri[..m]))), uri[m + 1..]);
    } else {
      HierFree(None, uri);
    }
  }

  ghost predicate AuthorityFree(a: Spec.Authority)
  {
    OptionFree(a.userinfo) && OptionFree(a.host) && OptionFree(a.port)
  }

  lemma HierFree(scheme: Option<Str>, s: Str)
    requires OptionFree(scheme)
    ensures PartsFree(Spec.ParseHier(scheme, s))
  {
    hide Find, Text, Spec.ParseTail, Spec.ParseAuthority;
    if Spec.DoubleSlash(s) {
      var a := s[2..];
      AuthorityTextFree(a);
      TailFree(scheme, Spec.ParseAuthority(a).0, Spec.ParseAuthority(a).1);
    } else {
      TailFree(scheme, Spec.NO_AUTHORITY, s);
    }
  }

  lemma HostPortFree(userinfo: Option<Str>, s: Str)
    requires OptionFree(userinfo)
    ensures AuthorityFree(Spec.ParseHostPort(userinfo, s))
  {
    hide Find, Text, Spec.HostEnd;
    TextFree(s[..Spec.HostEnd(s)]);
    var r := s[Spec.HostEnd(s)..];
    if r != [] {
      TextFree(r[1..]);
    }
  }

  lemma AuthorityTextFree(a: Str)
    ensures AuthorityFree(Spec.ParseAuthority(a).0)
  {
    hide Find, Text, Spec.ParseHostPort, AuthorityFree, Spec.UserInfoEnd;
    match Spec.UserInfoEnd(a)
    case Some(m) =>
      TextFree(a[..m]);
      HostPortFree(Some(Text(a[..m])), a[m + 1..][..Find(a[m + 1..], Spec.HOST_PORT_DELIMITERS)]);
    case None =>
      HostPortFree(None, a[..Find(a, Spec.HOST_PORT_DELIMITERS)]);
  }

  lemma TailFree(scheme: Option<Str>, authority: Spec.Authority, s: Str)
    requires OptionFree(scheme) && AuthorityFree(authority)
    ensures PartsFree(Spec.ParseTail(scheme, authority, s))
  {
    hide Find, Text, Spec.Fields;
    forall s: Str ensures NulFree(Text(s)) {
      TextFree(s);
    }
  }

  lemma TextFree(s: Str)
    ensures NulFree(Text(s)) && NulFree(Lower(Text(s)))
  {
  }

  lemma TailSlices(s: Str, from: nat, p: nat, q: nat)
    requires from + p + q <= |s|
    ensures s[from..][p..] == s[from + p..]
    ensures s[from..][p..][..q] == s[from + p..from + p + q] && s[from..][p..][q..] == s[from + p + q..]
    ensures p == 0 ==> s[from..][..q] == s[from..from + q] && s[from..][q..] == s[from + q..]
  {
  }

  /** Which of the two forms of authority a search for @ / ? # has found. */
  lemma AtFound(uri: Str, from: nat, m: nat)
    requires from <= |uri| && m == from + Find(uri[from..], Spec.NETWORK_DELIMITERS)
    ensures if CharAt(uri, m) == AT then m < |uri| && Spec.UserInfoEnd(uri[from..]) == Some(m - from)
            else Spec.UserInfoEnd(uri[from..]) == None && m == from + Find(uri[from..], Spec.HOST_PORT_DELIMITERS)
  {
    AuthorityEnd(uri[from..]);
    hide Find, Spec.UserInfoEnd;
    TailSlices(uri, from, 0, m - from);
  }

  lemma UserInfoFound(uri: Str, from: nat, m: nat, end: nat)
    requires from <= m < |uri| && Spec.UserInfoEnd(uri[from..]) == Some(m - from)
    requires end == m + 1 + Find(uri[m + 1..], Spec.HOST_PORT_DELIMITERS)
    ensures Stops(uri[end..], Spec.HOST_PORT_DELIMITERS)
    ensures Spec.ParseAuthority(uri[from..])
            == (Spec.ParseHostPort(Some(Text(uri[from..m])), uri[m + 1..end]), uri[end..])
  {
    hide Text, Find, Spec.ParseHostPort, Spec.UserInfoEnd;
    TailSlices(uri, from, 0, m - from);
    TailSlices(uri, from, m - from + 1, end - m - 1);
  }

  lemma NoUserInfoFound(uri: Str, from: nat, end: nat)
    requires from <= end <= |uri| && Spec.UserInfoEnd(uri[from..]) == None
    requires end == from + Find(uri[from..], Spec.HOST_PORT_DELIMITERS)
    ensures Stops(uri[end..], Spec.HOST_PORT_DELIMITERS)
    ensures Spec.ParseAuthority(uri[from..]) == (Spec.ParseHostPort(None, uri[from..end]), uri[end..])
  {
    hide Text, Find, Spec.ParseHostPort, Spec.UserInfoEnd;
    TailSlices(uri, from, 0, end - from);
  }

  /** The two searches of the parser for the end of the authority. */
  lemma AuthorityEnd(a: Str)
    ensures var m := Find(a, Spec.NETWORK_DELIMITERS);
            if Spec.StartsWith(a[m..], AT) then Spec.UserInfoEnd(a) == Some(m)
            else Spec.UserInfoEnd(a) == None && m == Find(a, Spec.HOST_PORT_DELIMITERS)
  {
    var m := Find(a, Spec.NETWORK_DELIMITERS);
    if !Spec.StartsWith(a[m..], AT) {
      FindUnique(a, Spec.HOST_PORT_DELIMITERS, m);
    }
  }

  /** The first = of a stretch. */
  function FirstEquals(s: Str, from: nat, to: nat): Option<nat>
    requires from <= to <= |s|
  {
    var e := Find(s[from..to], [EQUALS]);
    if e < to - from then Some(from + e) else None
  }

  lemma NoEqualsYet(s: Str)
    ensures FirstEquals(s, 0, 0) == None
  {
  }

  lemma FirstEqualsStep(s: Str, from: nat, i: nat)
    requires from <= i < |s|
    ensures FirstEquals(s, from, i + 1) ==
            if FirstEquals(s, from, i).None? && s[i] == EQUALS then Some(i) else FirstEquals(s, from, i)
    ensures FirstEquals(s, i + 1, i + 1) == None
  {
    var e := Find(s[from..i], [EQUALS]);
    assert s[from..i + 1] == s[from..i] + [s[i]];
    FindUnique(s[from..i + 1], [EQUALS], if e < i - from || s[i] == EQUALS then e else e + 1);
  }

  /** How many & and ; there are. */
  function Separators(s: Str): nat
  {
    if s == [] then 0 else (if s[0] == AMPERSAND || s[0] == SEMICOLON then 1 else 0) + Separators(s[1..])
  }

  lemma SeparatorsStep(s: Str, i: nat)
    requires i < |s|
    ensures Separators(s[i..]) == (if s[i] == AMPERSAND || s[i] == SEMICOLON then 1 else 0) + Separators(s[i + 1..])
  {
    assert s[i..][1..] == s[i + 1..];
  }

  /** The scan for the number of query items: an upper bound of what will be stored. */
  method CountItems(s: Str) returns (count: nat)
    ensures count == Separators(s) + 1
  {
    count := 1;
    var i := 0;
    assert s[0..] == s;
    while i < |s|
      invariant i <= |s| && count + Separators(s[i..]) == Separators(s) + 1
    {
      SeparatorsStep(s, i);
      var c := s[i];
      if c == AMPERSAND || c == SEMICOLON {
        count := count + 1;
      }
      i := i + 1;
    }
  }

  /** What is parsed from a piece and its separator on. */
  lemma PieceDone(s: Str, from: nat, i: nat)
    requires from <= i <= |s| && Avoids(s[from..i], Spec.SEPARATORS)
    requires i < |s| ==> s[i] in Spec.SEPARATORS
    ensures Spec.ParseQueries(s[from..])
            == Spec.DecodeAll(Spec.ItemOf(s[from..i])) + if i < |s| then Spec.ParseQueries(s[i + 1..]) else []
  {
    hide Spec.ParseQueries, Spec.ItemOf, Spec.DecodeAll, Avoids;
    assert s[from..] == s[from..i] + s[i..];
    Spec.ParseAt(s[from..i], s[i..]);
    if i < |s| {
      assert s[i..][1..] == s[i + 1..];
    }
  }

  /** Where the host ends that starts at str. */
  method HostMarker(uri: Str, str: nat, end: nat) returns (marker: nat)
    requires str <= end <= |uri|
    requires Stops(uri[end..], Spec.HOST_PORT_DELIMITERS)
    ensures marker == str + Spec.HostEnd(uri[str..end])
    ensures CharAt(uri, marker) == COLON <==> Spec.StartsWith(uri[str..end][marker - str..], COLON)
  {
    marker := str;
    var t := uri[str..end];
    if CharAt(uri, str) == OPEN {
      while marker < end
        invariant str <= marker <= end
        invariant forall i :: 0 <= i < marker - str ==> t[i] !in [CLOSE]
      {
        var c := uri[marker];
        if c == CLOSE {
          break;
        }
        marker := marker + 1;
      }
      FindUnique(t, [CLOSE], marker - str);
      if marker < end {
        marker := marker + 1;
      }
    } else {
      while marker < end
        invariant str <= marker <= end
        invariant forall i :: 0 <= i < marker - str ==> t[i] !in [COLON]
      {
        var c := uri[marker];
        if c == COLON {
          break;
        }
        marker := marker + 1;
      }
      FindUnique(t, [COLON], marker - str);
    }
  }

  lemma ConcatFree(a: Str, b: Str)
    requires NulFree(a) && NulFree(b)
    ensures NulFree(a + b)
  {
  }

  lemma PrefixedFree(k: Component, mark: Chr, s: Option<Str>)
    requires mark != 0
    ensures NulFree(Spec.Prefixed(k, mark, s))
  {
    if s.Some? {
      EscapeNulFree(k, s.value);
    }
    hide Escape;
  }

  lemma AuthorityTextNulFree(a: Spec.Authority)
    requires a.host.Some?
    ensures NulFree(Spec.AuthorityText(a))
  {
    if a.userinfo.Some? {
      EscapeNulFree(UserInfo, a.userinfo.value);
    }
    EscapeNulFree(Host, a.host.value);
    PrefixedFree(Port, COLON, a.port);
    hide Escape, Spec.Prefixed;
  }

  lemma TailTextNulFree(p: Spec.Parts)
    ensures NulFree(Spec.PathAndTail(p))
  {
    EscapeNulFree(Path, Spec.OrEmpty(p.path));
    PrefixedFree(Query, QUESTION, Some(Spec.Join(p.queries)));
    PrefixedFree(Fragment, HASH, p.fragment);
    hide Escape, Spec.Join;
  }

  /** A printed URI is a C string. */
  lemma PrintFree(p: Spec.Parts)
    requires PartsFree(p)
    ensures NulFree(Spec.Print(p))
  {
    if p.scheme.Some? {
      EscapeNulFree(Scheme, p.scheme.value);
      TailTextNulFree(p);
      hide Escape, Spec.PathAndTail, Spec.AuthorityText, NulFree;
      if p.authority.host.Some? {
        AuthorityTextNulFree(p.authority);
        ConcatFree(Spec.AuthorityText(p.authority), Spec.PathAndTail(p));
        SlashesFree(Spec.AuthorityText(p.authority) + Spec.PathAndTail(p));
      }
      ColonFree(Escape(Scheme, p.scheme.value), Spec.HierText(p));
    }
  }

  lemma SlashesFree(s: Str)
    requires NulFree(s)
    ensures NulFree([SLASH, SLASH] + s)
  {
  }

  lemma ColonFree(a: Str, b: Str)
    requires NulFree(a) && NulFree(b)
    ensures NulFree(a + [COLON] + b)
  {
  }

  /** Building into a buffer and parsing what it holds, as a caller of both would do it. */
  method BuildThenParse(parts: UriParts, buffer: array<Chr>, copy: UriParts) returns (ok: bool)
    requires parts.Valid() && parts != copy
    modifies buffer, copy
    ensures ok <==> |Spec.Print(old(parts.View()))| < buffer.Length
    ensures ok && old(parts.scheme).Some? ==>
              copy.Valid() && (copy.View() == old(parts.View()) <==> Spec.WellFormed(old(parts.View())))
  {
    hide Spec.Print, Spec.Parse, PartsFree, Spec.WellFormed;
    ghost var p := parts.View();
    var required := parts.Build(buffer, buffer.Length);
    ok := required < buffer.Length;
    if ok {
      PrintFree(p);
      assert buffer[..] == Spec.Print(p) + [0] + buffer[required + 1..];
      CutString(Spec.Print(p), buffer[required + 1..]);
      var parsed := copy.Parse(Cut(buffer[..]));
      if p.scheme.Some? {
        RoundTrip(p);
      }
    }
  }
}
