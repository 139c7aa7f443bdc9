/** How a decoder finds the units in a byte stream (annex B.1 of ITU-T H.264): it searches for the three-byte start code
    prefix, and a unit goes on to the zero bytes in front of the next one. */
module NalSearch {
  import opened Common
  import opened StartCode
  import opened AnnexB

  const PREFIX: seq<Byte> := [0, 0, 1]

  /** A unit, and how many zero bytes stand in front of its prefix. */
  datatype Found = Found(zeros: nat, unit: seq<Byte>)

  /** s without its trailing zero bytes. */
  function Stripped(s: seq<Byte>): (r: seq<Byte>)
    ensures r <= s && (r != [] ==> r[|r| - 1] != 0) && forall i :: |r| <= i < |s| ==> s[i] == 0
  {
    if s != [] && s[|s| - 1] == 0 then Stripped(s[..|s| - 1]) else s
  }

  lemma StrippedUnique(s: seq<Byte>, r: seq<Byte>)
    requires r <= s && (r != [] ==> r[|r| - 1] != 0) && forall i :: |r| <= i < |s| ==> s[i] == 0
    ensures Stripped(s) == r
  {
    var t := Stripped(s);
    assert t[..|t|] == s[..|t|] && r[..|r|] == s[..|r|];
    assert forall i {:trigger s[i]} :: 0 <= i < |r| ==> s[i] == r[i];
    assert forall i {:trigger s[i]} :: 0 <= i < |t| ==> s[i] == t[i];
  }

  /** The unit at the start of s, behind a prefix, and all further ones. */
  function Units(zeros: nat, s: seq<Byte>): (us: seq<Found>)
    ensures us != []
    decreases |s|
  {
    match LeastMatch(s, 0, PREFIX)
    case None => [Found(zeros, Stripped(s))]
    case Some(q) =>
      var unit := Stripped(s[..q]);
      [Found(zeros, unit)] + Units(q - |unit|, s[q + 3..])
  }

  /** All units of a byte stream. */
  function Decode(s: seq<Byte>): seq<Found>
  {
    match LeastMatch(s, 0, PREFIX)
    case None => []
    case Some(q) => Units(q - |Stripped(s[..q])|, s[q + 3..])
  }

  /** A unit that the framing lets through: no start code prefix in it, and no zero byte at its end. */
  ghost predicate Clean(u: seq<Byte>)
  {
    (u != [] ==> u[|u| - 1] != 0) && forall p: nat :: !MatchAt(u, p, PREFIX)
  }

  ghost predicate AllClean(us: seq<seq<Byte>>)
  {
    forall i {:trigger us[i]} :: 0 <= i < |us| ==> Clean(us[i])
  }

  /** The units as they should be found: each with one zero byte in front of its prefix. */
  function Framed(us: seq<seq<Byte>>): (r: seq<Found>)
    ensures |r| == |us|
  {
    seq(|us|, i requires 0 <= i < |us| => Found(1, us[i]))
  }

  lemma PrefixBytes(s: seq<Byte>, p: nat)
    ensures MatchAt(s, p, PREFIX) <==> p + 3 <= |s| && s[p] == 0 && s[p + 1] == 0 && s[p + 2] == 1
  {
    if p + 3 <= |s| {
      assert s[p..p + 3] == [s[p], s[p + 1], s[p + 2]];
    }
  }

  /** The least match is where there is one and none before. */
  lemma {:induction false} LeastIs(s: seq<Byte>, p: nat, q: nat)
    requires p <= q && MatchAt(s, q, PREFIX) && forall r :: p <= r < q ==> !MatchAt(s, r, PREFIX)
    ensures LeastMatch(s, p, PREFIX) == Some(q)
    decreases q - p
  {
    hide MatchAt, PREFIX;
    if p < q {
      LeastIs(s, p + 1, q);
    }
    PrefixBytes(s, q);
  }

  /** Behind a clean unit the search stops at its end and one zero byte later. */
  lemma UnitEnds(u: seq<Byte>, rest: seq<Byte>)
    requires Clean(u)
    ensures var s := u + ([0, 0, 0, 1] + rest);
            && LeastMatch(s, 0, PREFIX) == Some(|u| + 1) && s[..|u| + 1] == u + [0] && s[|u| + 1 + 3..] == rest
            && Stripped(s[..|u| + 1]) == u
  {
    hide *;
    CutBehind(u, rest);
    EndFound(u, rest);
    LastByte(u);
    StrippedUnique(u + [0], u);
  }

  lemma CutBehind(u: seq<Byte>, rest: seq<Byte>)
    ensures var s := u + ([0, 0, 0, 1] + rest); s[..|u| + 1] == u + [0] && s[|u| + 1 + 3..] == rest
  {
  }

  lemma EndFound(u: seq<Byte>, rest: seq<Byte>)
    requires Clean(u)
    ensures LeastMatch(u + ([0, 0, 0, 1] + rest), 0, PREFIX) == Some(|u| + 1)
  {
    hide *;
    var s := u + ([0, 0, 0, 1] + rest);
    PrefixBytes(s, |u| + 1);
    forall r | 0 <= r < |u| + 1 ensures !MatchAt(s, r, PREFIX) {
      NotWithin(u, rest, r);
    }
    LeastIs(s, 0, |u| + 1);
  }

  lemma LastByte(u: seq<Byte>)
    requires Clean(u)
    ensures u != [] ==> u[|u| - 1] != 0
  {
  }

  lemma NotWithin(u: seq<Byte>, rest: seq<Byte>, r: nat)
    requires Clean(u) && r < |u| + 1
    ensures !MatchAt(u + ([0, 0, 0, 1] + rest), r, PREFIX)
  {
    hide MatchAt, PREFIX;
    PrefixBytes(u + ([0, 0, 0, 1] + rest), r);
    PrefixBytes(u, r);
  }

  /** Each unit of a frame starts with one zero byte and the prefix. */
  lemma StartCodeIs(us: seq<seq<Byte>>)
    requires us != []
    ensures StartCoded(us) == [0, 0, 0, 1] + (us[0] + StartCoded(us[1..]))
  {
  }

  lemma NothingCoded()
    ensures StartCoded([]) == []
  {
  }

  lemma CleanOnly(u: seq<Byte>)
    requires Clean(u)
    ensures LeastMatch(u, 0, PREFIX) == None && Stripped(u) == u
  {
    hide MatchAt;
  }

  /** The rest of a frame behind the start code of its first unit. */
  lemma {:induction false} UnitsFound(us: seq<seq<Byte>>)
    requires us != [] && AllClean(us)
    ensures Units(1, us[0] + StartCoded(us[1..])) == Framed(us)
  {
    hide StartCoded, LeastMatch, Stripped, Clean, START_CODE, PREFIX;
    var more := us[1..];
    assert Clean(us[0]) && us == [us[0]] + more;
    if more == [] {
      NothingCoded();
      assert us[0] + [] == us[0];
      CleanOnly(us[0]);
    } else {
      StartCodeIs(more);
      UnitEnds(us[0], more[0] + StartCoded(more[1..]));
      UnitsFound(more);
      assert Framed(us) == [Found(1, us[0])] + Framed(more);
    }
  }

  lemma FrameFound(us: seq<seq<Byte>>)
    requires AllClean(us)
    ensures Decode(StartCoded(us)) == Framed(us)
  {
    hide StartCoded, LeastMatch, Stripped, Clean, Units;
    if us == [] {
      NothingCoded();
      CleanNothing();
    } else {
      StartCodeIs(us);
      CleanNothing();
      UnitEnds([], us[0] + StartCoded(us[1..]));
      assert [] + StartCoded(us) == StartCoded(us);
      UnitsFound(us);
    }
  }

  lemma CleanNothing()
    ensures Clean([]) && LeastMatch([], 0, PREFIX) == None
  {
  }

  // ---------- what a decoder can find ----------

  /** Whatever is found is clean. */
  lemma {:induction false} UnitsClean(zeros: nat, s: seq<Byte>)
    ensures forall i {:trigger Units(zeros, s)[i]} :: 0 <= i < |Units(zeros, s)| ==> Clean(Units(zeros, s)[i].unit)
    decreases |s|
  {
    hide Stripped, Clean;
    match LeastMatch(s, 0, PREFIX)
    case None =>
      StrippedClean(s, |s|);
      assert s[..|s|] == s;
    case Some(q) =>
      StrippedClean(s, q);
      UnitsClean(q - |Stripped(s[..q])|, s[q + 3..]);
  }

  lemma StrippedClean(s: seq<Byte>, q: nat)
    requires q <= |s| && forall r :: 0 <= r < q ==> !MatchAt(s, r, PREFIX)
    ensures Clean(Stripped(s[..q]))
  {
    hide MatchAt, Stripped;
    var u := Stripped(s[..q]);
    forall p: nat ensures !MatchAt(u, p, PREFIX) {
      PrefixBytes(u, p);
      PrefixBytes(s, p);
    }
  }

  lemma DecodedClean(s: seq<Byte>, us: seq<seq<Byte>>)
    requires Decode(s) == Framed(us)
    ensures AllClean(us)
  {
    hide Clean, Units, LeastMatch, Stripped;
    match LeastMatch(s, 0, PREFIX)
    case None =>
    case Some(q) =>
      UnitsClean(q - |Stripped(s[..q])|, s[q + 3..]);
      forall i | 0 <= i < |us| ensures Clean(us[i]) {
        assert Framed(us)[i] == Decode(s)[i];
      }
  }

  /** The Annex B form of a frame is decoded to exactly its units, each behind one zero byte and a prefix, if and only
      if no unit has a prefix in it or a zero byte at its end. */
  lemma FrameDecodes(us: seq<seq<Byte>>)
    ensures Decode(StartCoded(us)) == Framed(us) <==> AllClean(us)
  {
    hide AllClean, Decode, StartCoded;
    if AllClean(us) {
      FrameFound(us);
    }
    if Decode(StartCoded(us)) == Framed(us) {
      DecodedClean(StartCoded(us), us);
    }
  }
}
