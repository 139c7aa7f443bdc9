/** The two framings of H.264 NAL units: length-prefixed, as in AVC1 streams, and with start codes, as in Annex B of
    ITU-T H.264. */
module AnnexB {
  import opened Common

  const START_CODE: seq<Byte> := [0, 0, 0, 1]

  /** The last bytes of the start code. */
  function StartTail(left: nat): (s: seq<Byte>)
    requires left <= 4
    ensures |s| == left
  {
    START_CODE[4 - left..]
  }

  lemma StartTailCut(left: nat, m: nat)
    requires m <= left <= 4
    ensures StartTail(left) == StartTail(left)[..m] + StartTail(left - m)
  {
  }

  /** The number spelled by bytes, most significant first. */
  function BigEndian(s: seq<Byte>): nat
  {
    if s == [] then 0
    else
      var last: int := s[|s| - 1];
      256 * BigEndian(s[..|s| - 1]) + last
  }

  /** The field of n bytes that spells v. */
  function LengthField(v: nat, n: nat): (s: seq<Byte>)
    ensures |s| == n
  {
    if n == 0 then [] else LengthField(v / 256, n - 1) + [v % 256]
  }

  function Capacity(n: nat): nat
  {
    if n == 0 then 1 else 256 * Capacity(n - 1)
  }

  lemma {:induction false} FieldValue(v: nat, n: nat)
    requires v < Capacity(n)
    ensures BigEndian(LengthField(v, n)) == v
  {
    if n > 0 {
      FieldValue(v / 256, n - 1);
      var s := LengthField(v, n);
      assert s[..|s| - 1] == LengthField(v / 256, n - 1);
    }
  }

  /** Units that can be framed with length fields of n bytes; empty units are not allowed. */
  ghost predicate Framable(units: seq<seq<Byte>>, n: nat)
  {
    forall i {:trigger units[i]} :: 0 <= i < |units| ==> 0 < |units[i]| < Capacity(n)
  }

  function LengthPrefixed(units: seq<seq<Byte>>, n: nat): seq<Byte>
  {
    if units == [] then [] else LengthField(|units[0]|, n) + (units[0] + LengthPrefixed(units[1..], n))
  }

  function StartCoded(units: seq<seq<Byte>>): seq<Byte>
  {
    if units == [] then [] else START_CODE + (units[0] + StartCoded(units[1..]))
  }

  lemma PrefixedNext(units: seq<seq<Byte>>, k: nat, n: nat)
    requires k < |units|
    ensures LengthPrefixed(units[k..], n) == LengthField(|units[k]|, n) + (units[k] + LengthPrefixed(units[k + 1..], n))
  {
    assert units[k..][1..] == units[k + 1..];
  }

  lemma StartCodedNext(units: seq<seq<Byte>>, k: nat)
    requires k < |units|
    ensures StartCoded(units[k..]) == START_CODE + (units[k] + StartCoded(units[k + 1..]))
  {
    assert units[k..][1..] == units[k + 1..];
  }

  /** Sizes of the first k units in both framings. */
  lemma {:induction false} PrefixSizes(units: seq<seq<Byte>>, k: nat, n: nat)
    requires k < |units|
    ensures |LengthPrefixed(units[k..], n)| == n + |units[k]| + |LengthPrefixed(units[k + 1..], n)|
    ensures |StartCoded(units[k..])| == 4 + |units[k]| + |StartCoded(units[k + 1..])|
  {
    PrefixedNext(units, k, n);
    StartCodedNext(units, k);
  }

  /** The length fields of one to four bytes as the source reads them, byte by byte. */
  lemma ReadField(s: seq<Byte>)
    requires 1 <= |s| <= 4
    ensures
      var (a: int, b: int, c: int, d: int) :=
        (s[0], if |s| > 1 then s[1] else 0, if |s| > 2 then s[2] else 0, if |s| > 3 then s[3] else 0);
      BigEndian(s) == if |s| == 1 then a else if |s| == 2 then a * 256 + b
                      else if |s| == 3 then (a * 256 + b) * 256 + c else ((a * 256 + b) * 256 + c) * 256 + d
  {
    assert s[..1][..0] == [] && s[..1] == [s[0]];
    assert BigEndian(s[..1]) == s[0];
    if |s| > 1 {
      assert s[..2][..1] == s[..1];
    }
    if |s| > 2 {
      assert s[..3][..2] == s[..2];
    }
    if |s| > 3 {
      assert s[..4][..3] == s[..3];
    }
    assert s[..|s|] == s;
  }

  // ---------- the state of a conversion ----------

  /** A conversion in progress.  k units have been begun, the last of them still needing startLeft bytes of its start
      code and nalLeft bytes of its data; unread is the rest of the input, of which more lies behind the frame. */
  datatype Progress = Progress(units: seq<seq<Byte>>, k: nat, startLeft: nat, nalLeft: nat, bytesRead: nat)
  {
    /** The output still due. */
    ghost function Due(): seq<Byte>
      requires bytesRead <= |StartCoded(units)|
    {
      StartCoded(units)[bytesRead..]
    }

    ghost predicate Consistent(n: nat, unread: seq<Byte>, more: seq<Byte>)
    {
      && Framable(units, n) && k <= |units|
      && startLeft <= 4 && nalLeft <= |unread| && (startLeft > 0 ==> nalLeft > 0)
      && unread == unread[..nalLeft] + (LengthPrefixed(units[k..], n) + more)
      && bytesRead <= |StartCoded(units)|
      && Due() == StartTail(startLeft) + (unread[..nalLeft] + StartCoded(units[k..]))
    }

    lemma AtStart(n: nat, unread: seq<Byte>, more: seq<Byte>)
      requires Framable(units, n) && this == Progress(units, 0, 0, 0, 0) && unread == LengthPrefixed(units, n) + more
      ensures Consistent(n, unread, more) && Due() == StartCoded(units)
    {
      assert units[0..] == units && unread[..0] == [];
    }

    lemma DueSize()
      requires bytesRead <= |StartCoded(units)|
      ensures |Due()| == |StartCoded(units)| - bytesRead
    {
    }

    lemma UnreadSize(n: nat, unread: seq<Byte>, more: seq<Byte>)
      requires Consistent(n, unread, more)
      ensures |unread| >= nalLeft + |more|
    {
    }

    /** More input may arrive behind the frame at any time. */
    lemma MoreInput(n: nat, unread: seq<Byte>, more: seq<Byte>, extra: seq<Byte>)
      requires Consistent(n, unread, more)
      ensures Consistent(n, unread + extra, more + extra)
    {
      assert (unread + extra)[..nalLeft] == unread[..nalLeft];
      ConcatAssoc(unread[..nalLeft], LengthPrefixed(units[k..], n) + more, extra);
      ConcatAssoc(LengthPrefixed(units[k..], n), more, extra);
    }

    /** Between units nothing is due exactly when all units have been begun. */
    lemma AtEnd(n: nat, unread: seq<Byte>, more: seq<Byte>)
      requires Consistent(n, unread, more) && nalLeft == 0
      ensures Due() == [] <==> k == |units|
      ensures k == |units| ==> unread == more
    {
      assert unread[..0] == [] && StartTail(0) == [];
      if k < |units| {
        StartCodedNext(units, k);
      }
    }

    /** Nothing due means that all the input of the frame has been used. */
    lemma Finished(n: nat, unread: seq<Byte>, more: seq<Byte>)
      requires Consistent(n, unread, more)
      ensures bytesRead == |StartCoded(units)| ==> nalLeft == 0 && unread == more
      ensures nalLeft > 0 ==> bytesRead < |StartCoded(units)|
    {
      DueSize();
      if bytesRead == |StartCoded(units)| {
        AtEnd(n, unread, more);
      }
    }

    /** Between units, with units left: the input continues with the length field and the data of the next one. */
    lemma Begin(n: nat, unread: seq<Byte>, more: seq<Byte>) returns (field: seq<Byte>, rest: seq<Byte>, next: Progress)
      requires Consistent(n, unread, more) && nalLeft == 0 && k < |units|
      ensures unread == field + rest && |field| == n && BigEndian(field) == |units[k]|
      ensures next == Progress(units, k + 1, 4, |units[k]|, bytesRead)
      ensures next.Consistent(n, rest, more) && next.Due() == Due() && |units[k]| > 0
      ensures |Due()| >= 4 + |units[k]|
    {
      field := LengthField(|units[k]|, n);
      rest := units[k] + (LengthPrefixed(units[k + 1..], n) + more);
      next := Progress(units, k + 1, 4, |units[k]|, bytesRead);
      PrefixedNext(units, k, n);
      StartCodedNext(units, k);
      FieldValue(|units[k]|, n);
      assert unread[..0] == [];
      ConcatAssoc(field, units[k] + LengthPrefixed(units[k + 1..], n), more);
      ConcatAssoc(units[k], LengthPrefixed(units[k + 1..], n), more);
      assert StartTail(0) == [] && StartTail(4) == START_CODE;
      assert rest[..|units[k]|] == units[k];
    }

    /** Writing m bytes of the start code. */
    lemma EmitStart(n: nat, unread: seq<Byte>, more: seq<Byte>, m: nat) returns (next: Progress)
      requires Consistent(n, unread, more) && m <= startLeft
      ensures next == this.(startLeft := startLeft - m, bytesRead := bytesRead + m)
      ensures next.Consistent(n, unread, more)
      ensures Due() == StartTail(startLeft)[..m] + next.Due()
    {
      hide StartTail, StartCoded, LengthPrefixed;
      next := this.(startLeft := startLeft - m, bytesRead := bytesRead + m);
      var tail := unread[..nalLeft] + StartCoded(units[k..]);
      var part := StartTail(startLeft)[..m];
      StartTailCut(startLeft, m);
      ConcatAssoc(part, StartTail(startLeft - m), tail);
      Dropped(StartCoded(units), bytesRead, part, StartTail(startLeft - m) + tail);
    }

    /** Copying m bytes of unit data. */
    lemma EmitData(n: nat, unread: seq<Byte>, more: seq<Byte>, m: nat) returns (next: Progress)
      requires Consistent(n, unread, more) && m <= nalLeft && startLeft == 0
      ensures next == this.(nalLeft := nalLeft - m, bytesRead := bytesRead + m)
      ensures next.Consistent(n, unread[m..], more)
      ensures Due() == unread[..m] + next.Due()
    {
      next := this.(nalLeft := nalLeft - m, bytesRead := bytesRead + m);
      var rest := unread[m..];
      assert unread[..nalLeft] == unread[..m] + rest[..nalLeft - m];
      ConcatAssoc(unread[..m], rest[..nalLeft - m], StartCoded(units[k..]));
      ConcatAssoc(unread[..m], rest[..nalLeft - m], LengthPrefixed(units[k..], n) + more);
      assert StartTail(0) == [];
      assert rest == (unread[..nalLeft] + (LengthPrefixed(units[k..], n) + more))[m..];
      Dropped(StartCoded(units), bytesRead, unread[..m], rest[..nalLeft - m] + StartCoded(units[k..]));
    }
  }
}
