/** What a search for a start code in a growing byte sequence means: the specification of bytestream_find_startcode
    in containers/core/containers_bytestream.h. */
module StartCode {
  import opened Common

  predicate MatchAt(u: seq<Byte>, p: nat, code: seq<Byte>)
  {
    p + |code| <= |u| && u[p..p + |code|] == code
  }

  /** The bytes available at p do not rule out a match at p. */
  ghost predicate Compatible(u: seq<Byte>, p: nat, code: seq<Byte>)
  {
    forall k {:trigger code[k]} :: 0 <= k < |code| && p + k < |u| ==> u[p + k] == code[k]
  }

  /** No continuation of u can match at any position from p up to q. */
  ghost predicate Skippable(u: seq<Byte>, p: nat, q: nat, code: seq<Byte>)
  {
    p <= q && forall r {:trigger Compatible(u, r, code)} :: p <= r < q ==> !Compatible(u, r, code)
  }

  /** The first match at or after p. */
  function LeastMatch(u: seq<Byte>, p: nat, code: seq<Byte>): (r: Option<nat>)
    ensures r.Some? ==> p <= r.value && MatchAt(u, r.value, code)
    ensures r.Some? ==> forall q :: p <= q < r.value ==> !MatchAt(u, q, code)
    ensures r.None? ==> forall q :: p <= q ==> !MatchAt(u, q, code)
    decreases |u| - p
  {
    if MatchAt(u, p, code) then Some(p)
    else if p >= |u| then None
    else LeastMatch(u, p + 1, code)
  }

  lemma MatchIsCompatible(u: seq<Byte>, p: nat, code: seq<Byte>)
    requires MatchAt(u, p, code)
    ensures Compatible(u, p, code)
  {
    forall k | 0 <= k < |code| && p + k < |u|
      ensures u[p + k] == code[k]
    {
      assert u[p..p + |code|][k] == u[p + k];
    }
  }

  /** A position ruled out stays ruled out when more bytes arrive. */
  lemma RuledOutForGood(u: seq<Byte>, more: seq<Byte>, p: nat, code: seq<Byte>)
    requires !Compatible(u, p, code)
    ensures !MatchAt(u + more, p, code)
  {
    var k :| 0 <= k < |code| && p + k < |u| && u[p + k] != code[k];
    if MatchAt(u + more, p, code) {
      MatchIsCompatible(u + more, p, code);
      assert false;
    }
  }

  /** Resuming a search where it stopped, after any more bytes have arrived, finds what one search over all the bytes
      finds. */
  lemma {:induction false} Resume(u: seq<Byte>, more: seq<Byte>, p: nat, q: nat, code: seq<Byte>)
    requires |code| > 0 && Skippable(u, p, q, code)
    ensures LeastMatch(u + more, p, code) == LeastMatch(u + more, q, code)
    decreases q - p
  {
    if p < q {
      RuledOutForGood(u, more, p, code);
      Resume(u, more, p + 1, q, code);
      if p >= |u + more| {
        assert Compatible(u, p, code);
      }
    }
  }

  /** The skipped stretch ends at the first match, or no match exists yet. */
  lemma SearchResult(u: seq<Byte>, p: nat, q: nat, code: seq<Byte>)
    requires |code| > 0 && Skippable(u, p, q, code)
    ensures MatchAt(u, q, code) ==> LeastMatch(u, p, code) == Some(q)
    ensures q + |code| > |u| ==> LeastMatch(u, p, code) == None
  {
    Resume(u, [], p, q, code);
    assert u + [] == u;
    if q + |code| > |u| && LeastMatch(u, q, code).Some? {
      assert false;
    }
  }
}
