/** What deflate's matcher puts out, and what it stands for: literals, and copies of what came before
    (section 3.2.3 of RFC 1951). */
module Lz77 {

  const MIN_MATCH := 3
  const MAX_MATCH := 258

  /** An entry of d_buf and l_buf: a byte when dist is 0, else lc + 3 bytes from dist back. */
  datatype Token = Token(dist: nat, lc: nat)

  function Byte(lc: nat): bv8 { if lc < 256 then lc as bv8 else 0 }

  /** n bytes from dist back, each of which may be one that was just copied. */
  function CopyBack<T>(out: seq<T>, dist: nat, n: nat): (r: seq<T>)
    requires 1 <= dist <= |out|
    ensures |r| == |out| + n && r[..|out|] == out
    decreases n
  {
    if n == 0 then out else CopyBack(out + [out[|out| - dist]], dist, n - 1)
  }

  function Apply(out: seq<bv8>, t: Token): seq<bv8>
  {
    if t.dist == 0 then out + [Byte(t.lc)]
    else if t.dist <= |out| then CopyBack(out, t.dist, t.lc + MIN_MATCH)
    else out
  }

  /** What a list of tokens stands for. */
  function Expand(ts: seq<Token>): seq<bv8>
  {
    if ts == [] then [] else Apply(Expand(ts[..|ts| - 1]), ts[|ts| - 1])
  }

  /** Token i is a literal, or a copy of 3 to 258 bytes from no further back than maxDist, nor than there is anything:
      both halves fit their buffers. */
  ghost predicate ProperAt(ts: seq<Token>, i: int, maxDist: int)
  {
    0 <= i < |ts| && ts[i].lc <= MAX_MATCH - MIN_MATCH && ts[i].dist <= maxDist && ts[i].dist <= |Expand(ts[..i])|
  }

  ghost predicate AllProper(ts: seq<Token>, maxDist: int)
  {
    forall i :: 0 <= i < |ts| ==> ProperAt(ts, i, maxDist)
  }

  lemma ProperMore(ts: seq<Token>, t: Token, maxDist: int)
    requires AllProper(ts, maxDist) && t.lc <= MAX_MATCH - MIN_MATCH && t.dist <= maxDist && t.dist <= |Expand(ts)|
    ensures AllProper(ts + [t], maxDist)
  {
    hide Expand;
    var us := ts + [t];
    forall i | 0 <= i < |us| ensures ProperAt(us, i, maxDist) {
      assert us[..i] == ts[..i];
      if i < |ts| { assert ProperAt(ts, i, maxDist); } else { assert ts[..i] == ts; }
    }
  }

  lemma ExpandMore(ts: seq<Token>, t: Token)
    ensures Expand(ts + [t]) == Apply(Expand(ts), t)
  {
    assert (ts + [t])[..|ts|] == ts;
  }

  /** From a on, n bytes are those dist back. */
  ghost predicate Repeats(data: seq<bv8>, a: int, dist: int, n: int)
  {
    1 <= dist <= a && a + n <= |data| && forall j :: a <= j < a + n ==> data[j] == data[j - dist]
  }

  /** A copy of what is the same dist back goes on with the data. */
  lemma {:induction false} CopyReproduces(data: seq<bv8>, a: nat, dist: nat, n: nat)
    requires Repeats(data, a, dist, n)
    ensures CopyBack(data[..a], dist, n) == data[..a + n]
    decreases n
  {
    if n > 0 {
      assert data[..a] + [data[a]] == data[..a + 1];
      CopyReproduces(data, a + 1, dist, n - 1);
    }
  }

  /** So a match in the data is a token for it. */
  lemma MatchToken(ts: seq<Token>, data: seq<bv8>, a: nat, dist: nat, n: nat)
    requires Repeats(data, a, dist, n) && Expand(ts) == data[..a] && MIN_MATCH <= n
    ensures Expand(ts + [Token(dist, n - MIN_MATCH)]) == data[..a + n]
  {
    ExpandMore(ts, Token(dist, n - MIN_MATCH));
    CopyReproduces(data, a, dist, n);
  }

  lemma LiteralToken(ts: seq<Token>, data: seq<bv8>, a: nat, lc: nat)
    requires a < |data| && Expand(ts) == data[..a] && Byte(lc) == data[a]
    ensures Expand(ts + [Token(0, lc)]) == data[..a + 1]
  {
    ExpandMore(ts, Token(0, lc));
  }
}
