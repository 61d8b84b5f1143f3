/** The run-length front end: runs of four or more bytes become four bytes and a count. */
module RunLength {
  import opened Bits
  import opened MtfSpec
  import opened Counting

  /** A run as add_pair_to_block sees it. */
  datatype Run = Run(ch: int, len: nat)

  ghost predicate GoodRun(r: Run)
  {
    0 <= r.ch < 256 && 1 <= r.len <= 255
  }

  function PutRun(r: Run): (s: seq<int>)
  {
    if r.len < 4 then Repeat(r.ch, r.len) else Repeat(r.ch, 4) + [r.len - 4]
  }

  function PutRuns(rs: seq<Run>): seq<int>
  {
    if rs == [] then [] else PutRuns(rs[..|rs| - 1]) + PutRun(rs[|rs| - 1])
  }

  /** The bytes that runs stand for. */
  function Expand(rs: seq<Run>): seq<int>
  {
    if rs == [] then [] else Expand(rs[..|rs| - 1]) + Repeat(rs[|rs| - 1].ch, rs[|rs| - 1].len)
  }

  /** A run ends because another byte follows, or because it is as long as a run may be. */
  ghost predicate MayFollow(r: Run, ch: int)
  {
    r.ch != ch || r.len == 255
  }

  ghost predicate Chain(rs: seq<Run>)
  {
    && (forall i :: 0 <= i < |rs| ==> GoodRun(rs[i]))
    && forall i, j :: 0 <= i && j == i + 1 && j < |rs| ==> MayFollow(rs[i], rs[j].ch)
  }

  datatype Expansion = Whole(bytes: seq<int>) | Truncated

  /** How many of the first three bytes after the first repeat it without a break. */
  function Lead(s: seq<int>): (k: nat)
    requires s != []
    ensures 1 <= k <= 4 && k <= |s| && (forall i :: 0 <= i < k ==> s[i] == s[0]) && (k < 4 && k < |s| ==> s[k] != s[0])
  {
    if |s| == 1 || s[1] != s[0] then 1
    else if |s| == 2 || s[2] != s[0] then 2
    else if |s| == 3 || s[3] != s[0] then 3
    else 4
  }

  /** What the decoder makes of a block's bytes. */
  function Decode(s: seq<int>): Expansion
  {
    if s == [] then Whole([])
    else var k := Lead(s);
         if k < 4 then After(Repeat(s[0], k), Decode(s[k..]))
         else if |s| == 4 || s[4] < 0 then Truncated
         else After(Repeat(s[0], s[4] + 4), Decode(s[5..]))
  }

  function After(front: seq<int>, d: Expansion): Expansion
  {
    if d.Whole? then Whole(front + d.bytes) else Truncated
  }

  lemma DecodeRun(r: Run, rest: seq<int>)
    requires GoodRun(r) && (rest == [] || MayFollow(r, rest[0]))
    ensures Decode(PutRun(r) + rest) == After(Repeat(r.ch, r.len), Decode(rest))
  {
    var s := PutRun(r) + rest;
    if r.len < 4 {
      assert s[r.len..] == rest;
      assert forall i :: 0 <= i < r.len ==> s[i] == r.ch;
      assert rest != [] ==> s[r.len] == rest[0] != r.ch;
      assert Lead(s) == r.len;
    } else {
      assert s[5..] == rest && s[4] == r.len - 4;
      assert forall i :: 0 <= i < 4 ==> s[i] == r.ch;
    }
  }

  lemma AfterAfter(a: seq<int>, b: seq<int>, d: Expansion)
    ensures After(a, After(b, d)) == After(a + b, d)
  {
    assert d.Whole? ==> a + (b + d.bytes) == (a + b) + d.bytes;
  }

  lemma {:induction false} DecodeRunsThen(rs: seq<Run>, rest: seq<int>)
    requires Chain(rs) && (rs != [] && rest != [] ==> MayFollow(rs[|rs| - 1], rest[0]))
    ensures Decode(PutRuns(rs) + rest) == After(Expand(rs), Decode(rest))
    decreases |rs|
  {
    hide Decode, Repeat, MayFollow;
    if rs == [] {
      assert PutRuns(rs) + rest == rest;
      assert Decode(rest).Whole? ==> [] + Decode(rest).bytes == Decode(rest).bytes;
    } else {
      var k := |rs| - 1;
      var last, front := rs[k], rs[..k];
      var tail := PutRun(last) + rest;
      Assoc(PutRuns(front), PutRun(last), rest);
      assert tail[0] == last.ch;
      assert k > 0 ==> MayFollow(rs[k - 1], rs[k].ch);
      ChainPrefix(rs, k);
      DecodeRunsThen(front, tail);
      DecodeRun(last, rest);
      AfterAfter(Expand(front), Repeat(last.ch, last.len), Decode(rest));
    }
  }

  lemma ChainPrefix(rs: seq<Run>, k: nat)
    requires Chain(rs) && k <= |rs|
    ensures Chain(rs[..k])
  {
  }

  /** A block built from runs decodes to the bytes the runs stand for. */
  lemma DecodeRuns(rs: seq<Run>)
    requires Chain(rs)
    ensures Decode(PutRuns(rs)) == Whole(Expand(rs))
  {
    DecodeRunsThen(rs, []);
    assert PutRuns(rs) + [] == PutRuns(rs) && Expand(rs) + [] == Expand(rs);
  }

  lemma PutRunsSnoc(rs: seq<Run>, r: Run)
    ensures PutRuns(rs + [r]) == PutRuns(rs) + PutRun(r)
    ensures Expand(rs + [r]) == Expand(rs) + Repeat(r.ch, r.len)
  {
    assert (rs + [r])[..|rs|] == rs;
  }

  lemma ChainSnoc(rs: seq<Run>, r: Run)
    requires Chain(rs) && GoodRun(r) && (rs == [] || MayFollow(rs[|rs| - 1], r.ch))
    ensures Chain(rs + [r])
  {
  }
}
