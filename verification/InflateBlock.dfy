/** inflate on the bits of a block of deflate's tokens, in as many calls as it takes. */
module InflateBlock {
  import opened Octets
  import opened TableCells
  import opened Lz77
  import opened InflateSpec
  import opened InflateWindow
  import opened Inflate
  import opened TokenBits

  /** The decoder has the block's tables, and the tokens before the block have been undone. */
  ghost predicate Given(z: InflateState, lens: seq<nat>, dists: seq<nat>, ts: seq<Token>, i: nat, j: nat, out: seq<octet>)
    reads z`lencode, z`lenbits, z`distcode, z`distbits
  {
    && TablesFor(z.lencode, z.lenbits, z.distcode, z.distbits, lens, dists) && i <= j <= |ts| && AllCoded(lens, dists, ts[i..j])
    && z.w.data.Length <= 32768 && AllProper(ts, z.w.data.Length) && AsBytes(out) == Expand(ts[..i])
  }

  /** m steps after the beginning of the block. */
  ghost predicate Within(z: InflateState, lens: seq<nat>, dists: seq<nat>, ts: seq<Token>, i: nat, j: nat, rest: nat, t: int,
                         out: seq<octet>, m: nat)
    requires i <= j <= |ts| && AllCoded(lens, dists, ts[i..j])
    reads z, z.output
  {
    && z.outStart <= z.outPos <= z.output.Length
    && z.Whole() == z.Run(At(BlockThen(lens, dists, ts[i..j], rest), t, out), m)
  }

  /** One of the calls. However the input and the room are cut, the call that comes to the block's end, or takes the block to be
      bad, has come to its end: all the bytes that the tokens stand for are there, and the bits after the block are unread. */
  method Call(z: InflateState, more: seq<octet>, room: array<octet>, from: nat, ghost lens: seq<nat>, ghost dists: seq<nat>,
              ghost ts: seq<Token>, ghost i: nat, ghost j: nat, ghost rest: nat, ghost t: int, ghost out: seq<octet>, ghost m: nat)
    returns (ghost k: nat)
    requires z.Valid() && z.Kept() && z.Tight() && z.outStart == z.outPos && more <= z.stream[z.inPos..]
    requires room != z.w.data && from <= room.Length
    requires Given(z, lens, dists, ts, i, j, out) && Within(z, lens, dists, ts, i, j, rest, t, out, m)
    modifies z, room, z.w, z.w.data
    ensures z.Valid() && z.Kept() && z.Tight() && z.outStart == z.outPos && from <= z.outPos <= room.Length
    ensures z.stream == old(z.stream[z.inPos..]) && z.input == more && (z.mode in {TYPE, BAD} || z.inPos == |more| || z.outPos == room.Length)
    ensures z.before == old(z.before) + room[from..z.outPos]
    ensures Given(z, lens, dists, ts, i, j, out) && Within(z, lens, dists, ts, i, j, rest, t, out, m + k)
    ensures z.mode in {TYPE, BAD} ==> z.mode == TYPE && AsBytes(z.before) == Expand(ts[..j]) && z.n == rest
  {
    hide InflateState.Valid, InflateState.Kept, InflateState.Tight, InflateState.Run, TablesFor, AllCoded, AllProper, AsBytes, Expand,
      BlockThen, BlockSize, Iterate, AllNear, InflateState.Whole;
    ghost var s, size, whole := At(BlockThen(lens, dists, ts[i..j], rest), t, out), z.w.data.Length, z.Whole();
    k := z.Inflate(more, room, from);
    Reached(z, lens, dists, ts, i, j, rest, t, out, m, k);
    z.MoreSteps(s, m, k);
    AtRest(z);
  }

  /** The steps of the call are steps within the block. */
  lemma Reached(z: InflateState, lens: seq<nat>, dists: seq<nat>, ts: seq<Token>, i: nat, j: nat, rest: nat, t: int,
                out: seq<octet>, m: nat, k: nat)
    requires Given(z, lens, dists, ts, i, j, out)
    ensures var s := At(BlockThen(lens, dists, ts[i..j], rest), t, out);
            && AllNear(z.lencode, z.lenbits, z.distcode, z.distbits, z.Run(s, m), k, z.w.data.Length)
            && (Ended(z.Run(s, m + k)) ==> z.Run(s, m + k).mode == TYPE && z.Run(s, m + k).n == rest
                                           && AsBytes(z.Run(s, m + k).out) == Expand(ts[..j]))
  {
    hide TablesFor, AllCoded, AllProper, AsBytes, Expand, BlockThen, BlockSize, Iterate, AllNear;
    var s, size := At(BlockThen(lens, dists, ts[i..j], rest), t, out), z.w.data.Length;
    AnySteps(z.lencode, z.lenbits, z.distcode, z.distbits, lens, dists, ts, i, j, rest, t, out, size, m + k);
    NearLater(z.lencode, z.lenbits, z.distcode, z.distbits, s, m, k, size);
  }

  /** Between calls. */
  lemma AtRest(z: InflateState)
    requires z.outStart == z.outPos <= z.output.Length
    ensures z.Whole().mode == z.mode && z.Whole().n == z.n && z.Whole().out == z.before
  {
    assert z.before + z.output[z.outStart..z.outPos] == z.before;
  }
}
