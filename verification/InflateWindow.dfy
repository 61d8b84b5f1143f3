/** inflate's circular window of the last output. */
module InflateWindow {
  import opened Octets
  import opened InflateSpec

  /** The last k entries of s, or all when there are no more. */
  function LastOf(s: seq<octet>, k: nat): (r: seq<octet>)
    ensures |r| == if |s| <= k then |s| else k
  {
    if |s| <= k then s else s[|s| - k..]
  }

  /** The last entries are those of the last entries and what comes after them. */
  lemma LastOfLast(s: seq<octet>, t: seq<octet>, k: nat)
    ensures LastOf(LastOf(s, k) + t, k) == LastOf(s + t, k)
  {
    var x, y := LastOf(LastOf(s, k) + t, k), LastOf(s + t, k);
    assert |x| == |y|;
    forall i | 0 <= i < |x| ensures x[i] == y[i] {}
  }

  class CircularWindow {
    const data: array<octet>
    var wsize: nat
    var whave: nat
    var wnext: nat
    /** All that has been put into the window. */
    ghost var history: seq<octet>

    /** Not in use yet; or filled from the start; or full, with the oldest byte at wnext. */
    ghost predicate Shape()
      reads this`wsize, this`whave, this`wnext
    {
      if wsize == 0 then whave == 0 && wnext == 0
      else wsize == data.Length && wnext < wsize && whave <= wsize && (whave < wsize ==> wnext == whave)
    }

    /** What the window holds, oldest first. */
    ghost function Content(): (r: seq<octet>)
      reads this`wsize, this`whave, this`wnext, data
      requires Shape()
      ensures |r| == whave
    {
      if whave < wsize || wsize == 0 then data[..whave] else data[wnext..] + data[..wnext]
    }

    /** The window holds exactly the last whave bytes of all that it was given. */
    ghost predicate Valid()
      reads this, data
    {
      data.Length > 0 && Shape() && Content() == LastOf(history, data.Length)
    }

    constructor (size: nat)
      requires size > 0
      ensures Valid() && data.Length == size && history == [] && Content() == [] && fresh(data)
    {
      data := new octet[size];
      wsize, whave, wnext := 0, 0, 0;
      history := [];
    }

    /** zmemcpy of n bytes of src from position from to position at of the window. */
    method CopyIn(src: array<octet>, from: nat, at: nat, n: nat)
      requires src != data && from + n <= src.Length && at + n <= data.Length
      modifies data
      ensures data[at..at + n] == src[from..from + n]
      ensures data[..at] == old(data[..at]) && data[at + n..] == old(data[at + n..])
    {
      ghost var d := data[..];
      for i := 0 to n
        invariant forall k :: 0 <= k < data.Length && (k < at || at + i <= k) ==> data[k] == d[k]
        invariant forall k :: at <= k < at + i ==> data[k] == src[k - at + from]
      {
        data[at + i] := src[from + i];
      }
    }

    /** Fewer bytes than the window holds: up to the end of the storage, and the rest from its start. */
    method Append(src: array<octet>, end: nat, copy0: nat)
      requires Shape() && src != data && copy0 <= end <= src.Length && copy0 < wsize
      modifies this`whave, this`wnext, data
      ensures Shape() && Content() == LastOf(old(Content()) + src[end - copy0..end], data.Length)
    {
      var dist := wsize - wnext;
      if dist > copy0 { dist := copy0; }
      if copy0 > dist {
        GoRound(src, end, copy0, dist);
      } else {
        GoOn(src, end, copy0);
      }
    }

    /** What fits before the end of the storage, and the rest at its start. */
    method GoRound(src: array<octet>, end: nat, copy0: nat, dist: nat)
      requires Shape() && src != data && copy0 <= end <= src.Length && copy0 < wsize && dist == wsize - wnext < copy0
      modifies this`whave, this`wnext, data
      ensures Shape() && Content() == LastOf(old(Content()) + src[end - copy0..end], data.Length)
    {
      hide LastOf, Content;
      ghost var before, new_, d, was, had := Content(), src[end - copy0..end], data[..], wnext, whave;
      ContentWas();
      var copy := copy0;
      CopyIn(src, end - copy, wnext, dist);
      ghost var d1 := data[..];
      copy := copy - dist;
      CopyIn(src, end - copy, 0, copy);
      ghost var d2 := data[..];
      PiecesAre(src[..], new_, end, copy0, dist);
      PieceIn(d, d1, was, dist, new_[..dist]);
      PieceIn(d1, d2, 0, copy, new_[dist..]);
      WrappedContent(d, d1, d2, was, dist, copy, before, new_, had);
      wnext := copy;
      whave := wsize;
      ContentIs();
    }

    lemma PiecesAre(s: seq<octet>, piece: seq<octet>, end: nat, copy: nat, dist: nat)
      requires dist <= copy <= end <= |s| && piece == s[end - copy..end]
      ensures piece[..dist] == s[end - copy..end - copy + dist] && piece[dist..] == s[end - (copy - dist)..end]
    {
    }

    lemma PieceIn(d: seq<octet>, d1: seq<octet>, at: nat, n: nat, p: seq<octet>)
      requires at + n <= |d| == |d1| && d1[at..at + n] == p && d1[..at] == d[..at] && d1[at + n..] == d[at + n..]
      ensures at + n == |d| ==> d1[at..] == p && d1[..at] == d[..at]
      ensures at == 0 ==> d1[..n] == p && d1[n..] == d[n..]
    {
    }

    /** All of it fits before the end of the storage. */
    method GoOn(src: array<octet>, end: nat, dist: nat)
      requires Shape() && src != data && dist <= end <= src.Length && dist < wsize && dist <= wsize - wnext
      modifies this`whave, this`wnext, data
      ensures Shape() && Content() == LastOf(old(Content()) + src[end - dist..end], data.Length)
    {
      hide LastOf, Content;
      ghost var before, new_, d, was, had := Content(), src[end - dist..end], data[..], wnext, whave;
      ContentWas();
      CopyIn(src, end - dist, wnext, dist);
      StraightContent(d, data[..], was, dist, before, new_, had);
      wnext := wnext + dist;
      if wnext == wsize { wnext := 0; }
      if whave < wsize { whave := whave + dist; }
      ContentIs();
    }

    lemma ContentWas()
      requires Shape() && wsize > 0
      ensures Content() == if whave < wsize then data[..][..whave] else data[..][wnext..] + data[..][..wnext]
    {
    }

    lemma ContentIs()
      requires Shape() && wsize > 0
      ensures whave < wsize ==> Content() == data[..whave]
      ensures whave == wsize && wnext > 0 ==> Content() == data[wnext..] + data[..wnext]
      ensures whave == wsize && wnext == 0 ==> Content() == data[..]
    {
    }

    /** updatewindow: the last copy bytes before end go into the window. */
    method Update(src: array<octet>, end: nat, copy: nat)
      requires Valid() && src != data && copy <= end <= src.Length
      modifies this`wsize, this`whave, this`wnext, this`history, data
      ensures Valid() && history == old(history) + src[end - copy..end]
      ensures Content() == LastOf(old(history) + src[end - copy..end], data.Length) && wsize == data.Length
    {
      hide LastOf, Content;
      ghost var before, h, new_ := Content(), history, src[end - copy..end];
      Begin();
      history := h + new_;
      LastOfLast(h, new_, data.Length);
      if copy >= wsize {
        Replace(src, end, copy);
      } else {
        Append(src, end, copy);
      }
    }

    /** The window comes into use. */
    method Begin()
      requires Shape() && data.Length > 0
      modifies this`wsize, this`whave, this`wnext
      ensures Shape() && Content() == old(Content()) && wsize == data.Length
    {
      if wsize == 0 {
        wsize := data.Length;
        wnext := 0;
        whave := 0;
      }
    }

    /** All of the window anew. */
    method Replace(src: array<octet>, end: nat, copy: nat)
      requires Shape() && src != data && wsize <= copy <= end <= src.Length && wsize > 0
      modifies this`whave, this`wnext, data
      ensures Shape() && Content() == LastOf(old(Content()) + src[end - copy..end], data.Length)
    {
      hide LastOf;
      ghost var before, new_ := Content(), src[end - copy..end];
      CopyIn(src, end - wsize, 0, wsize);
      wnext := 0;
      whave := wsize;
      LastOfEnd(before, new_, wsize);
      assert src[end - wsize..end] == new_[|new_| - wsize..];
      ContentIs();
    }

    /** Where the byte c before the end of the content is, and how many after it lie in one piece. */
    lemma Slice(c: nat, from: nat, m: nat)
      requires Shape() && 1 <= c <= whave
      requires if c > wnext then from == wsize - (c - wnext) && m <= c - wnext else from == wnext - c && m <= c
      ensures from + m <= data.Length && Content()[whave - c..whave - c + m] == data[from..from + m]
    {
      var x, y := Content()[whave - c..whave - c + m], data[from..from + m];
      forall i | 0 <= i < m ensures x[i] == y[i] {
        assert x[i] == Content()[whave - c + i];
      }
    }

    /** inflateGetDictionary: the window's content, oldest first. */
    method GetDictionary(dictionary: array<octet>) returns (dictLength: nat)
      requires Valid() && dictionary != data && dictionary.Length >= whave
      modifies dictionary
      ensures dictLength == whave && dictionary[..whave] == old(Content()) && Content() == old(Content()) && Valid()
    {
      dictLength := whave;
      if whave == 0 { return; }
      ghost var d := data[..];
      var m := whave - wnext;
      for i := 0 to m
        invariant forall k :: 0 <= k < i ==> dictionary[k] == d[wnext + k]
        invariant data[..] == d
      {
        dictionary[i] := data[wnext + i];
      }
      for i := 0 to wnext
        invariant forall k :: 0 <= k < m ==> dictionary[k] == d[wnext + k]
        invariant forall k :: 0 <= k < i ==> dictionary[m + k] == d[k]
        invariant data[..] == d
      {
        dictionary[m + i] := data[i];
      }
      ghost var r, c := dictionary[..whave], Content();
      forall i | 0 <= i < whave ensures r[i] == c[i] {
        if i >= m { assert dictionary[m + (i - m)] == d[i - m]; }
      }
    }
  }

  lemma LastOfEnd(s: seq<octet>, t: seq<octet>, k: nat)
    requires k <= |t|
    ensures LastOf(s + t, k) == t[|t| - k..]
  {
  }

  /** Bytes that fit before the end of the storage. */
  lemma StraightContent(d: seq<octet>, d': seq<octet>, wnext: nat, n: nat, before: seq<octet>, new_: seq<octet>, whave: nat)
    requires wnext < |d| == |d'| && wnext + n <= |d| && |new_| == n < |d| && whave <= |d| && (whave < |d| ==> wnext == whave)
    requires d'[wnext..wnext + n] == new_ && d'[..wnext] == d[..wnext] && d'[wnext + n..] == d[wnext + n..]
    requires before == if whave < |d| then d[..whave] else d[wnext..] + d[..wnext]
    ensures whave < |d| && whave + n < |d| ==> LastOf(before + new_, |d|) == d'[..whave + n]
    ensures whave < |d| && whave + n == |d| ==> LastOf(before + new_, |d|) == d'
    ensures whave == |d| ==> LastOf(before + new_, |d|) == d'[wnext + n..] + d'[..wnext + n]
  {
    assert d'[..wnext + n] == d'[..wnext] + d'[wnext..wnext + n];
    if whave == |d| {
      var x, y := LastOf(before + new_, |d|), d'[wnext + n..] + d'[..wnext + n];
      assert before[n..] + new_ == x;
      assert before[n..] == d[wnext + n..] + d[..wnext];
    }
  }

  /** Bytes that go round. */
  lemma WrappedContent(d: seq<octet>, d1: seq<octet>, d': seq<octet>, wnext: nat, dist: nat, copy: nat, before: seq<octet>,
                       new_: seq<octet>, whave: nat)
    requires wnext < |d| == |d1| == |d'| && wnext + dist == |d| && |new_| == dist + copy < |d| && copy > 0
    requires whave <= |d| && (whave < |d| ==> wnext == whave)
    requires d1[wnext..] == new_[..dist] && d1[..wnext] == d[..wnext]
    requires d'[..copy] == new_[dist..] && d'[copy..] == d1[copy..]
    requires before == if whave < |d| then d[..whave] else d[wnext..] + d[..wnext]
    ensures LastOf(before + new_, |d|) == d'[copy..] + d'[..copy]
  {
    var x, y := LastOf(before + new_, |d|), d'[copy..] + d'[..copy];
    var s := before + new_;
    assert copy < wnext;
    forall i | 0 <= i < |d| ensures x[i] == y[i] {
      assert x[i] == s[|s| - |d| + i];
      if i < |d| - copy {
        assert y[i] == d1[copy + i];
        if copy + i < wnext {
          assert d1[copy + i] == d1[..wnext][copy + i] == d[copy + i];
        } else {
          assert d1[copy + i] == d1[wnext..][copy + i - wnext];
        }
      }
    }
  }
}
