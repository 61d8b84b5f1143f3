/** The bits of a block: what sendMTFValues puts out, what the decoder takes in, and that the one undoes the other. */
module BlockFormat {
  import opened Bits
  import opened MtfSpec
  import C = HuffmanCodes
  import HuffmanForest

  const N_GROUPS := 6
  const G_SIZE := 50

  /** BZ_MAX_SELECTORS: what the decoder's two arrays of selectors hold. */
  const MAX_SELECTORS := 18002

  /** What reading a part of the stream leads to. Starved: the bits end first. Overrun: a write past the end of an array. */
  datatype Parse<T> = Parsed(value: T, rest: seq<bool>) | Starved | Corrupt | Overrun

  function GetNum(n: nat, bits: seq<bool>): (r: Parse<nat>)
    ensures !r.Overrun?
    ensures r.Parsed? ==> |r.rest| <= |bits|
  {
    if n <= |bits| then Parsed(Value(bits[..n]), bits[n..]) else Starved
  }

  lemma PutGetNum(n: nat, v: nat, rest: seq<bool>)
    requires v < Pow2(n)
    ensures GetNum(n, ToBits(n, v) + rest) == Parsed(v, rest)
  {
    ValueToBits(n, v);
    Front(ToBits(n, v), rest);
  }

  lemma Front(a: seq<bool>, b: seq<bool>)
    ensures (a + b)[..|a|] == a && (a + b)[|a|..] == b
  {
  }

  // ----- which bytes occur: sixteen flags, then sixteen bits for each flagged row

  predicate RowUsed(inUse: seq<bool>, i: nat)
    requires |inUse| == 256 && i < 16
  {
    exists j :: 16 * i <= j < 16 * i + 16 && inUse[j]
  }

  function PutFlags(inUse: seq<bool>, k: nat): (r: seq<bool>)
    requires |inUse| == 256 && k <= 16
    ensures |r| == k && forall i :: 0 <= i < k ==> r[i] == RowUsed(inUse, i)
  {
    if k == 0 then [] else PutFlags(inUse, k - 1) + [RowUsed(inUse, k - 1)]
  }

  function PutRows(inUse: seq<bool>, k: nat): seq<bool>
    requires |inUse| == 256 && k <= 16
  {
    if k == 0 then []
    else PutRows(inUse, k - 1) + (if RowUsed(inUse, k - 1) then inUse[16 * (k - 1)..16 * k] else [])
  }

  function PutMap(inUse: seq<bool>): seq<bool>
    requires |inUse| == 256
  {
    PutFlags(inUse, 16) + PutRows(inUse, 16)
  }

  /** The first k rows. */
  function GetRows(flags: seq<bool>, bits: seq<bool>, k: nat): (r: Parse<seq<bool>>)
    requires k <= |flags|
    ensures !r.Overrun?
    ensures r.Parsed? ==> |r.rest| <= |bits|
    ensures r.Parsed? ==> |r.value| == 16 * k
  {
    if k == 0 then Parsed([], bits)
    else match GetRows(flags, bits, k - 1)
      case Parsed(v, rest) =>
        if !flags[k - 1] then Parsed(v + Zeros(16), rest)
        else if |rest| < 16 then Starved
        else Parsed(v + rest[..16], rest[16..])
      case Starved => Starved
      case Corrupt => Corrupt
      case Overrun => Overrun
  }

  function GetMap(bits: seq<bool>): (r: Parse<seq<bool>>)
    ensures !r.Overrun?
    ensures r.Parsed? ==> |r.rest| <= |bits|
    ensures r.Parsed? ==> |r.value| == 256
  {
    if |bits| < 16 then Starved else GetRows(bits[..16], bits[16..], 16)
  }

  lemma {:induction false} PutGetRows(inUse: seq<bool>, flags: seq<bool>, k: nat, rest: seq<bool>)
    requires |inUse| == 256 && k <= 16 && flags == PutFlags(inUse, 16)
    ensures GetRows(flags, PutRows(inUse, k) + rest, k) == Parsed(inUse[..16 * k], rest)
  {
    if k == 0 {
      assert [] + rest == rest;
    } else {
      var row := inUse[16 * (k - 1)..16 * k];
      var mid := if RowUsed(inUse, k - 1) then row else [];
      Assoc(PutRows(inUse, k - 1), mid, rest);
      PutGetRows(inUse, flags, k - 1, mid + rest);
      if RowUsed(inUse, k - 1) {
        Front(row, rest);
      } else {
        assert [] + rest == rest;
        forall j | 0 <= j < 16 ensures !row[j] {
          assert !inUse[16 * (k - 1) + j];
        }
        assert row == Zeros(16);
      }
      assert inUse[..16 * (k - 1)] + row == inUse[..16 * k];
    }
  }

  lemma PutGetMap(inUse: seq<bool>, rest: seq<bool>)
    requires |inUse| == 256
    ensures GetMap(PutMap(inUse) + rest) == Parsed(inUse, rest)
  {
    var flags := PutFlags(inUse, 16);
    Assoc(flags, PutRows(inUse, 16), rest);
    Front(flags, PutRows(inUse, 16) + rest);
    PutGetRows(inUse, flags, 16, rest);
    assert inUse[..256] == inUse;
  }

  // ----- the selectors: move-to-front positions in unary

  function Ones(j: nat): (r: seq<bool>)
    ensures |r| == j && forall i :: 0 <= i < j ==> r[i]
  {
    seq(j, i => true)
  }

  function Unary(j: nat): (r: seq<bool>)
  {
    Ones(j) + [false]
  }

  /** Having read j ones. */
  function GetUnary(j: nat, nGroups: nat, bits: seq<bool>): (r: Parse<nat>)
    requires j < nGroups
    ensures !r.Overrun?
    ensures r.Parsed? ==> |r.rest| <= |bits|
    ensures r.Parsed? ==> r.value < nGroups
    decreases |bits|
  {
    if bits == [] then Starved
    else if !bits[0] then Parsed(j, bits[1..])
    else if j + 1 >= nGroups then Corrupt
    else GetUnary(j + 1, nGroups, bits[1..])
  }

  lemma {:induction false} PutGetUnary(i: nat, j: nat, nGroups: nat, rest: seq<bool>)
    requires i + j < nGroups
    ensures GetUnary(i, nGroups, Unary(j) + rest) == Parsed(i + j, rest)
    decreases j
  {
    var bits := Unary(j) + rest;
    if j == 0 {
      assert bits[1..] == rest;
    } else {
      assert bits[1..] == Unary(j - 1) + rest;
      PutGetUnary(i + 1, j - 1, nGroups, rest);
    }
  }

  function PutUnaries(js: seq<int>, k: nat): seq<bool>
    requires k <= |js|
  {
    if k == 0 then [] else PutUnaries(js, k - 1) + (if js[k - 1] >= 0 then Unary(js[k - 1]) else [])
  }

  function GetUnaries(nGroups: nat, bits: seq<bool>, k: nat): (r: Parse<seq<int>>)
    requires nGroups > 0
    ensures !r.Overrun?
    ensures r.Parsed? ==> |r.rest| <= |bits|
    ensures r.Parsed? ==> |r.value| == k
  {
    if k == 0 then Parsed([], bits)
    else match GetUnaries(nGroups, bits, k - 1)
      case Parsed(v, rest) => (
        match GetUnary(0, nGroups, rest)
        case Parsed(j, rest') => Parsed(v + [j], rest')
        case Starved => Starved
        case Corrupt => Corrupt
        case Overrun => Overrun
      )
      case Starved => Starved
      case Corrupt => Corrupt
      case Overrun => Overrun
  }

  lemma {:induction false} PutGetUnaries(js: seq<int>, nGroups: nat, k: nat, rest: seq<bool>)
    requires k <= |js| && nGroups > 0 && forall i :: 0 <= i < |js| ==> 0 <= js[i] < nGroups
    ensures GetUnaries(nGroups, PutUnaries(js, k) + rest, k) == Parsed(js[..k], rest)
  {
    if k == 0 {
      assert [] + rest == rest;
    } else {
      var u := Unary(js[k - 1]);
      Assoc(PutUnaries(js, k - 1), u, rest);
      PutGetUnaries(js, nGroups, k - 1, u + rest);
      PutGetUnary(0, js[k - 1], nGroups, rest);
      assert js[..k - 1] + [js[k - 1]] == js[..k];
    }
  }

  /** What has been read as numbers is what those numbers are sent as. */
  lemma {:induction false} GetPutUnary(j: nat, nGroups: nat, bits: seq<bool>)
    requires j < nGroups && GetUnary(j, nGroups, bits).Parsed?
    ensures var r := GetUnary(j, nGroups, bits); r.value >= j && bits == Unary(r.value - j) + r.rest
    decreases |bits|
  {
    var r := GetUnary(j, nGroups, bits);
    if bits[0] {
      GetPutUnary(j + 1, nGroups, bits[1..]);
      assert bits == [true] + bits[1..] && Unary(r.value - j) == [true] + Unary(r.value - (j + 1));
    }
  }

  lemma {:induction false} GetPutUnaries(nGroups: nat, bits: seq<bool>, k: nat)
    requires nGroups > 0 && GetUnaries(nGroups, bits, k).Parsed?
    ensures var r := GetUnaries(nGroups, bits, k);
            && (forall i :: 0 <= i < k ==> 0 <= r.value[i] < nGroups) && bits == PutUnaries(r.value, k) + r.rest
  {
    hide GetUnary, Unary;
    var r := GetUnaries(nGroups, bits, k);
    if k == 0 {
      assert [] + bits == bits;
    } else {
      var q := GetUnaries(nGroups, bits, k - 1);
      GetPutUnaries(nGroups, bits, k - 1);
      LastUnary(nGroups, bits, k, q, r);
    }
  }

  /** The last number read, behind those before it. */
  lemma LastUnary(nGroups: nat, bits: seq<bool>, k: nat, q: Parse<seq<int>>, r: Parse<seq<int>>)
    requires nGroups > 0 && k > 0 && q == GetUnaries(nGroups, bits, k - 1) && r == GetUnaries(nGroups, bits, k) && r.Parsed?
    requires q.Parsed? ==> (forall i :: 0 <= i < k - 1 ==> 0 <= q.value[i] < nGroups) && bits == PutUnaries(q.value, k - 1) + q.rest
    ensures (forall i :: 0 <= i < k ==> 0 <= r.value[i] < nGroups) && bits == PutUnaries(r.value, k) + r.rest
  {
    hide GetUnary, Unary;
    var g := GetUnary(0, nGroups, q.rest);
    assert q.Parsed? && g.Parsed? && r.value == q.value + [g.value] && r.rest == g.rest;
    GetPutUnary(0, nGroups, q.rest);
    UnariesPrefix(q.value, r.value, k - 1);
    assert PutUnaries(r.value, k) == PutUnaries(q.value, k - 1) + Unary(g.value);
    Assoc(PutUnaries(q.value, k - 1), Unary(g.value), r.rest);
  }

  lemma {:induction false} UnariesPrefix(a: seq<int>, b: seq<int>, k: nat)
    requires k <= |a| && a <= b
    ensures PutUnaries(a, k) == PutUnaries(b, k)
  {
    if k > 0 { UnariesPrefix(a, b, k - 1); }
  }

  lemma {:induction false} UnariesFail(nGroups: nat, bits: seq<bool>, k: nat, m: nat)
    requires nGroups > 0 && k <= m && !GetUnaries(nGroups, bits, k).Parsed?
    ensures GetUnaries(nGroups, bits, m) == GetUnaries(nGroups, bits, k)
    decreases m
  {
    if k < m { UnariesFail(nGroups, bits, k, m - 1); }
  }

  /** A list under a series of moves to the front: the list after them, and what was sent for them. */
  datatype Moves = Moves(list: seq<int>, sent: seq<int>)

  /** The positions of the first k selectors in the moving list. */
  function Positions(sel: seq<int>, k: nat, n: nat): (r: Moves)
    requires k <= |sel|
    ensures |r.list| == n && |r.sent| == k
  {
    if k == 0 then Moves(Identity(n), [])
    else var m := Positions(sel, k - 1, n);
         var j := IndexOf(m.list, sel[k - 1]);
         Moves(if j < n then MoveToFront(m.list, j) else m.list, m.sent + [j])
  }

  /** The selectors at the first k positions. */
  function AtPositions(js: seq<int>, k: nat, n: nat): (r: Moves)
    requires k <= |js|
    ensures |r.list| == n && |r.sent| == k
  {
    if k == 0 then Moves(Identity(n), [])
    else var m := AtPositions(js, k - 1, n);
         if 0 <= js[k - 1] < n then Moves(MoveToFront(m.list, js[k - 1]), m.sent + [m.list[js[k - 1]]])
         else Moves(m.list, m.sent + [0])
  }

  lemma {:induction false} PositionsLists(sel: seq<int>, k: nat, n: nat)
    requires k <= |sel|
    ensures Lists(Positions(sel, k, n).list, n)
  {
    if k == 0 {
      forall c | 0 <= c < n ensures c in Identity(n) { assert Identity(n)[c] == c; }
    } else {
      PositionsLists(sel, k - 1, n);
      var m := Positions(sel, k - 1, n);
      var j := IndexOf(m.list, sel[k - 1]);
      if j < n { MoveLists(m.list, j, n); }
    }
  }

  lemma {:induction false} PositionsInRange(sel: seq<int>, k: nat, n: nat)
    requires k <= |sel| && forall i :: 0 <= i < |sel| ==> 0 <= sel[i] < n
    ensures forall i :: 0 <= i < k ==> 0 <= Positions(sel, k, n).sent[i] < n
  {
    hide MoveToFront;
    if k > 0 {
      PositionsInRange(sel, k - 1, n);
      PositionsLists(sel, k - 1, n);
      IndexOfMember(Positions(sel, k - 1, n).list, sel[k - 1]);
    }
  }

  /** Following the positions that were sent gives the selectors back. */
  lemma {:induction false} SelectorsBack(sel: seq<int>, k: nat, n: nat)
    requires k <= |sel| && forall i :: 0 <= i < |sel| ==> 0 <= sel[i] < n
    ensures AtPositions(Positions(sel, |sel|, n).sent, k, n) == Moves(Positions(sel, k, n).list, sel[..k])
  {
    hide IndexOf, MoveToFront;
    if k > 0 {
      SelectorsBack(sel, k - 1, n);
      PositionsLists(sel, k - 1, n);
      var m := Positions(sel, k - 1, n);
      var j, js := IndexOf(m.list, sel[k - 1]), Positions(sel, |sel|, n).sent;
      assert sel[k - 1] in m.list;
      IndexOfMember(m.list, sel[k - 1]);
      SentPrefix(sel, k, |sel|, n);
      assert js[k - 1] == js[..k][k - 1] == j;
      assert sel[..k - 1] + [sel[k - 1]] == sel[..k];
    }
  }

  lemma {:induction false} SentPrefix(sel: seq<int>, k: nat, m: nat, n: nat)
    requires k <= m <= |sel|
    ensures Positions(sel, m, n).sent[..k] == Positions(sel, k, n).sent
    decreases m
  {
    if k < m { SentPrefix(sel, k, m - 1, n); }
  }

  // ----- the code lengths of a table, as steps up and down

  function PutSteps(curr: int, l: int): (r: seq<bool>)
    decreases if curr < l then l - curr else curr - l
  {
    if curr < l then [true, false] + PutSteps(curr + 1, l)
    else if curr > l then [true, true] + PutSteps(curr - 1, l)
    else [false]
  }

  function GetSteps(curr: int, bits: seq<bool>): (r: Parse<int>)
    ensures !r.Overrun?
    ensures r.Parsed? ==> |r.rest| <= |bits|
    ensures r.Parsed? ==> 1 <= r.value <= C.LONGEST_CODE
    decreases |bits|
  {
    if curr < 1 || curr > C.LONGEST_CODE then Corrupt
    else if bits == [] then Starved
    else if !bits[0] then Parsed(curr, bits[1..])
    else if |bits| == 1 then Starved
    else GetSteps(if !bits[1] then curr + 1 else curr - 1, bits[2..])
  }

  lemma {:induction false} PutGetSteps(curr: int, l: int, rest: seq<bool>)
    requires 1 <= curr <= C.LONGEST_CODE && 1 <= l <= C.LONGEST_CODE
    ensures GetSteps(curr, PutSteps(curr, l) + rest) == Parsed(l, rest)
    decreases if curr < l then l - curr else curr - l
  {
    var bits := PutSteps(curr, l) + rest;
    if curr < l {
      PutGetSteps(curr + 1, l, rest);
      assert bits[2..] == PutSteps(curr + 1, l) + rest;
    } else if curr > l {
      PutGetSteps(curr - 1, l, rest);
      assert bits[2..] == PutSteps(curr - 1, l) + rest;
    } else {
      assert bits[1..] == rest;
    }
  }

  /** The length the steps to length k start from. */
  function Before(len: seq<int>, k: nat): int
    requires k < |len|
  {
    if k == 0 then len[0] else len[k - 1]
  }

  function PutLens(len: seq<int>, k: nat): seq<bool>
    requires k <= |len| && 0 < |len|
  {
    if k == 0 then (if len[0] >= 0 then ToBits(5, len[0]) else [])
    else PutLens(len, k - 1) + PutSteps(Before(len, k - 1), len[k - 1])
  }

  datatype Lens = Lens(curr: int, len: seq<int>)

  function GetLens(bits: seq<bool>, k: nat): (r: Parse<Lens>)
    ensures !r.Overrun?
    ensures r.Parsed? ==> |r.rest| <= |bits|
    ensures r.Parsed? ==> |r.value.len| == k && forall i :: 0 <= i < k ==> 1 <= r.value.len[i] <= C.LONGEST_CODE
  {
    if k == 0 then
      match GetNum(5, bits)
      case Parsed(v, rest) => Parsed(Lens(v, []), rest)
      case Starved => Starved
      case Corrupt => Corrupt
      case Overrun => Overrun
    else match GetLens(bits, k - 1)
      case Parsed(v, rest) => (
        match GetSteps(v.curr, rest)
        case Parsed(c, rest') => Parsed(Lens(c, v.len + [c]), rest')
        case Starved => Starved
        case Corrupt => Corrupt
        case Overrun => Overrun
      )
      case Starved => Starved
      case Corrupt => Corrupt
      case Overrun => Overrun
  }

  lemma {:induction false} PutGetLens(len: seq<int>, k: nat, rest: seq<bool>)
    requires k <= |len| && 0 < |len| && C.LensIn(len, 1, C.LONGEST_CODE)
    ensures GetLens(PutLens(len, k) + rest, k) == Parsed(Lens(if k == 0 then len[0] else len[k - 1], len[..k]), rest)
  {
    if k == 0 {
      assert Pow2(5) == 32;
      PutGetNum(5, len[0], rest);
    } else {
      var u := PutSteps(Before(len, k - 1), len[k - 1]);
      Assoc(PutLens(len, k - 1), u, rest);
      PutGetLens(len, k - 1, u + rest);
      PutGetSteps(Before(len, k - 1), len[k - 1], rest);
      assert len[..k - 1] + [len[k - 1]] == len[..k];
    }
  }

  lemma {:induction false} LensFail(bits: seq<bool>, k: nat, m: nat)
    requires k <= m && !GetLens(bits, k).Parsed?
    ensures GetLens(bits, m) == GetLens(bits, k)
    decreases m
  {
    if k < m { LensFail(bits, k, m - 1); }
  }

  function PutTables(tables: seq<seq<int>>, k: nat): seq<bool>
    requires k <= |tables| && forall t :: 0 <= t < |tables| ==> 0 < |tables[t]|
  {
    if k == 0 then [] else PutTables(tables, k - 1) + PutLens(tables[k - 1], |tables[k - 1]|)
  }

  function GetTables(alphaSize: nat, bits: seq<bool>, k: nat): (r: Parse<seq<seq<int>>>)
    ensures !r.Overrun?
    ensures r.Parsed? ==> |r.rest| <= |bits|
    ensures r.Parsed? ==> |r.value| == k && forall t :: 0 <= t < k ==> |r.value[t]| == alphaSize
    ensures r.Parsed? ==> forall t :: 0 <= t < k ==> C.LensIn(r.value[t], 1, C.LONGEST_CODE)
  {
    if k == 0 then Parsed([], bits)
    else match GetTables(alphaSize, bits, k - 1)
      case Parsed(v, rest) => (
        match GetLens(rest, alphaSize)
        case Parsed(c, rest') => Parsed(v + [c.len], rest')
        case Starved => Starved
        case Corrupt => Corrupt
        case Overrun => Overrun
      )
      case Starved => Starved
      case Corrupt => Corrupt
      case Overrun => Overrun
  }

  ghost predicate Tables(tables: seq<seq<int>>, alphaSize: nat)
  {
    forall t :: 0 <= t < |tables| ==> |tables[t]| == alphaSize && C.LensIn(tables[t], 1, C.LONGEST_CODE)
  }

  lemma {:induction false} PutGetTables(tables: seq<seq<int>>, alphaSize: nat, k: nat, rest: seq<bool>)
    requires k <= |tables| && 0 < alphaSize && Tables(tables, alphaSize)
    ensures GetTables(alphaSize, PutTables(tables, k) + rest, k) == Parsed(tables[..k], rest)
  {
    if k == 0 {
      assert [] + rest == rest;
    } else {
      var len := tables[k - 1];
      var u := PutLens(len, alphaSize);
      Assoc(PutTables(tables, k - 1), u, rest);
      PutGetTables(tables, alphaSize, k - 1, u + rest);
      PutGetLens(len, alphaSize, rest);
      assert len[..alphaSize] == len;
      assert tables[..k - 1] + [len] == tables[..k];
    }
  }

  lemma {:induction false} TablesFail(alphaSize: nat, bits: seq<bool>, k: nat, m: nat)
    requires k <= m && !GetTables(alphaSize, bits, k).Parsed?
    ensures GetTables(alphaSize, bits, m) == GetTables(alphaSize, bits, k)
    decreases m
  {
    if k < m { TablesFail(alphaSize, bits, k, m - 1); }
  }

  // ----- the symbols, in groups of fifty that share a table

  /** The table symbol i is coded with. */
  function TableOf(tables: seq<seq<int>>, selector: seq<int>, i: nat): seq<int>
    requires i / G_SIZE < |selector| && 0 <= selector[i / G_SIZE] < |tables|
  {
    tables[selector[i / G_SIZE]]
  }

  ghost predicate Selects(tables: seq<seq<int>>, selector: seq<int>)
  {
    forall g :: 0 <= g < |selector| ==> 0 <= selector[g] < |tables|
  }

  /** Symbol s has a code in the table. */
  predicate Codable(len: seq<int>, s: int)
  {
    0 <= s < |len| && 0 <= len[s]
  }

  function PutSymbols(tables: seq<seq<int>>, selector: seq<int>, syms: seq<int>, k: nat): seq<bool>
    requires k <= |syms| <= G_SIZE * |selector| && Selects(tables, selector)
  {
    if k == 0 then []
    else var len := TableOf(tables, selector, k - 1);
         PutSymbols(tables, selector, syms, k - 1)
         + (if Codable(len, syms[k - 1]) then C.CodeBits(len, syms[k - 1]) else [])
  }

  /** GET_MTF_VAL's code lookup: the symbol whose code the bits start with. */
  ghost function GetSymbol(len: seq<int>, bits: seq<bool>): (r: Parse<int>)
    ensures !r.Overrun?
    ensures r.Parsed? ==> |r.rest| <= |bits|
    ensures r.Parsed? ==> C.StartsWith(len, r.value, bits) && r.rest == bits[len[r.value]..]
  {
    if exists s :: C.StartsWith(len, s, bits) then
      var s :| C.StartsWith(len, s, bits);
      Parsed(s, bits[len[s]..])
    else if |bits| <= C.LONGEST_CODE then Starved else Corrupt
  }

  lemma GetSymbolIs(len: seq<int>, s: int, bits: seq<bool>)
    requires C.StartsWith(len, s, bits)
    ensures GetSymbol(len, bits) == Parsed(s, bits[len[s]..])
  {
    var r := GetSymbol(len, bits);
    C.PrefixFree(len, s, r.value, bits);
  }

  /** The first k symbols; once the selectors are used up there are no more. */
  ghost function GetSymbols(tables: seq<seq<int>>, selector: seq<int>, bits: seq<bool>, k: nat): (r: Parse<seq<int>>)
    requires Selects(tables, selector)
    ensures !r.Overrun?
    ensures r.Parsed? ==> |r.rest| <= |bits|
    ensures r.Parsed? ==> |r.value| == k <= G_SIZE * |selector|
  {
    if k == 0 then Parsed([], bits)
    else match GetSymbols(tables, selector, bits, k - 1)
      case Parsed(v, rest) => (
        if (k - 1) / G_SIZE >= |selector| then Corrupt
        else match GetSymbol(TableOf(tables, selector, k - 1), rest)
          case Parsed(s, rest') => Parsed(v + [s], rest')
          case Starved => Starved
          case Corrupt => Corrupt
          case Overrun => Overrun
      )
      case Starved => Starved
      case Corrupt => Corrupt
      case Overrun => Overrun
  }

  /** Every symbol has a code in every table, and the codes fit. */
  ghost predicate Coded(tables: seq<seq<int>>, alphaSize: nat)
  {
    Tables(tables, alphaSize)
    && forall t :: 0 <= t < |tables| ==> CodesFit(tables[t])
  }

  ghost predicate CodesFit(len: seq<int>)
  {
    HuffmanForest.Kraft(len, C.LONGEST_CODE, |len|) <= Pow2(C.LONGEST_CODE)
  }

  lemma {:induction false} PutGetSymbols(tables: seq<seq<int>>, selector: seq<int>, alphaSize: nat, syms: seq<int>, k: nat,
                                         rest: seq<bool>)
    requires k <= |syms| <= G_SIZE * |selector| && Selects(tables, selector) && Coded(tables, alphaSize)
    requires forall i :: 0 <= i < |syms| ==> 0 <= syms[i] < alphaSize
    ensures GetSymbols(tables, selector, PutSymbols(tables, selector, syms, k) + rest, k) == Parsed(syms[..k], rest)
  {
    hide CodesFit, C.CodeBits, C.StartsWith;
    if k == 0 {
      assert [] + rest == rest;
    } else {
      var len, s := TableOf(tables, selector, k - 1), syms[k - 1];
      var u := C.CodeBits(len, s);
      Assoc(PutSymbols(tables, selector, syms, k - 1), u, rest);
      PutGetSymbols(tables, selector, alphaSize, syms, k - 1, u + rest);
      PutGetSymbol(len, s, rest);
      assert syms[..k - 1] + [s] == syms[..k];
    }
  }

  lemma PutGetSymbol(len: seq<int>, s: nat, rest: seq<bool>)
    requires s < |len| && C.LensIn(len, 1, C.LONGEST_CODE) && CodesFit(len)
    ensures GetSymbol(len, C.CodeBits(len, s) + rest) == Parsed(s, rest)
  {
    C.CodeBitsStart(len, C.LONGEST_CODE, s, rest);
    GetSymbolIs(len, s, C.CodeBits(len, s) + rest);
    Front(C.CodeBits(len, s), rest);
  }

  /** Shorter readings are prefixes of longer ones. */
  lemma {:induction false} SymbolsPrefix(tables: seq<seq<int>>, selector: seq<int>, bits: seq<bool>, k: nat, m: nat)
    requires Selects(tables, selector) && k <= m && GetSymbols(tables, selector, bits, m).Parsed?
    ensures GetSymbols(tables, selector, bits, k).Parsed?
    ensures GetSymbols(tables, selector, bits, k).value == GetSymbols(tables, selector, bits, m).value[..k]
    decreases m
  {
    hide GetSymbol, TableOf;
    if k < m {
      var g, h := GetSymbols(tables, selector, bits, m), GetSymbols(tables, selector, bits, m - 1);
      assert h.Parsed? && g.value[..m - 1] == h.value;
      SymbolsPrefix(tables, selector, bits, k, m - 1);
      assert g.value[..k] == h.value[..k];
    }
  }
}
