/** Cutting a `BytesMut` into pieces and joining them again. */
module Pieces {
  import opened Basics
  import opened Buffers
  import opened Heap

  /** Cut piece number `piece` at `at`, with `split_to` or with `split_off`. */
  datatype Cut = Cut(piece: nat, at: nat, to: bool)

  ghost predicate AllIn<V>(ids: seq<nat>, m: map<nat, V>) {
    forall i | 0 <= i < |ids| :: ids[i] in m
  }

  ghost predicate Distinct(ids: seq<nat>) {
    forall i, j | 0 <= i < j < |ids| :: ids[i] != ids[j]
  }

  ghost function Elements(ids: seq<nat>): set<nat> { set x | x in ids }

  /** The bytes of the pieces, in order. */
  ghost function Joined(v: map<nat, Value>, ids: seq<nat>): seq<Byte>
    requires AllIn(ids, v)
  {
    if ids == [] then [] else v[ids[0]].bytes + Joined(v, ids[1..])
  }

  lemma {:induction false} JoinedConcat(v: map<nat, Value>, a: seq<nat>, b: seq<nat>)
    requires AllIn(a, v) && AllIn(b, v) && AllIn(a + b, v)
    ensures Joined(v, a + b) == Joined(v, a) + Joined(v, b)
  {
    if a == [] {
      assert a + b == b;
    } else {
      assert (a + b)[1..] == a[1..] + b;
      JoinedConcat(v, a[1..], b);
    }
  }

  lemma {:induction false} JoinedFrame(v: map<nat, Value>, w: map<nat, Value>, ids: seq<nat>)
    requires AllIn(ids, v) && AllIn(ids, w) && forall i | 0 <= i < |ids| :: v[ids[i]] == w[ids[i]]
    ensures Joined(v, ids) == Joined(w, ids)
  {
    if ids != [] { JoinedFrame(v, w, ids[1..]); }
  }

  lemma JoinedOne(v: map<nat, Value>, x: nat)
    requires x in v
    ensures Joined(v, [x]) == v[x].bytes
  {
  }

  lemma JoinedTwo(v: map<nat, Value>, x: nat, y: nat)
    requires x in v && y in v
    ensures Joined(v, [x, y]) == v[x].bytes + v[y].bytes
  {
    assert [x, y][1..] == [y];
    JoinedOne(v, y);
  }

  /** Replacing a piece by its two halves keeps the joined bytes. */
  lemma JoinedCut(v: map<nat, Value>, w: map<nat, Value>, ids: seq<nat>, i: nat, lo: nat, hi: nat)
    requires i < |ids| && AllIn(ids, v) && lo in w && hi in w && Distinct(ids)
    requires forall j | 0 <= j < |ids| && j != i :: ids[j] in w && w[ids[j]] == v[ids[j]]
    requires w[lo].bytes + w[hi].bytes == v[ids[i]].bytes
    ensures AllIn(ids[..i] + [lo, hi] + ids[i + 1..], w)
    ensures Joined(w, ids[..i] + [lo, hi] + ids[i + 1..]) == Joined(v, ids)
  {
    hide Joined;
    var before, after := ids[..i], ids[i + 1..];
    assert ids == before + ([ids[i]] + after);
    JoinedConcat(v, before, [ids[i]] + after);
    JoinedConcat(v, [ids[i]], after);
    assert before + [lo, hi] + after == before + ([lo, hi] + after);
    JoinedConcat(w, before, [lo, hi] + after);
    JoinedConcat(w, [lo, hi], after);
    JoinedFrame(v, w, before);
    JoinedFrame(v, w, after);
    JoinedOne(v, ids[i]);
    JoinedTwo(w, lo, hi);
  }

  // ===== Geometry =====

  ghost function Records(hs: map<nat, Handle>, ids: seq<nat>): seq<Handle>
    requires AllIn(ids, hs)
  {
    seq(|ids|, i requires 0 <= i < |ids| => hs[ids[i]])
  }

  ghost predicate Piece(x: Handle, d: Data) { x.BytesMut? && x.data == d }

  /** The windows cover `whole` without gap; spare room is only at the very end. */
  ghost predicate Tiled(xs: seq<Handle>, d: Data, whole: Handle)
    requires whole.BytesMut?
  {
    && |xs| > 0 && (forall i | 0 <= i < |xs| :: Piece(xs[i], d))
    && xs[0].ptr == whole.ptr
    && (forall i | 0 <= i < |xs| - 1 ::
          xs[i].len == xs[i].cap && xs[i + 1].ptr == Ptr(xs[i].ptr.alloc, xs[i].ptr.off + xs[i].cap))
    && var z := xs[|xs| - 1];
       && z.ptr.off + z.cap == whole.ptr.off + whole.cap && z.ptr.off + z.len == whole.ptr.off + whole.len
  }

  lemma TiledCut(xs: seq<Handle>, d: Data, e: Data, whole: Handle, i: nat, at: nat, ys: seq<Handle>)
    requires whole.BytesMut? && Tiled(xs, d, whole) && i < |xs| && at <= xs[i].len && at <= xs[i].cap
    requires var x := xs[i];
             var lo := BytesMut(x.ptr, at, at, e);
             var hi := BytesMut(Ptr(x.ptr.alloc, x.ptr.off + at), x.len - at, x.cap - at, e);
             ys == xs[..i] + [lo, hi] + xs[i + 1..]
    requires d == e || |xs| == 1
    ensures Tiled(ys, e, whole)
  {
    forall k | 0 <= k < |ys| - 1
      ensures ys[k].len == ys[k].cap && ys[k + 1].ptr == Ptr(ys[k].ptr.alloc, ys[k].ptr.off + ys[k].cap)
    {
      if k < i {
        assert ys[k] == xs[k] && ys[k + 1].ptr == xs[k + 1].ptr;
      } else if k > i {
        assert ys[k].len == xs[k - 1].len - (if k == i + 1 then at else 0) && ys[k + 1] == xs[k];
      }
    }
    assert ys[|ys| - 1] == xs[|xs| - 1] || i == |xs| - 1;
  }

  /** The windows cover `whole` without gap, wherever the bytes in them end. */
  ghost predicate Adjacent(xs: seq<Handle>, whole: Handle)
    requires whole.BytesMut?
  {
    && |xs| > 0 && (forall i | 0 <= i < |xs| :: xs[i].BytesMut?)
    && xs[0].ptr == whole.ptr
    && (forall i | 0 <= i < |xs| - 1 :: xs[i + 1].ptr == Ptr(xs[i].ptr.alloc, xs[i].ptr.off + xs[i].cap))
    && xs[|xs| - 1].ptr.off + xs[|xs| - 1].cap == whole.ptr.off + whole.cap
  }

  /** A cut anywhere in a window, spare room included. */
  lemma AdjacentCut(xs: seq<Handle>, whole: Handle, i: nat, at: nat, lo: Handle, hi: Handle, ys: seq<Handle>)
    requires whole.BytesMut? && Adjacent(xs, whole) && i < |xs| && at <= xs[i].cap && lo.BytesMut? && hi.BytesMut?
    requires lo.ptr == xs[i].ptr && lo.cap == at
    requires hi.ptr == Ptr(xs[i].ptr.alloc, xs[i].ptr.off + at) && hi.cap == xs[i].cap - at
    requires ys == xs[..i] + [lo, hi] + xs[i + 1..]
    ensures Adjacent(ys, whole)
  {
    forall k | 0 <= k < |ys| - 1 ensures ys[k + 1].ptr == Ptr(ys[k].ptr.alloc, ys[k].ptr.off + ys[k].cap) {
      if k > i + 1 { assert ys[k] == xs[k - 1] && ys[k + 1] == xs[k]; }
    }
    forall k | 0 <= k < |ys| ensures ys[k].BytesMut? {}
  }

  ghost function Capacities(xs: seq<Handle>): nat
    requires forall i | 0 <= i < |xs| :: xs[i].BytesMut?
  {
    if xs == [] then 0 else xs[0].cap + Capacities(xs[1..])
  }

  /** Then the capacities add up. */
  lemma {:induction false} AdjacentAddUp(xs: seq<Handle>, whole: Handle)
    requires whole.BytesMut? && Adjacent(xs, whole)
    ensures Capacities(xs) == whole.cap
  {
    if |xs| > 1 {
      FirstFits(xs, whole);
      var rest := BytesMut(xs[1].ptr, 0, whole.ptr.off + whole.cap - xs[1].ptr.off, whole.data);
      AdjacentAddUp(xs[1..], rest);
    } else {
      assert xs[1..] == [];
    }
  }

  lemma {:induction false} FirstFits(xs: seq<Handle>, whole: Handle)
    requires whole.BytesMut? && Adjacent(xs, whole) && |xs| > 1
    ensures xs[1].ptr.off <= whole.ptr.off + whole.cap
  {
    OffsetsGrow(xs, whole, 1);
  }

  lemma {:induction false} OffsetsGrow(xs: seq<Handle>, whole: Handle, i: nat)
    requires whole.BytesMut? && Adjacent(xs, whole) && i < |xs|
    ensures xs[i].ptr.off <= xs[|xs| - 1].ptr.off
    decreases |xs| - i
  {
    if i < |xs| - 1 { OffsetsGrow(xs, whole, i + 1); }
  }

  function Merged(x: Handle, y: Handle): Handle
    requires x.BytesMut? && y.BytesMut?
  {
    BytesMut(x.ptr, x.len + y.len, x.cap + y.cap, x.data)
  }

  lemma TiledJoin(xs: seq<Handle>, d: Data, whole: Handle)
    requires whole.BytesMut? && Tiled(xs, d, whole) && |xs| > 1
    ensures Tiled([Merged(xs[0], xs[1])] + xs[2..], d, whole)
    ensures d.Promoted? ==> Memory.Mergeable(xs[0], xs[1])
    ensures xs[0].len == 0 ==> xs[1] == Merged(xs[0], xs[1])
  {
    assert Piece(xs[0], d) && Piece(xs[1], d);
  }

  // ===== Counts =====

  lemma SplitCounts(s: State, h: nat, x: Handle, y: Handle)
    requires Inv(s) && h in s.handles && s.handles[h].BytesMut?
    ensures var t := Split(s, h, x, y);
            var b := BlockOf(s, s.handles[h]);
            && t.handles == s.handles[h := x][s.next := y] && b < |t.blocks| && s.next !in s.handles
            && t.blocks[b].count == if s.handles[h].data.Promoted? then s.blocks[b].count + 1 else 2
  {
    Fresh(s);
    Facts(s, h);
    SharedRecords(s, h);
  }

  lemma ReleaseCounts(s: State, h: nat, b: nat)
    requires Inv(s) && h in s.handles && s.handles[h].TaggedWith(b)
    ensures b < |s.blocks| && s.blocks[b].count > 0
    ensures var t := Release(s, h); b < |t.blocks| && t.blocks[b].count == s.blocks[b].count - 1
  {
    Facts(s, h);
  }

  // ===== The pieces of one handle inside a memory =====

  /** The pieces `ids` are what has become of `h` since memory `was`. */
  ghost predicate PiecesOf(was: State, now: State, h: nat, ids: seq<nat>)
    requires h in was.handles
  {
    && Inv(was) && Inv(now) && |ids| > 0 && Distinct(ids) && AllIn(ids, now.handles) && AllIn(ids, Views(now))
    && h in Views(was)
    && (forall i | 0 <= i < |ids| :: now.handles[ids[i]].BytesMut?)
    && now.handles - Elements(ids) == was.handles - {h}
    && Views(now) - Elements(ids) == Views(was) - {h}
    && Joined(Views(now), ids) == Views(was)[h].bytes
  }

  /** As `PiecesOf`, with the windows tiling the original one and every piece counted. */
  ghost predicate ExactPieces(was: State, now: State, h: nat, ids: seq<nat>, d: Data)
    requires h in was.handles && was.handles[h].BytesMut? && PiecesOf(was, now, h, ids)
  {
    && Tiled(Records(now.handles, ids), d, was.handles[h])
    && match d
       case Promoted(b) =>
         && b < |now.blocks|
         && now.blocks[b].count == StartCount(was, h) + |ids| - 1
         && b == BlockOf(was, was.handles[h])
       case _ => ids == [h] && now == was
  }

  ghost function StartCount(s: State, h: nat): nat
    requires h in s.handles && s.handles[h].BytesMut?
  {
    var d := s.handles[h].data;
    if d.Promoted? && d.block < |s.blocks| then s.blocks[d.block].count else 1
  }

  lemma StartsWhole(s: State, h: nat)
    requires Inv(s) && h in s.handles && s.handles[h].BytesMut?
    ensures PiecesOf(s, s, h, [h]) && ExactPieces(s, s, h, [h], s.handles[h].data)
  {
    Facts(s, h);
    assert Elements([h]) == {h};
    assert [h][1..] == [];
    assert Records(s.handles, [h]) == [s.handles[h]];
  }

  /** Piece `i` gave way to the two pieces `lo` and `hi`, one of which keeps its name. */
  lemma CutKeepsPieces(was: State, s: State, t: State, h: nat, ids: seq<nat>, i: nat, lo: nat, hi: nat, n: nat)
    requires h in was.handles && PiecesOf(was, s, h, ids) && i < |ids| && Inv(t)
    requires n !in s.handles && ((lo == ids[i] && hi == n) || (hi == ids[i] && lo == n))
    requires ids[i] in t.handles && n in t.handles && t.handles[ids[i]].BytesMut? && t.handles[n].BytesMut?
    requires t.handles == s.handles[ids[i] := t.handles[ids[i]]][n := t.handles[n]]
    requires lo in Views(t) && hi in Views(t)
    requires Views(t) == Views(s)[ids[i] := Views(t)[ids[i]]][n := Views(t)[n]]
    requires Views(t)[lo].bytes + Views(t)[hi].bytes == Views(s)[ids[i]].bytes
    ensures PiecesOf(was, t, h, ids[..i] + [lo, hi] + ids[i + 1..])
  {
    hide Inv, Views, Elements;
    var longer := ids[..i] + [lo, hi] + ids[i + 1..];
    JoinedCut(Views(s), Views(t), ids, i, lo, hi);
    CutElements(ids, i, lo, hi, n);
    Fresh(s);
    Without(s.handles, t.handles, ids[i], n, Elements(ids));
    Without(Views(s), Views(t), ids[i], n, Elements(ids));
  }

  lemma CutElements(ids: seq<nat>, i: nat, lo: nat, hi: nat, n: nat)
    requires i < |ids| && ((lo == ids[i] && hi == n) || (hi == ids[i] && lo == n))
    ensures Elements(ids[..i] + [lo, hi] + ids[i + 1..]) == Elements(ids) + {n} && ids[i] in Elements(ids)
  {
    var longer := ids[..i] + [lo, hi] + ids[i + 1..];
    forall x ensures x in longer <==> x in ids || x == n {
      assert ids == ids[..i] + [ids[i]] + ids[i + 1..];
    }
  }

  lemma Without<V>(v: map<nat, V>, w: map<nat, V>, x: nat, n: nat, es: set<nat>)
    requires x in es && x in w && n in w && n !in v && w == v[x := w[x]][n := w[n]]
    ensures w - (es + {n}) == v - es
  {
  }

  lemma RecordsCut(hs: map<nat, Handle>, now: map<nat, Handle>, ids: seq<nat>, i: nat, lo: nat, hi: nat)
    requires AllIn(ids, hs) && i < |ids| && lo in now && hi in now && Distinct(ids)
    requires forall j | 0 <= j < |ids| && j != i :: ids[j] in now && now[ids[j]] == hs[ids[j]]
    ensures var longer := ids[..i] + [lo, hi] + ids[i + 1..];
            var xs := Records(hs, ids);
            && AllIn(longer, now)
            && Records(now, longer) == xs[..i] + [now[lo], now[hi]] + xs[i + 1..]
  {
  }

  lemma WindowsCut(whole: Handle, hs: map<nat, Handle>, now: map<nat, Handle>, ids: seq<nat>, i: nat, at: nat,
                   lo: nat, hi: nat, n: nat, longer: seq<nat>)
    requires whole.BytesMut? && AllIn(ids, hs) && Distinct(ids) && Adjacent(Records(hs, ids), whole) && i < |ids|
    requires lo in now && hi in now && lo != hi && ids[i] in now && n in now && n !in hs && {lo, hi} == {ids[i], n}
    requires now == hs[ids[i] := now[ids[i]]][n := now[n]]
    requires var x, y, z := hs[ids[i]], now[lo], now[hi];
             && x.BytesMut? && y.BytesMut? && z.BytesMut? && at <= x.cap
             && y.ptr == x.ptr && y.cap == at && z.ptr == Ptr(x.ptr.alloc, x.ptr.off + at) && z.cap == x.cap - at
    requires longer == ids[..i] + [lo, hi] + ids[i + 1..]
    ensures AllIn(longer, now) && Adjacent(Records(now, longer), whole)
  {
    hide Adjacent;
    RecordsCut(hs, now, ids, i, lo, hi);
    AdjacentCut(Records(hs, ids), whole, i, at, now[lo], now[hi], Records(now, longer));
  }

  /** One cut.  With `past`, `split_off` may also cut in the spare room. */
  method CutPiece(m: Memory, ghost was: State, h: nat, ids: seq<nat>, ghost d: Data, c: Cut, past: bool)
      returns (pieces: seq<nat>, ghost e: Data)
    requires h in was.handles && was.handles[h].BytesMut? && PiecesOf(was, m.Now(), h, ids)
    requires !past ==> ExactPieces(was, m.Now(), h, ids, d)
    requires Adjacent(Records(m.handles, ids), was.handles[h])
    modifies m
    ensures PiecesOf(was, m.Now(), h, pieces)
    ensures !past ==> ExactPieces(was, m.Now(), h, pieces, e)
    ensures Adjacent(Records(m.handles, pieces), was.handles[h])
  {
    hide Inv, Views, Cells, Elements, Joined, ExactPieces, Tiled, Adjacent, Records, Split, Distinct;
    pieces, e := ids, d;
    if c.piece >= |ids| { return; }
    var p := ids[c.piece];
    Facts(m.Now(), p);
    var x := m.handles[p];
    if c.at > x.len && (c.to || !past) { return; }
    ghost var s := m.Now();
    SplitCounts(s, p, Back(s, p, 0, 0), Back(s, p, 0, 0));
    var r: Option<nat>;
    if c.to { r := m.TrySplitTo(p, c.at); } else { r := m.TrySplitOff(p, c.at); }
    if r.None? { return; }
    var n := r.value;
    var lo, hi := if c.to then n else p, if c.to then p else n;
    pieces := ids[..c.piece] + [lo, hi] + ids[c.piece + 1..];
    ghost var len := Min(x.len, c.at);
    ghost var front, back := Front(s, p, c.at, len), Back(s, p, c.at, len);
    if c.to { SplitCounts(s, p, back, front); } else { SplitCounts(s, p, front, back); }
    assert Views(s)[p].bytes == Views(s)[p].bytes[..len] + Views(s)[p].bytes[len..];
    CutKeepsPieces(was, s, m.Now(), h, ids, c.piece, lo, hi, n);
    WindowsCut(was.handles[h], s.handles, m.handles, ids, c.piece, c.at, lo, hi, n, pieces);
    if !past {
      e := Promoted(BlockOf(s, x));
      CutIsExact(was, s, m.Now(), h, ids, d, c.piece, c.at, lo, hi);
    }
  }

  lemma CutIsExact(was: State, s: State, t: State, h: nat, ids: seq<nat>, d: Data, i: nat, at: nat, lo: nat, hi: nat)
    requires h in was.handles && was.handles[h].BytesMut? && PiecesOf(was, s, h, ids)
    requires ExactPieces(was, s, h, ids, d) && i < |ids|
    requires at <= s.handles[ids[i]].len && at <= s.handles[ids[i]].cap
    requires {lo, hi} == {ids[i], s.next} && ids[i] in s.handles && s.next !in s.handles && lo != hi
    requires var e := Promoted(BlockOf(s, s.handles[ids[i]]));
             && lo in t.handles && hi in t.handles
             && t.handles == s.handles[ids[i] := t.handles[ids[i]]][s.next := t.handles[s.next]]
             && t.handles[lo] == Front(s, ids[i], at, at) && t.handles[hi] == Back(s, ids[i], at, at)
             && e.block < |t.blocks|
             && t.blocks[e.block].count == if s.handles[ids[i]].data.Promoted? then s.blocks[e.block].count + 1 else 2
    requires PiecesOf(was, t, h, ids[..i] + [lo, hi] + ids[i + 1..])
    ensures ExactPieces(was, t, h, ids[..i] + [lo, hi] + ids[i + 1..], Promoted(BlockOf(s, s.handles[ids[i]])))
  {
    hide Inv, Views;
    Facts(was, h);
    var e := Promoted(BlockOf(s, s.handles[ids[i]]));
    var xs := Records(s.handles, ids);
    assert Piece(xs[i], d);
    RecordsCut(s.handles, t.handles, ids, i, lo, hi);
    TiledCut(xs, d, e, was.handles[h], i, at, xs[..i] + [t.handles[lo], t.handles[hi]] + xs[i + 1..]);
  }

  /** The second piece went into the first. */
  lemma JoinKeepsPieces(was: State, s: State, t: State, h: nat, ids: seq<nat>)
    requires h in was.handles && PiecesOf(was, s, h, ids) && |ids| > 1 && Inv(t)
    requires ids[0] in t.handles && t.handles[ids[0]].BytesMut? && ids[0] in Views(t)
    requires t.handles == (s.handles - {ids[1]})[ids[0] := t.handles[ids[0]]]
    requires Views(t) == (Views(s) - {ids[1]})[ids[0] := Mutable(Views(s)[ids[0]].bytes + Views(s)[ids[1]].bytes)]
    ensures PiecesOf(was, t, h, [ids[0]] + ids[2..])
  {
    hide Inv, Views, Elements;
    var fewer := [ids[0]] + ids[2..];
    JoinedPair(Views(s), Views(t), ids);
    PairElements(ids);
    WithoutPair(s.handles, t.handles, ids[0], ids[1], Elements(fewer));
    WithoutPair(Views(s), Views(t), ids[0], ids[1], Elements(fewer));
  }

  lemma JoinedPair(v: map<nat, Value>, w: map<nat, Value>, ids: seq<nat>)
    requires |ids| > 1 && Distinct(ids) && AllIn(ids, v)
    requires w == (v - {ids[1]})[ids[0] := Mutable(v[ids[0]].bytes + v[ids[1]].bytes)]
    ensures AllIn([ids[0]] + ids[2..], w) && Joined(w, [ids[0]] + ids[2..]) == Joined(v, ids)
  {
    var rest := ids[2..];
    assert ids == [ids[0], ids[1]] + rest;
    JoinedConcat(v, [ids[0], ids[1]], rest);
    JoinedConcat(w, [ids[0]], rest);
    JoinedFrame(v, w, rest);
    assert [ids[0], ids[1]][1..] == [ids[1]];
    assert Joined(v, [ids[0], ids[1]]) == v[ids[0]].bytes + v[ids[1]].bytes;
    assert Joined(w, [ids[0]]) == w[ids[0]].bytes;
  }

  lemma PairElements(ids: seq<nat>)
    requires |ids| > 1 && Distinct(ids)
    ensures Elements(ids) == Elements([ids[0]] + ids[2..]) + {ids[1]}
    ensures ids[0] in Elements([ids[0]] + ids[2..]) && Distinct([ids[0]] + ids[2..])
  {
    var fewer := [ids[0]] + ids[2..];
    forall x ensures x in ids <==> x in fewer || x == ids[1] { assert ids == [ids[0], ids[1]] + ids[2..]; }
  }

  lemma WithoutPair<V>(v: map<nat, V>, w: map<nat, V>, a: nat, b: nat, es: set<nat>)
    requires a in es && a in w && w == (v - {b})[a := w[a]]
    ensures w - es == v - (es + {b})
  {
  }

  lemma JoinedRecords(hs: map<nat, Handle>, now: map<nat, Handle>, ids: seq<nat>, pieces: seq<nat>, z: Handle)
    requires |ids| > 1 && AllIn(ids, hs) && Distinct(ids) && pieces == [ids[0]] + ids[2..]
    requires now == (hs - {ids[1]})[ids[0] := z]
    ensures AllIn(pieces, now) && Records(now, pieces) == [z] + Records(hs, ids)[2..]
  {
    forall i | 0 <= i < |pieces| ensures pieces[i] in now && now[pieces[i]] == (if i == 0 then z else hs[ids[i + 1]]) {}
  }

  /** The first two pieces always merge, and either may let go of its count. */
  lemma ExactPair(was: State, s: State, h: nat, ids: seq<nat>, d: Data)
    requires h in was.handles && was.handles[h].BytesMut? && PiecesOf(was, s, h, ids) && |ids| > 1
    requires ExactPieces(was, s, h, ids, d)
    ensures var x, y := s.handles[ids[0]], s.handles[ids[1]];
            && d.Promoted? && x.BytesMut? && y.BytesMut? && x.data == d && y.data == d
            && Memory.Mergeable(x, y) && (x.len == 0 ==> y == Merged(x, y))
            && Tiled([Merged(x, y)] + Records(s.handles, ids)[2..], d, was.handles[h])
    ensures Counted(s, ids[0], d.block) && Counted(s, ids[1], d.block)
  {
    var xs := Records(s.handles, ids);
    assert xs[0] == s.handles[ids[0]] && xs[1] == s.handles[ids[1]] && Piece(xs[0], d) && Piece(xs[1], d);
    TiledJoin(xs, d, was.handles[h]);
    hide Tiled, Records, Joined, Elements, Views;
    ReleaseCounts(s, ids[0], d.block);
    ReleaseCounts(s, ids[1], d.block);
  }

  /** `h` is counted by `b`. */
  ghost predicate Counted(s: State, h: nat, b: nat) {
    && Inv(s) && h in s.handles && b < |s.blocks| && s.blocks[b].count > 0
    && var t := Release(s, h); b < |t.blocks| && t.blocks[b].count == s.blocks[b].count - 1
  }

  /** `pieces[0].unsplit(pieces[1])`. */
  method JoinFirst(m: Memory, ghost was: State, h: nat, ids: seq<nat>, ghost d: Data, ghost exact: bool)
      returns (pieces: seq<nat>)
    requires h in was.handles && was.handles[h].BytesMut? && PiecesOf(was, m.Now(), h, ids) && |ids| > 1
    requires exact ==> ExactPieces(was, m.Now(), h, ids, d)
    modifies m
    ensures |pieces| == |ids| - 1 && PiecesOf(was, m.Now(), h, pieces)
    ensures exact ==> ExactPieces(was, m.Now(), h, pieces, d)
  {
    hide Inv, Views, Cells, Tiled, Records, Joined, Elements;
    ghost var s := m.Now();
    var a, b := ids[0], ids[1];
    if exact { ExactPair(was, s, h, ids, d); }
    m.Unsplit(a, b);
    Facts(m.Now(), a);
    pieces := [a] + ids[2..];
    JoinKeepsPieces(was, s, m.Now(), h, ids);
    if exact {
      JoinedRecords(s.handles, m.handles, ids, pieces, Merged(s.handles[a], s.handles[b]));
    }
  }

  /** Any number of cuts, in the spare room too if `past`: the windows of the pieces cover the old one
      without gap, their capacities add up to the old one, and the bytes are those of before. */
  method CutAll(m: Memory, h: nat, cuts: seq<Cut>, past: bool) returns (ids: seq<nat>, ghost d: Data)
    requires Inv(m.Now()) && m.IsMut(h)
    modifies m
    ensures PiecesOf(old(m.Now()), m.Now(), h, ids)
    ensures Adjacent(Records(m.handles, ids), old(m.handles)[h])
    ensures Capacities(Records(m.handles, ids)) == old(m.handles)[h].cap
    ensures !past ==> ExactPieces(old(m.Now()), m.Now(), h, ids, d)
  {
    hide Inv, Views, Cells, Elements, Joined;
    ghost var was := m.Now();
    StartsWhole(was, h);
    ids, d := [h], m.handles[h].data;
    assert Records(was.handles, ids) == [was.handles[h]];
    for i := 0 to |cuts|
      invariant PiecesOf(was, m.Now(), h, ids)
      invariant !past ==> ExactPieces(was, m.Now(), h, ids, d)
      invariant Adjacent(Records(m.handles, ids), was.handles[h])
    {
      ids, d := CutPiece(m, was, h, ids, d, cuts[i], past);
    }
    AdjacentAddUp(Records(m.handles, ids), was.handles[h]);
  }

  /** Split and unsplit are inverse.  However a `BytesMut` is cut, joining the pieces from left to
      right gives its bytes back and disturbs no other handle.  If no cut lay in the spare room,
      pointer, length, capacity and count are those of before as well; only the promotion, if a
      cut caused one, stays. */
  method CutAndRejoin(m: Memory, h: nat, cuts: seq<Cut>, past: bool) returns (w: nat)
    requires Inv(m.Now()) && m.IsMut(h)
    modifies m
    ensures Inv(m.Now()) && m.IsMut(w)
    ensures m.Seen() == (old(m.Seen()) - {h})[w := old(m.Seen())[h]]
    ensures m.handles == (old(m.handles) - {h})[w := m.handles[w]]
    ensures !past ==>
              var x, y := old(m.handles)[h], m.handles[w];
              && y.ptr == x.ptr && y.len == x.len && y.cap == x.cap
              && match y.data
                 case Promoted(b) =>
                   && b == BlockOf(old(m.Now()), x) && b < |m.blocks|
                   && m.blocks[b].count == StartCount(old(m.Now()), h)
                 case _ => w == h && m.Now() == old(m.Now())
  {
    hide Inv, Views, Cells;
    ghost var was := m.Now();
    var ids;
    ghost var d: Data;
    ids, d := CutAll(m, h, cuts, past);
    while |ids| > 1
      invariant PiecesOf(was, m.Now(), h, ids)
      invariant !past ==> ExactPieces(was, m.Now(), h, ids, d)
    {
      ids := JoinFirst(m, was, h, ids, d, !past);
    }
    w := ids[0];
    assert Elements(ids) == {w} && ids[1..] == [];
    Facts(was, h);
    Facts(m.Now(), w);
    assert m.Seen()[w] == Mutable(Joined(m.Seen(), ids)) by {
      Shown(m.Now(), w);
    }
    Shown(was, h);
    assert m.Seen() == (m.Seen() - {w})[w := m.Seen()[w]];
    assert m.handles == (m.handles - {w})[w := m.handles[w]];
    if !past { assert Records(m.handles, ids)[0] == m.handles[w]; }
  }
}
