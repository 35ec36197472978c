/** Vectored reads: the slices of a nested cursor gathered into a caller's array, and the write
    that hands them to a socket. */
module Vectored {
  import opened Basics
  import opened Cursors

  /** The temporary slots that `Take` has. */
  const LEN: nat := 32

  /** No part of the tree hides several chunks behind the default method. */
  predicate Contiguous(t: Buf) {
    match t
    case Leaf(_) => true
    case Segs(_) => false
    case Chain(a, b) => Contiguous(a) && Contiguous(b)
    case Take(inner, _) => Contiguous(inner)
  }

  /** The slices cut down to `limit` bytes in all. */
  function Clip(slices: seq<seq<Byte>>, limit: nat): seq<seq<Byte>> {
    if slices == [] then []
    else if limit <= |slices[0]| then [slices[0][..limit]]
    else [slices[0]] + Clip(slices[1..], limit - |slices[0]|)
  }

  /** The slices written to `n` slots. */
  function Gathered(t: Buf, n: nat): (r: seq<seq<Byte>>)
    ensures |r| <= n
    decreases t
  {
    match t
    case Chain(a, b) => var first := Gathered(a, n); first + Gathered(b, n - |first|)
    case Take(inner, limit) =>
      if limit == 0 then []
      else ClipLength(Gathered(inner, Min(n, LEN)), limit); Clip(Gathered(inner, Min(n, LEN)), limit)
    case _ => if n > 0 && Remaining(t) > 0 then [Chunk(t)] else []
  }

  lemma {:induction false} ClipLength(slices: seq<seq<Byte>>, limit: nat)
    ensures |Clip(slices, limit)| <= |slices|
  {
    if slices != [] && limit > |slices[0]| { ClipLength(slices[1..], limit - |slices[0]|); }
  }

  predicate NoneEmpty(slices: seq<seq<Byte>>) { forall i | 0 <= i < |slices| :: slices[i] != [] }

  /** Clipping keeps the first `limit` bytes and drops a slice only when it has them all. */
  lemma {:induction false} ClipKeeps(slices: seq<seq<Byte>>, limit: nat)
    requires limit > 0 && NoneEmpty(slices)
    ensures var r := Clip(slices, limit);
            && NoneEmpty(r) && Flat(r) == Flat(slices)[..Min(|Flat(slices)|, limit)]
            && |r| <= |slices| && (|r| < |slices| ==> |Flat(slices)| >= limit)
  {
    if slices != [] {
      var head, tail := slices[0], slices[1..];
      assert NoneEmpty(tail);
      if limit <= |head| {
        assert Flat([head[..limit]]) == head[..limit] + Flat([]);
      } else {
        ClipKeeps(tail, limit - |head|);
        var r := Clip(tail, limit - |head|);
        assert ([head] + r)[1..] == r;
      }
    }
  }

  lemma {:induction false} FlatConcat(xs: seq<seq<Byte>>, ys: seq<seq<Byte>>)
    ensures Flat(xs + ys) == Flat(xs) + Flat(ys)
  {
    if xs == [] {
      assert xs + ys == ys;
    } else {
      FlatConcat(xs[1..], ys);
      assert (xs + ys)[1..] == xs[1..] + ys && (xs + ys)[0] == xs[0];
      assert xs[0] + (Flat(xs[1..]) + Flat(ys)) == (xs[0] + Flat(xs[1..])) + Flat(ys);
    }
  }

  /** `slices` starts the content and stops early only for want of slots. */
  ghost predicate Covers(slices: seq<seq<Byte>>, t: Buf, n: nat) {
    && NoneEmpty(slices) && |slices| <= n
    && Flat(slices) <= Content(t)
    && (|slices| == n || Flat(slices) == Content(t))
  }

  /** Only what comes last may hide several chunks. */
  predicate LastOnly(t: Buf) {
    Contiguous(t)
    || match t
       case Segs(_) => true
       case Chain(a, b) => Contiguous(a) && LastOnly(b)
       case Take(inner, _) => LastOnly(inner)
       case _ => false
  }

  lemma JoinCovers(a: Buf, b: Buf, first: seq<seq<Byte>>, second: seq<seq<Byte>>, n: nat)
    requires Covers(first, a, n) && Covers(second, b, n - |first|)
    ensures Covers(first + second, Chain(a, b), n)
  {
    hide Content, Flat;
    JoinInOrder(a, b, first, second, n);
    FlatConcat(first, second);
    ChainContent(a, b);
  }

  lemma ClipCovers(inner: Buf, slices: seq<seq<Byte>>, limit: nat, n: nat)
    requires limit > 0 && Covers(slices, inner, n)
    ensures Covers(Clip(slices, limit), Take(inner, limit), n)
  {
    hide Clip, Flat;
    ClipKeeps(slices, limit);
    TakePrefix(Flat(slices), Content(inner), limit);
  }

  lemma GatheredChain(a: Buf, b: Buf, n: nat, k: nat)
    requires k == n - |Gathered(a, n)|
    ensures Gathered(Chain(a, b), n) == Gathered(a, n) + Gathered(b, k)
  {
  }

  lemma GatheredTake(inner: Buf, limit: nat, n: nat)
    ensures Gathered(Take(inner, limit), n) == if limit == 0 then [] else Clip(Gathered(inner, Min(n, LEN)), limit)
  {
  }

  /** With at most 32 slots the slices cover the content as far as the slots reach. */
  lemma {:induction false} GatheredCovers(t: Buf, n: nat)
    requires Sane(t) && Contiguous(t) && n <= 32
    ensures Covers(Gathered(t, n), t, n)
    decreases t
  {
    hide Covers, Clip, Gathered;
    match t
    case Leaf(rest) => LeafCovers(rest, n);
    case Segs(_) =>
    case Chain(a, b) =>
      var first := Gathered(a, n);
      var k: nat := n - |first|;
      GatheredCovers(a, n);
      GatheredCovers(b, k);
      JoinCovers(a, b, first, Gathered(b, k), n);
      GatheredChain(a, b, n, k);
    case Take(inner, limit) =>
      GatheredTake(inner, limit, n);
      if limit > 0 {
        GatheredCovers(inner, n);
        ClipCovers(inner, Gathered(inner, n), limit, n);
      } else {
        NothingCovers(inner, n);
      }
  }

  lemma LeafCovers(rest: seq<Byte>, n: nat)
    ensures Covers(Gathered(Leaf(rest), n), Leaf(rest), n)
  {
    OneSlice(rest);
  }

  lemma NothingCovers(inner: Buf, n: nat)
    ensures Covers([], Take(inner, 0), n)
  {
  }

  ghost predicate InOrder(slices: seq<seq<Byte>>, t: Buf) { NoneEmpty(slices) && Flat(slices) <= Content(t) }

  lemma JoinInOrder(a: Buf, b: Buf, first: seq<seq<Byte>>, second: seq<seq<Byte>>, n: nat)
    requires Covers(first, a, n) && InOrder(second, b) && |second| <= n - |first|
    ensures InOrder(first + second, Chain(a, b))
  {
    hide Content, Flat;
    FlatConcat(first, second);
    ChainContent(a, b);
    if |first| == n { assert first + second == first; }
  }

  lemma ClipInOrder(inner: Buf, slices: seq<seq<Byte>>, limit: nat)
    requires limit > 0 && InOrder(slices, inner)
    ensures InOrder(Clip(slices, limit), Take(inner, limit))
  {
    hide Clip, Flat;
    ClipKeeps(slices, limit);
    TakePrefix(Flat(slices), Content(inner), limit);
  }

  lemma ChunkInOrder(t: Buf, n: nat)
    requires Sane(t) && (t.Leaf? || t.Segs?)
    ensures InOrder(Gathered(t, n), t)
  {
    ChunkIsPrefix(t);
    OneSlice(Chunk(t));
  }

  /** Then the slices still start the content, though they may stop early. */
  lemma {:induction false} GatheredInOrder(t: Buf, n: nat)
    requires Sane(t) && LastOnly(t) && n <= 32
    ensures NoneEmpty(Gathered(t, n)) && Flat(Gathered(t, n)) <= Content(t)
    decreases t
  {
    hide Covers, Clip, Gathered, Flat, Content;
    if Contiguous(t) {
      GatheredCovers(t, n);
      CoversInOrder(Gathered(t, n), t, n);
    } else {
      match t
      case Segs(_) => ChunkInOrder(t, n);
      case Chain(a, b) =>
        var first := Gathered(a, n);
        var k: nat := n - |first|;
        GatheredCovers(a, n);
        GatheredInOrder(b, k);
        JoinInOrder(a, b, first, Gathered(b, k), n);
        GatheredChain(a, b, n, k);
      case Take(inner, limit) =>
        GatheredTake(inner, limit, n);
        if limit > 0 {
          GatheredInOrder(inner, n);
          ClipInOrder(inner, Gathered(inner, n), limit);
        } else {
          NothingInOrder(t);
        }
    }
  }

  lemma NothingInOrder(t: Buf)
    ensures InOrder([], t)
  {
  }

  lemma CoversInOrder(slices: seq<seq<Byte>>, t: Buf, n: nat)
    requires Covers(slices, t, n)
    ensures InOrder(slices, t)
  {
  }

  predicate NoTake(t: Buf) {
    match t
    case Chain(a, b) => NoTake(a) && NoTake(b)
    case Take(_, _) => false
    case _ => true
  }

  /** Gathering is what reading and advancing chunk by chunk would give. */
  lemma {:induction false} GatheredIterates(t: Buf, n: nat)
    requires Sane(t) && Contiguous(t) && 0 < n && (n <= 32 || NoTake(t)) && Content(t) != []
    ensures |Chunk(t)| <= |Content(t)|
    ensures Gathered(t, n) == [Chunk(t)] + Gathered(Moved(t, |Chunk(t)|), n - 1)
    decreases t, 1
  {
    ChunkIsPrefix(t);
    match t
    case Leaf(rest) => assert rest[|rest|..] == [];
    case Chain(a, b) => ChainIterates(a, b, n);
    case Take(inner, limit) => TakeIterates(inner, limit, n);
  }

  lemma {:induction false} ChainIterates(a: Buf, b: Buf, n: nat)
    requires Sane(a) && Sane(b) && Contiguous(a) && Contiguous(b) && Content(Chain(a, b)) != []
    requires 0 < n && (n <= 32 || (NoTake(a) && NoTake(b)))
    requires |Chunk(Chain(a, b))| <= |Content(Chain(a, b))|
    ensures var t := Chain(a, b); Gathered(t, n) == [Chunk(t)] + Gathered(Moved(t, |Chunk(t)|), n - 1)
    decreases Chain(a, b), 0
  {
    hide Gathered, Content, Sane, Contiguous;
    ChainContent(a, b);
    ChunkIsPrefix(a);
    ChunkIsPrefix(b);
    var c, m: nat := |Chunk(Chain(a, b))|, n - 1;
    if Content(a) == [] {
      GatheredIterates(b, n);
      NothingGathered(a, n);
      NothingGathered(a, m);
      MovedZero(a);
      GatheredChain(a, b, n, n);
      GatheredChain(a, Moved(b, c), m, m);
      assert [] + Gathered(b, n) == Gathered(b, n);
    } else {
      GatheredIterates(a, n);
      MovedZero(b);
      var rest := Gathered(Moved(a, c), m);
      var k: nat := m - |rest|;
      GatheredChain(a, b, n, k);
      GatheredChain(Moved(a, c), b, m, k);
      assert ([Chunk(a)] + rest) + Gathered(b, k) == [Chunk(a)] + (rest + Gathered(b, k));
    }
  }

  lemma NothingGathered(t: Buf, n: nat)
    requires Sane(t) && Content(t) == []
    ensures Gathered(t, n) == []
  {
    GatheredIsBounded(t, n);
  }

  lemma {:induction false} TakeIterates(inner: Buf, limit: nat, n: nat)
    requires Sane(inner) && Contiguous(inner) && 0 < n <= 32 && Content(Take(inner, limit)) != []
    requires |Chunk(Take(inner, limit))| <= |Content(Take(inner, limit))|
    ensures var t := Take(inner, limit); Gathered(t, n) == [Chunk(t)] + Gathered(Moved(t, |Chunk(t)|), n - 1)
    decreases Take(inner, limit), 0
  {
    hide Gathered, Sane, Contiguous;
    ChunkIsPrefix(inner);
    GatheredIterates(inner, n);
    var head, m: nat := Chunk(inner), n - 1;
    GatheredTake(inner, limit, n);
    ClipFirst(head, Gathered(Moved(inner, |head|), m), limit);
    if limit <= |head| {
      GatheredTake(Moved(inner, limit), 0, m);
    } else {
      assert head[..|head|] == head;
      GatheredTake(Moved(inner, |head|), limit - |head|, m);
    }
  }

  lemma ClipFirst(head: seq<Byte>, rest: seq<seq<Byte>>, limit: nat)
    ensures Clip([head] + rest, limit)
            == if limit <= |head| then [head[..limit]] else [head] + Clip(rest, limit - |head|)
  {
    assert ([head] + rest)[1..] == rest;
  }

  /** One slot is in order for every tree. */
  lemma {:induction false} OneSlot(t: Buf, n: nat)
    requires Sane(t) && n <= 1
    ensures NoneEmpty(Gathered(t, n)) && Flat(Gathered(t, n)) <= Content(t)
    decreases t
  {
    if n == 0 {
      assert Gathered(t, 0) == [];
    } else {
      match t
      case Chain(a, b) =>
        OneSlot(a, 1);
        OneSlot(b, 1);
        OneOfTwo(a, b);
      case Take(inner, limit) =>
        if limit > 0 {
          OneSlot(inner, 1);
          ClipInOrder(inner, Gathered(inner, 1), limit);
        }
      case _ => ChunkInOrder(t, 1);
    }
  }

  lemma TakePrefix(x: seq<Byte>, c: seq<Byte>, limit: nat)
    requires x <= c
    ensures x[..Min(|x|, limit)] <= c[..Min(|c|, limit)]
  {
  }

  /** One slot takes from the first half of a chain unless nothing remains there. */
  lemma OneOfTwo(a: Buf, b: Buf)
    requires Sane(a) && Sane(b)
    ensures if Content(a) == [] then Gathered(Chain(a, b), 1) == Gathered(b, 1) && Content(Chain(a, b)) == Content(b)
            else Gathered(Chain(a, b), 1) == Gathered(a, 1) && Content(a) <= Content(Chain(a, b))
  {
    hide Content;
    ChainContent(a, b);
    GatheredIsBounded(a, 1);
    var first := Gathered(a, 1);
    if Content(a) == [] {
      assert first == [];
    } else {
      assert Gathered(b, 0) == [] && 1 - |first| == 0;
    }
  }

  /** No empty slice, no more bytes than remain, and something whenever there is a slot and a byte. */
  ghost predicate Bounded(slices: seq<seq<Byte>>, t: Buf, n: nat) {
    NoneEmpty(slices) && |Flat(slices)| <= |Content(t)| && (slices != [] <==> n > 0 && Content(t) != [])
  }

  lemma JoinBounded(a: Buf, b: Buf, first: seq<seq<Byte>>, second: seq<seq<Byte>>, n: nat)
    requires |first| <= n && Bounded(first, a, n) && Bounded(second, b, n - |first|)
    ensures Bounded(first + second, Chain(a, b), n)
  {
    hide Content, Flat;
    FlatConcat(first, second);
    ChainContent(a, b);
  }

  lemma ClipBounded(inner: Buf, slices: seq<seq<Byte>>, limit: nat, n: nat)
    requires limit > 0 && Bounded(slices, inner, Min(n, LEN))
    ensures Bounded(Clip(slices, limit), Take(inner, limit), n)
  {
    hide Clip, Flat;
    ClipKeeps(slices, limit);
    ClipSome(slices, limit);
  }

  lemma ChunkBounded(t: Buf, n: nat)
    requires Sane(t) && (t.Leaf? || t.Segs?)
    ensures Bounded(Gathered(t, n), t, n)
  {
    ChunkIsPrefix(t);
    OneSlice(Chunk(t));
  }

  lemma NothingBounded(inner: Buf, n: nat)
    ensures Bounded([], Take(inner, 0), n)
  {
  }

  /** Whatever the tree and the slots. */
  lemma {:induction false} GatheredIsBounded(t: Buf, n: nat)
    requires Sane(t)
    ensures Bounded(Gathered(t, n), t, n)
    decreases t
  {
    hide Bounded, Clip, Gathered;
    match t
    case Chain(a, b) =>
      var first := Gathered(a, n);
      var k: nat := n - |first|;
      GatheredIsBounded(a, n);
      GatheredIsBounded(b, k);
      JoinBounded(a, b, first, Gathered(b, k), n);
      GatheredChain(a, b, n, k);
    case Take(inner, limit) =>
      GatheredTake(inner, limit, n);
      if limit > 0 {
        GatheredIsBounded(inner, Min(n, LEN));
        ClipBounded(inner, Gathered(inner, Min(n, LEN)), limit, n);
      } else {
        NothingBounded(inner, n);
      }
    case _ => ChunkBounded(t, n);
  }

  lemma OneSlice(x: seq<Byte>)
    ensures Flat([x]) == x
  {
    assert Flat([x]) == x + Flat([]);
  }

  lemma ClipSome(slices: seq<seq<Byte>>, limit: nat)
    ensures Clip(slices, limit) != [] <==> slices != []
  {
  }

  /** `was` with `slices` written from index `from` on. */
  ghost function Filled(was: seq<seq<Byte>>, from: nat, slices: seq<seq<Byte>>): seq<seq<Byte>>
    requires from + |slices| <= |was|
  {
    was[..from] + slices + was[from + |slices|..]
  }

  lemma FilledTwice(was: seq<seq<Byte>>, from: nat, xs: seq<seq<Byte>>, ys: seq<seq<Byte>>)
    requires from + |xs| + |ys| <= |was|
    ensures Filled(Filled(was, from, xs), from + |xs|, ys) == Filled(was, from, xs + ys)
  {
  }

  lemma FilledNone(was: seq<seq<Byte>>, from: nat)
    requires from <= |was|
    ensures Filled(was, from, []) == was
  {
  }

  lemma FilledNext(was: seq<seq<Byte>>, from: nat, xs: seq<seq<Byte>>, x: seq<Byte>)
    requires from + |xs| < |was|
    ensures |Filled(was, from, xs)| == |was|
    ensures Filled(was, from, xs)[from + |xs| := x] == Filled(was, from, xs + [x])
  {
  }

  /** `chunks_vectored` into the slots `dst[from..to]`. */
  method ChunksVectored(t: Buf, dst: array<seq<Byte>>, from: nat, to: nat) returns (cnt: nat)
    requires from <= to <= dst.Length
    modifies dst
    ensures cnt == |Gathered(t, to - from)|
    ensures dst[..] == Filled(old(dst[..]), from, Gathered(t, to - from))
    decreases t, 0
  {
    hide Filled;
    ghost var was := dst[..];
    FilledNone(was, from);
    match t {
      case Chain(a, b) =>
        cnt := ChunksVectored(a, dst, from, to);
        var more := ChunksVectored(b, dst, from + cnt, to);
        FilledTwice(was, from, Gathered(a, to - from), Gathered(b, to - from - cnt));
        cnt := cnt + more;
      case Take(inner, limit) =>
        if limit == 0 { return 0; }
        cnt := TakeVectored(inner, limit, dst, from, to);
      case _ =>
        if from == to { return 0; }
        if Remaining(t) > 0 {
          dst[from] := Chunk(t);
          FilledNext(was, from, [], Chunk(t));
          assert [] + [Chunk(t)] == [Chunk(t)];
          return 1;
        }
        return 0;
    }
  }

  lemma ClipStep(all: seq<seq<Byte>>, i: nat, left: nat, done: seq<seq<Byte>>)
    requires i < |all|
    ensures done + Clip(all[i..], left) ==
            if left <= |all[i]| then done + [all[i][..left]]
            else done + [all[i]] + Clip(all[i + 1..], left - |all[i]|)
  {
    assert all[i..][0] == all[i] && all[i..][1..] == all[i + 1..];
    if left <= |all[i]| { assert Clip(all[i..], left) == [all[i][..left]]; }
  }

  lemma ClipEnd(all: seq<seq<Byte>>, left: nat, done: seq<seq<Byte>>)
    ensures done + Clip(all[|all|..], left) == done
  {
    assert all[|all|..] == [];
  }

  /** The part of `Take::chunks_vectored` after its first check. */
  method TakeVectored(inner: Buf, limit: nat, dst: array<seq<Byte>>, from: nat, to: nat) returns (n: nat)
    requires from <= to <= dst.Length && limit > 0
    modifies dst
    ensures var r := Clip(Gathered(inner, Min(to - from, LEN)), limit);
            from + |r| <= dst.Length && n == |r| && dst[..] == Filled(old(dst[..]), from, r)
    decreases inner, 1
  {
    hide Filled, Gathered, Clip;
    ghost var was := dst[..];
    var slices := new seq<Byte>[LEN](_ => []);
    ghost var empty := slices[..];
    var cnt := ChunksVectored(inner, slices, 0, Min(to - from, LEN));
    ghost var all := Gathered(inner, Min(to - from, LEN));
    FilledAt(empty, all, slices[..]);
    ClipLength(all, limit);
    FilledNone(was, from);
    var left: nat := limit;
    var i: nat := 0;
    ghost var done: seq<seq<Byte>> := [];
    while i < cnt
      invariant i <= cnt == |all| && |done| == i && slices[..cnt] == all
      invariant done + Clip(all[i..], left) == Clip(all, limit)
      invariant dst[..] == Filled(was, from, done)
    {
      var slice := slices[i];
      assert slice == all[i];
      ClipStep(all, i, left, done);
      if left <= |slice| {
        dst[from + i] := slice[..left];
        FilledNext(was, from, done, slice[..left]);
        return i + 1;
      }
      dst[from + i] := slice;
      FilledNext(was, from, done, slice);
      done, left, i := done + [slice], left - |slice|, i + 1;
    }
    ClipEnd(all, left, done);
    n := cnt;
  }

  lemma FilledAt(was: seq<seq<Byte>>, xs: seq<seq<Byte>>, now: seq<seq<Byte>>)
    requires |xs| <= |was| && now == Filled(was, 0, xs)
    ensures |xs| <= |now| && now[..|xs|] == xs
  {
  }

  lemma OrderedPrefix(t: Buf, n: nat, k: nat)
    requires Sane(t) && (n <= 1 || (LastOnly(t) && n <= 32)) && k <= |Flat(Gathered(t, n))|
    ensures k <= |Content(t)| && Flat(Gathered(t, n))[..k] + Content(t)[k..] == Content(t)
  {
    hide Gathered, Content;
    if n <= 1 { OneSlot(t, n); } else { GatheredInOrder(t, n); }
    assert Content(t)[..k] + Content(t)[k..] == Content(t);
  }

  /** `poll_write_buf_vectored` with `n` slots, on a writer that accepts `accepted` bytes. */
  method WriteVectored(t: Buf, n: nat, accepted: nat) returns (sent: seq<Byte>, rest: Buf)
    requires Sane(t) && accepted <= Min(|Flat(Gathered(t, n))|, USIZE_MAX)
    ensures Sane(rest) && |sent| == accepted <= |Content(t)| && Content(rest) == Content(t)[accepted..]
    ensures n <= 1 || (LastOnly(t) && n <= 32) ==> sent + Content(rest) == Content(t)
  {
    hide Filled, Gathered, Content, Sane, Moved, Covers;
    GatheredIsBounded(t, n);
    RemainingIsLength(t);
    var slots := new seq<Byte>[n](_ => []);
    ghost var empty := slots[..];
    var cnt := ChunksVectored(t, slots, 0, n);
    FilledAt(empty, Gathered(t, n), slots[..]);
    sent := Flat(slots[..cnt])[..accepted];
    var moved := Advance(t, accepted);
    MovedContent(t, accepted);
    rest := moved.value;
    if n <= 1 || (LastOnly(t) && n <= 32) { OrderedPrefix(t, n, accepted); }
  }

  /** `k` single zero bytes chained. */
  function Row(k: nat): Buf {
    if k == 0 then Leaf([]) else Chain(Leaf([0]), Row(k - 1))
  }

  function Zeros(k: nat): seq<Byte> { seq(k, _ => 0) }

  function Singles(k: nat): seq<seq<Byte>> { seq(k, _ => [0]) }

  lemma {:induction false} RowIs(k: nat, n: nat)
    requires k <= USIZE_MAX
    ensures Sane(Row(k)) && Contiguous(Row(k)) && Content(Row(k)) == Zeros(k)
    ensures Gathered(Row(k), n) == Singles(Min(k, n))
  {
    hide Zeros, Singles;
    ZerosStep(k);
    if k > 0 {
      RowIs(k - 1, if n == 0 then 0 else n - 1);
      if n > 0 { ZerosStep(Min(k, n)); }
    }
    ZerosStep(0);
  }

  lemma ZerosStep(k: nat)
    ensures Zeros(k) == if k == 0 then [] else [0] + Zeros(k - 1)
    ensures Singles(k) == if k == 0 then [] else [[0]] + Singles(k - 1)
  {
  }

  lemma {:induction false} FlatSingles(k: nat)
    ensures Flat(Singles(k)) == Zeros(k) && NoneEmpty(Singles(k))
  {
    if k > 0 {
      FlatSingles(k - 1);
      assert Singles(k)[1..] == Singles(k - 1);
      assert [0] + Zeros(k - 1) == Zeros(k);
    }
  }

  /** A row taken whole, then a one. */
  function Skipper(k: nat): Buf { Chain(Take(Row(k), k), Leaf([1])) }

  /** With more than 32 slots, a row of more than 32 chunks loses the zeros past the 32nd and the
      one is handed out in their place. */
  lemma SkipperSkips(k: nat, n: nat)
    requires LEN < k <= USIZE_MAX && LEN < n
    ensures var t := Skipper(k); Sane(t) && Contiguous(t) && !(Flat(Gathered(t, n)) <= Content(t))
  {
    hide Row, Gathered;
    RowIs(k, LEN);
    FlatSingles(LEN);
    ClipKeeps(Singles(LEN), k);
    SkipperGathers(k, n);
    FlatConcat(Clip(Singles(LEN), k), [[1]]);
    assert Flat([[1]]) == [1] + Flat([]);
    assert Flat(Clip(Singles(LEN), k)) == Zeros(LEN);
    assert Flat(Gathered(Skipper(k), n))[LEN] == 1;
    assert Content(Take(Row(k), k)) == Zeros(k);
    assert Content(Skipper(k)) == Zeros(k) + [1];
  }

  lemma SkipperGathers(k: nat, n: nat)
    requires LEN < k <= USIZE_MAX && LEN < n
    ensures Gathered(Skipper(k), n) == Clip(Singles(LEN), k) + [[1]]
  {
    hide Row, Clip;
    RowIs(k, LEN);
    ClipLength(Singles(LEN), k);
    assert Gathered(Take(Row(k), k), n) == Clip(Singles(LEN), k);
  }

  /** As long as only the last leaf hides several chunks, the slices start the content of every
      tree if and only if there are at most 32 slots. */
  lemma FaithfulIff(n: nat)
    ensures (forall t | Sane(t) && LastOnly(t) :: Flat(Gathered(t, n)) <= Content(t)) <==> n <= 32
    ensures (forall t | Sane(t) && Contiguous(t) :: Flat(Gathered(t, n)) <= Content(t)) <==> n <= 32
  {
    if n <= 32 {
      forall t | Sane(t) && LastOnly(t) ensures Flat(Gathered(t, n)) <= Content(t) { GatheredInOrder(t, n); }
    } else {
      SkipperSkips(LEN + 1, n);
    }
  }

  /** The 64 slots of `poll_write_buf_vectored` are too many: some contiguous buffer is written with
      bytes missing. */
  lemma SocketWriteSkips()
    ensures exists t :: Sane(t) && Contiguous(t) && !(Flat(Gathered(t, 64)) <= Content(t))
  {
    SkipperSkips(LEN + 1, 64);
  }

  /** A buffer with several chunks that keeps the default method, in front of another. */
  const FRONT := Chain(Segs([[1], [2]]), Leaf([3]))

  /** Its second chunk is skipped as soon as there are two slots. */
  lemma DefaultSkips(n: nat)
    requires n >= 2
    ensures Sane(FRONT) && Content(FRONT) == [1, 2, 3] && Gathered(FRONT, n) == [[1], [3]]
    ensures !(Flat(Gathered(FRONT, n)) <= Content(FRONT))
  {
    assert Flat([[1], [2]]) == [1] + Flat([[2]]) && Flat([[2]]) == [2] + Flat([]);
    assert Gathered(FRONT, n) == [[1], [3]];
    assert Flat([[1], [3]]) == [1] + Flat([[3]]) && Flat([[3]]) == [3] + Flat([]);
    assert Flat([[1], [3]])[1] == 3;
  }

  /** With leaves of several chunks anywhere, the slices start the content of every tree if and only
      if there is at most one slot. */
  lemma DefaultFaithfulIff(n: nat)
    ensures (forall t | Sane(t) :: Flat(Gathered(t, n)) <= Content(t)) <==> n <= 1
  {
    if n <= 1 {
      forall t | Sane(t) ensures Flat(Gathered(t, n)) <= Content(t) { OneSlot(t, n); }
    } else {
      DefaultSkips(n);
    }
  }
}
