/** Write cursors: fixed slices under nested `Chain`, and the default loops that fill them. */
module Sinks {
  import opened Basics
  import opened Cursors

  /** A slice keeps the bytes behind the cursor only to say what memory holds afterwards. */
  datatype Sink = Slot(done: seq<Byte>, rest: seq<Byte>) | ChainMut(a: Sink, b: Sink)

  /** Every slice length fits a machine word, and what was written has no gap. */
  ghost predicate Packed(s: Sink) {
    match s
    case Slot(_, rest) => |rest| <= USIZE_MAX
    case ChainMut(a, b) => Packed(a) && Packed(b) && (Rest(a) == [] || Written(b) == [])
  }

  function Written(s: Sink): seq<Byte> {
    match s case Slot(done, _) => done case ChainMut(a, b) => Written(a) + Written(b)
  }

  /** What the places not yet written hold. */
  ghost function Rest(s: Sink): seq<Byte> {
    match s case Slot(_, rest) => rest case ChainMut(a, b) => Rest(a) + Rest(b)
  }

  /** The memory behind the slices, in order. */
  ghost function Places(s: Sink): seq<Byte> {
    match s case Slot(done, rest) => done + rest case ChainMut(a, b) => Places(a) + Places(b)
  }

  ghost function Cuts(s: Sink): seq<nat> {
    match s case Slot(done, rest) => [|done| + |rest|] case ChainMut(a, b) => Cuts(a) + Cuts(b)
  }

  /** Packed memory is what was written and then what was there. */
  lemma {:induction false} PlacesArePacked(s: Sink)
    requires Packed(s)
    ensures Places(s) == Written(s) + Rest(s)
  {
    match s
    case Slot(_, _) =>
    case ChainMut(a, b) =>
      PlacesArePacked(a);
      PlacesArePacked(b);
      Regroup(Written(a), Rest(a), Written(b), Rest(b));
  }

  lemma Regroup(w: seq<Byte>, x: seq<Byte>, v: seq<Byte>, y: seq<Byte>)
    requires x == [] || v == []
    ensures (w + x) + (v + y) == (w + v) + (x + y)
  {
    assert x + v == v + x by {
      if x == [] { assert x + v == v && v + x == v; } else { assert x + v == x && v + x == x; }
    }
    assert (w + x) + (v + y) == w + (x + v) + y && (w + v) + (x + y) == w + (v + x) + y;
  }

  function RemainingMut(s: Sink): nat {
    match s
    case Slot(_, rest) => |rest|
    case ChainMut(a, b) => Min(RemainingMut(a) + RemainingMut(b), USIZE_MAX)  // saturating_add
  }

  /** The length of `chunk_mut`. */
  function ChunkLen(s: Sink): nat {
    match s
    case Slot(_, rest) => |rest|
    case ChainMut(a, b) => if RemainingMut(a) > 0 then ChunkLen(a) else ChunkLen(b)
  }

  lemma {:induction false} RemainingMutIsRoom(s: Sink)
    requires Packed(s)
    ensures RemainingMut(s) == Min(|Rest(s)|, USIZE_MAX)
  {
    match s
    case Slot(_, _) =>
    case ChainMut(a, b) => RemainingMutIsRoom(a); RemainingMutIsRoom(b);
  }

  lemma {:induction false} ChunkLenFits(s: Sink)
    requires Packed(s)
    ensures ChunkLen(s) <= RemainingMut(s) && (ChunkLen(s) == 0 <==> Rest(s) == [])
  {
    RemainingMutIsRoom(s);
    match s
    case Slot(_, _) =>
    case ChainMut(a, b) =>
      RemainingMutIsRoom(a);
      ChunkLenFits(a);
      ChunkLenFits(b);
      assert ChunkLen(s) <= USIZE_MAX;
  }

  /** A slice ends after the first `n` bytes of the memory. */
  ghost predicate SliceEnds(s: Sink, n: nat) {
    match s
    case Slot(done, rest) => n == |done| + |rest|
    case ChainMut(a, b) => SliceEnds(a, n) || (n >= |Places(a)| && SliceEnds(b, n - |Places(a)|))
  }

  lemma {:induction false} EndsInside(s: Sink, n: nat)
    requires SliceEnds(s, n)
    ensures n <= |Places(s)|
  {
    match s
    case Slot(_, _) =>
    case ChainMut(a, b) => if SliceEnds(a, n) { EndsInside(a, n); } else { EndsInside(b, n - |Places(a)|); }
  }

  /** `chunk_mut` is all that is free of one slice: it begins where writing goes on and ends where a
      slice does, and no slice ends inside it. */
  lemma {:induction false} ChunkIsOneSlice(s: Sink, n: nat)
    requires Packed(s) && Rest(s) != []
    ensures SliceEnds(s, |Written(s)| + ChunkLen(s))
    ensures |Written(s)| < n < |Written(s)| + ChunkLen(s) ==> !SliceEnds(s, n)
  {
    match s
    case Slot(_, _) =>
    case ChainMut(a, b) =>
      RemainingMutIsRoom(a);
      PlacesArePacked(a);
      if Rest(a) != [] {
        ChunkIsOneSlice(a, n);
        ChunkLenFits(a);
      } else {
        ChunkIsOneSlice(b, if n >= |Places(a)| then n - |Places(a)| else 0);
        if SliceEnds(a, n) { EndsInside(a, n); }
      }
  }

  /** Stores into `chunk_mut` without moving the cursor. */
  method WriteChunk(s: Sink, data: seq<Byte>) returns (r: Sink)
    requires Packed(s) && |data| <= ChunkLen(s)
    ensures Packed(r) && Written(r) == Written(s) && Cuts(r) == Cuts(s)
    ensures |data| <= |Rest(s)| && Rest(r) == data + Rest(s)[|data|..]
    decreases s
  {
    RemainingMutIsRoom(s);
    ChunkLenFits(s);
    match s {
      case Slot(done, rest) =>
        r := Slot(done, data + rest[|data|..]);
      case ChainMut(a, b) =>
        RemainingMutIsRoom(a);
        if RemainingMut(a) > 0 {
          var a' := WriteChunk(a, data);
          r := ChainMut(a', b);
        } else {
          var b' := WriteChunk(b, data);
          r := ChainMut(a, b');
        }
    }
  }

  /** `advance_mut`, whose caller vouches for the room. */
  method AdvanceMut(s: Sink, cnt: nat) returns (r: Sink)
    requires Packed(s) && cnt <= RemainingMut(s)
    ensures cnt <= |Rest(s)| && Written(r) == Written(s) + Rest(s)[..cnt] && Rest(r) == Rest(s)[cnt..]
    ensures Packed(r) && Cuts(r) == Cuts(s)
    decreases s, 1
  {
    RemainingMutIsRoom(s);
    match s {
      case Slot(done, rest) =>
        r := Slot(done + rest[..cnt], rest[cnt..]);
      case ChainMut(a, b) =>
        RemainingMutIsRoom(a);
        RemainingMutIsRoom(b);
        r := ChainedAdvance(a, b, cnt);
    }
  }

  method ChainedAdvance(a: Sink, b: Sink, cnt: nat) returns (r: Sink)
    requires Packed(ChainMut(a, b)) && cnt <= RemainingMut(ChainMut(a, b))
    ensures var s := ChainMut(a, b);
            && cnt <= |Rest(s)| && Written(r) == Written(s) + Rest(s)[..cnt] && Rest(r) == Rest(s)[cnt..]
            && Packed(r) && Cuts(r) == Cuts(s)
    decreases ChainMut(a, b), 0
  {
    RemainingMutIsRoom(ChainMut(a, b));
    RemainingMutIsRoom(a);
    RemainingMutIsRoom(b);
    var aRem := RemainingMut(a);
    var n := Min(aRem, cnt);
    var k: nat := cnt - n;
    var a' := AdvanceMut(a, n);
    var b' := b;
    if cnt >= aRem { b' := AdvanceMut(b, k); }
    ChainAdvanced(Written(a), Rest(a), Written(b), Rest(b), cnt, n, k);
    r := ChainMut(a', b');
  }

  lemma ChainAdvanced(w: seq<Byte>, x: seq<Byte>, v: seq<Byte>, y: seq<Byte>, cnt: nat, n: nat, k: nat)
    requires cnt <= |x| + |y| && (x == [] || v == []) && n == Min(|x|, cnt) && k == cnt - n
    ensures (x + y)[cnt..] == x[n..] + y[k..]
    ensures w + v + (x + y)[..cnt] == (w + x[..n]) + (v + y[..k])
  {
    assert (x + y)[..cnt] == x[..n] + y[..k];
    assert w + v + (x[..n] + y[..k]) == (w + x[..n]) + (v + y[..k]) by {
      if x == [] {
        assert x[..n] == [];
      } else {
        assert v == [];
      }
    }
  }

  /** `put_slice`: a slice copies at once, a chain goes chunk by chunk.  `None` is the panic. */
  method PutSlice(s: Sink, src: seq<Byte>) returns (r: Option<Sink>)
    requires Packed(s) && |src| <= USIZE_MAX
    ensures r.Some? <==> |src| <= |Rest(s)|
    ensures r.Some? ==> Put(s, src, r.value)
  {
    hide Packed, Written, Rest, Cuts;
    RemainingMutIsRoom(s);
    if |src| > RemainingMut(s) { return None; }
    if s.Slot? {
      var one := PutSlot(s, src);
      return Some(one);
    }
    var left, t := src, s;
    ghost var n := 0;
    while left != []
      invariant n <= |src| && left == src[n..] && Packed(t) && Put(s, src[..n], t)
      decreases |left|
    {
      ChunkLenFits(t);
      RemainingMutIsRoom(t);
      assert |Rest(t)| == |Rest(s)| - n;
      var cnt := Min(|left|, ChunkLen(t));
      ghost var before := t;
      t := WriteChunk(t, left[..cnt]);
      RemainingMutIsRoom(t);
      t := AdvanceMut(t, cnt);
      PutMore(s, before, t, src, n, cnt);
      left, n := left[cnt..], n + cnt;
    }
    assert src[..n] == src;
    r := Some(t);
  }

  /** `r` is `s` after `src` was put: nothing beyond the written bytes changed. */
  ghost predicate Put(s: Sink, src: seq<Byte>, r: Sink) {
    && Packed(r) && Cuts(r) == Cuts(s) && |src| <= |Rest(s)|
    && Written(r) == Written(s) + src && Rest(r) == Rest(s)[|src|..]
  }

  lemma PutMore(s: Sink, t: Sink, u: Sink, src: seq<Byte>, n: nat, cnt: nat)
    requires n + cnt <= |src| && Put(s, src[..n], t) && Packed(u) && Cuts(u) == Cuts(t) && cnt <= |Rest(t)|
    requires var rest := src[n..][..cnt] + Rest(t)[cnt..];
             Written(u) == Written(t) + rest[..cnt] && Rest(u) == rest[cnt..]
    ensures Put(s, src[..n + cnt], u)
  {
    hide Packed, Written, Rest, Cuts;
    assert src[..n + cnt] == src[..n] + src[n..][..cnt];
    assert Rest(s)[n..][cnt..] == Rest(s)[n + cnt..];
  }

  method PutSlot(s: Sink, src: seq<Byte>) returns (r: Sink)
    requires s.Slot? && Packed(s) && |src| <= |s.rest|
    ensures Put(s, src, r)
  {
    r := Slot(s.done + src, s.rest[|src|..]);
  }

  /** `put`, from any read cursor, which it drains.  `None` is the panic.  The one case left out,
      more bytes than a room of at least the word size, loops without end in the source. */
  method PutBuf(s: Sink, t: Buf) returns (r: Option<(Sink, Buf)>)
    requires Packed(s) && Sane(t) && (|Content(t)| <= |Rest(s)| || |Rest(s)| < USIZE_MAX)
    ensures r.Some? <==> |Content(t)| <= |Rest(s)|
    ensures r.Some? ==> Put(s, Content(t), r.value.0) && Sane(r.value.1) && Content(r.value.1) == []
  {
    hide Packed, Written, Rest, Cuts, Content, Sane, Moved, Chunk, ChunkLen;
    RemainingMutIsRoom(s);
    RemainingIsLength(t);
    if Remaining(t) > RemainingMut(s) { return None; }
    ghost var src := Content(t);
    var u, left := s, t;
    ghost var n := 0;
    assert src[0..] == src;
    while Remaining(left) > 0
      invariant n <= |src| && Sane(left) && Content(left) == src[n..] && Packed(u) && Put(s, src[..n], u)
      decreases |src| - n
    {
      ChunkIsPrefix(left);
      RemainingIsLength(left);
      ChunkLenFits(u);
      RemainingMutIsRoom(u);
      var chunk := Chunk(left);
      var cnt := Min(|chunk|, ChunkLen(u));
      assert chunk[..cnt] == src[n..][..cnt];
      ghost var before := u;
      u := WriteChunk(u, chunk[..cnt]);
      RemainingMutIsRoom(u);
      u := AdvanceMut(u, cnt);
      PutMore(s, before, u, src, n, cnt);
      var moved := Advance(left, cnt);
      MovedContent(left, cnt);
      assert src[n..][cnt..] == src[n + cnt..];
      left, n := moved.value, n + cnt;
    }
    RemainingIsLength(left);
    assert src[..n] == src;
    r := Some((u, left));
  }
}
