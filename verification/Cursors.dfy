/** Read cursors: slices and segmented buffers under arbitrarily nested `Chain` and `Take`. */
module Cursors {
  import opened Basics

  const USIZE_MAX: nat := 0xFFFF_FFFF_FFFF_FFFF

  /** `Leaf` is any contiguous buffer; `Segs` is an implementor with several chunks that relies on
      the default methods of the trait. */
  datatype Buf =
    | Leaf(rest: seq<Byte>)
    | Segs(parts: seq<seq<Byte>>)
    | Chain(a: Buf, b: Buf)
    | Take(inner: Buf, limit: nat)

  function Flat(parts: seq<seq<Byte>>): seq<Byte> {
    if parts == [] then [] else parts[0] + Flat(parts[1..])
  }

  /** Every number fits a machine word, and segments are not empty. */
  ghost predicate Sane(t: Buf) {
    match t
    case Leaf(rest) => |rest| <= USIZE_MAX
    case Segs(parts) => |Flat(parts)| <= USIZE_MAX && forall i | 0 <= i < |parts| :: parts[i] != []
    case Chain(a, b) => Sane(a) && Sane(b)
    case Take(inner, limit) => Sane(inner) && limit <= USIZE_MAX
  }

  /** The bytes that a cursor stands for. */
  ghost function Content(t: Buf): seq<Byte> {
    match t
    case Leaf(rest) => rest
    case Segs(parts) => Flat(parts)
    case Chain(a, b) => Content(a) + Content(b)
    case Take(inner, limit) => Content(inner)[..Min(|Content(inner)|, limit)]
  }

  function Remaining(t: Buf): nat {
    match t
    case Leaf(rest) => |rest|
    case Segs(parts) => |Flat(parts)|
    case Chain(a, b) => Min(Remaining(a) + Remaining(b), USIZE_MAX)  // saturating_add
    case Take(inner, limit) => Min(Remaining(inner), limit)
  }

  function Chunk(t: Buf): seq<Byte> {
    match t
    case Leaf(rest) => rest
    case Segs(parts) => if parts == [] then [] else parts[0]
    case Chain(a, b) => if Remaining(a) > 0 then Chunk(a) else Chunk(b)
    case Take(inner, limit) => var bytes := Chunk(inner); bytes[..Min(|bytes|, limit)]
  }

  lemma {:induction false} RemainingIsLength(t: Buf)
    requires Sane(t)
    ensures Remaining(t) == Min(|Content(t)|, USIZE_MAX)
  {
    match t
    case Leaf(_) =>
    case Segs(_) =>
    case Chain(a, b) => RemainingIsLength(a); RemainingIsLength(b);
    case Take(inner, _) => RemainingIsLength(inner);
  }

  /** A chunk is a prefix of the content, empty only when nothing remains. */
  lemma {:induction false} ChunkIsPrefix(t: Buf)
    requires Sane(t)
    ensures Chunk(t) <= Content(t) && (Chunk(t) == [] <==> Content(t) == [])
    ensures Remaining(t) == 0 <==> Content(t) == []
    ensures |Chunk(t)| <= Remaining(t)
  {
    RemainingIsLength(t);
    match t
    case Leaf(_) =>
    case Segs(_) =>
    case Chain(a, b) =>
      RemainingIsLength(a);
      ChunkIsPrefix(a);
      ChunkIsPrefix(b);
      if Remaining(a) == 0 { assert Content(t) == Content(b); }
      assert |Chunk(t)| <= USIZE_MAX;
    case Take(inner, _) =>
      ChunkIsPrefix(inner);
  }

  /** A contiguous piece of memory ends after the first `n` bytes of the content. */
  ghost predicate EndsAt(t: Buf, n: nat) {
    match t
    case Leaf(rest) => n == |rest|
    case Segs(parts) => exists i :: 0 <= i <= |parts| && n == |Flat(parts[..i])|
    case Chain(a, b) => (n <= |Content(a)| && EndsAt(a, n)) || (n >= |Content(a)| && EndsAt(b, n - |Content(a)|))
    case Take(inner, _) => n == |Content(t)| || (n < |Content(t)| && EndsAt(inner, n))
  }

  /** The chunk is as long as it can be: it ends where a piece of memory does, and no piece ends
      inside it. */
  lemma {:induction false} ChunkEndsFirst(t: Buf)
    requires Sane(t) && Content(t) != []
    ensures EndsAt(t, |Chunk(t)|) && forall n | 0 < n < |Chunk(t)| :: !EndsAt(t, n)
  {
    ChunkIsPrefix(t);
    match t
    case Leaf(_) =>
    case Segs(parts) => FirstSegment(parts);
    case Chain(a, b) =>
      ChunkIsPrefix(a);
      ChunkIsPrefix(b);
      if Content(a) == [] {
        ChunkEndsFirst(b);
      } else {
        ChunkEndsFirst(a);
      }
    case Take(inner, _) =>
      ChunkIsPrefix(inner);
      ChunkEndsFirst(inner);
  }

  lemma FirstSegment(parts: seq<seq<Byte>>)
    requires parts != [] && forall i | 0 <= i < |parts| :: parts[i] != []
    ensures EndsAt(Segs(parts), |parts[0]|) && forall n | 0 < n < |parts[0]| :: !EndsAt(Segs(parts), n)
  {
    forall i | 0 <= i <= |parts| ensures if i == 0 then Flat(parts[..i]) == [] else |Flat(parts[..i])| >= |parts[0]| {
      if i > 0 { assert parts[..i][0] == parts[0]; }
    }
    assert parts[..1] == [parts[0]] && parts[..1][1..] == [];
    assert |Flat(parts[..1])| == |parts[0]|;
  }

  // ===== Moving forward =====

  function MovedSegs(parts: seq<seq<Byte>>, cnt: nat): seq<seq<Byte>> {
    if cnt == 0 || parts == [] then parts
    else if cnt < |parts[0]| then [parts[0][cnt..]] + parts[1..]
    else MovedSegs(parts[1..], cnt - |parts[0]|)
  }

  /** The cursor `cnt` bytes further on; limits shrink by what went through them. */
  ghost function Moved(t: Buf, cnt: nat): Buf
    requires cnt <= |Content(t)|
  {
    match t
    case Leaf(rest) => Leaf(rest[cnt..])
    case Segs(parts) => Segs(MovedSegs(parts, cnt))
    case Chain(a, b) =>
      var n := Min(|Content(a)|, cnt);
      Chain(Moved(a, n), Moved(b, cnt - n))
    case Take(inner, limit) => Take(Moved(inner, cnt), limit - cnt)
  }

  lemma {:induction false} MovedSegsFlat(parts: seq<seq<Byte>>, cnt: nat)
    requires cnt <= |Flat(parts)| && forall i | 0 <= i < |parts| :: parts[i] != []
    ensures var r := MovedSegs(parts, cnt); Flat(r) == Flat(parts)[cnt..] && forall i | 0 <= i < |r| :: r[i] != []
  {
    if cnt > 0 {
      var head, tail := parts[0], parts[1..];
      assert Flat(parts) == head + Flat(tail);
      if cnt < |head| {
        assert ([head[cnt..]] + tail)[1..] == tail;
        assert Flat([head[cnt..]] + tail) == head[cnt..] + Flat(tail);
      } else {
        MovedSegsFlat(tail, cnt - |head|);
        assert Flat(parts)[cnt..] == Flat(tail)[cnt - |head|..];
      }
    } else {
      assert Flat(parts)[0..] == Flat(parts);
    }
  }

  lemma {:induction false} MovedSegsTwice(parts: seq<seq<Byte>>, x: nat, y: nat)
    ensures MovedSegs(MovedSegs(parts, x), y) == MovedSegs(parts, x + y)
  {
    if x > 0 && parts != [] {
      var head, tail := parts[0], parts[1..];
      if x < |head| {
        var once := [head[x..]] + tail;
        assert once[1..] == tail;
        if y < |head| - x { assert head[x..][y..] == head[x + y..]; }
      } else {
        MovedSegsTwice(tail, x - |head|, y);
      }
    }
  }

  /** Moving drops a prefix of the content. */
  lemma {:induction false} MovedContent(t: Buf, cnt: nat)
    requires Sane(t) && cnt <= |Content(t)|
    ensures Sane(Moved(t, cnt)) && Content(Moved(t, cnt)) == Content(t)[cnt..]
  {
    match t
    case Leaf(_) =>
    case Segs(parts) => MovedSegsFlat(parts, cnt);
    case Chain(a, b) =>
      var n := Min(|Content(a)|, cnt);
      MovedContent(a, n);
      MovedContent(b, cnt - n);
      ChainMoved(Content(a), Content(b), cnt);
    case Take(inner, limit) =>
      MovedContent(inner, cnt);
      TakeMoved(Content(inner), limit, cnt);
  }

  lemma ChainMoved(a: seq<Byte>, b: seq<Byte>, cnt: nat)
    requires cnt <= |a| + |b|
    ensures var n := Min(|a|, cnt); (a + b)[cnt..] == a[n..] + b[cnt - n..]
  {
  }

  lemma TakeMoved(s: seq<Byte>, limit: nat, cnt: nat)
    requires cnt <= |s| && cnt <= limit
    ensures s[..Min(|s|, limit)][cnt..] == s[cnt..][..Min(|s| - cnt, limit - cnt)]
  {
  }

  lemma {:induction false} MovedZero(t: Buf)
    ensures Moved(t, 0) == t
  {
    match t
    case Leaf(rest) => assert rest[0..] == rest;
    case Segs(_) =>
    case Chain(a, b) => MovedZero(a); MovedZero(b);
    case Take(inner, _) => MovedZero(inner);
  }

  lemma {:induction false} MovedTwice(t: Buf, x: nat, y: nat)
    requires Sane(t) && x + y <= |Content(t)|
    ensures y <= |Content(Moved(t, x))| && Moved(Moved(t, x), y) == Moved(t, x + y)
    decreases t, 1
  {
    MovedContent(t, x);
    match t
    case Leaf(rest) => assert rest[x..][y..] == rest[x + y..];
    case Segs(parts) => MovedSegsTwice(parts, x, y);
    case Chain(a, b) => ChainTwice(a, b, x, y);
    case Take(inner, _) => MovedTwice(inner, x, y);
  }

  lemma {:induction false} ChainTwice(a: Buf, b: Buf, x: nat, y: nat)
    requires Sane(a) && Sane(b) && x + y <= |Content(a)| + |Content(b)|
    requires y <= |Content(Moved(Chain(a, b), x))|
    ensures Moved(Moved(Chain(a, b), x), y) == Moved(Chain(a, b), x + y)
    decreases Chain(a, b), 0
  {
    hide Sane, Content;
    ChainContent(a, b);
    var n, k := Min(|Content(a)|, x), Min(|Content(a)|, x + y);
    MovedContent(a, n);
    MovedContent(b, x - n);
    ChainContent(Moved(a, n), Moved(b, x - n));
    MovedTwice(a, n, k - n);
    MovedTwice(b, x - n, x + y - k - (x - n));
  }

  lemma ChainContent(a: Buf, b: Buf)
    ensures Content(Chain(a, b)) == Content(a) + Content(b)
  {
  }

  /** Moving a segmented buffer forward. */
  method AdvanceSegs(parts: seq<seq<Byte>>, cnt: nat) returns (r: seq<seq<Byte>>)
    requires cnt <= |Flat(parts)|
    ensures r == MovedSegs(parts, cnt)
  {
    r := parts;
    var left: nat := cnt;
    while left > 0
      invariant left <= |Flat(r)| && MovedSegs(r, left) == MovedSegs(parts, cnt)
      decreases |r|, left
    {
      if left < |r[0]| {
        r, left := [r[0][left..]] + r[1..], 0;
      } else {
        r, left := r[1..], left - |r[0]|;
      }
    }
  }

  /** `advance`; `None` stands for the panic, which happens exactly past the end. */
  method Advance(t: Buf, cnt: nat) returns (r: Option<Buf>)
    requires Sane(t) && cnt <= USIZE_MAX
    ensures r.Some? <==> cnt <= |Content(t)|
    ensures r.Some? ==> r.value == Moved(t, cnt)
    decreases t
  {
    match t {
      case Leaf(rest) =>
        if cnt > |rest| { return None; }
        r := Some(Leaf(rest[cnt..]));
      case Segs(parts) =>
        if cnt > |Flat(parts)| { return None; }
        var tail := AdvanceSegs(parts, cnt);
        r := Some(Segs(tail));
      case Chain(a, b) =>
        RemainingIsLength(a);
        var aRem := Remaining(a);
        var a' := Advance(a, Min(aRem, cnt));
        var b' := b;
        MovedZero(b);
        if cnt >= aRem {
          var moved := Advance(b, cnt - aRem);
          if moved.None? { return None; }
          b' := moved.value;
        }
        r := Some(Chain(a'.value, b'));
      case Take(inner, limit) =>
        if cnt > limit { return None; }
        var moved := Advance(inner, cnt);
        if moved.None? { return None; }
        r := Some(Take(moved.value, limit - cnt));
    }
  }

  /** The default `copy_to_slice`: fills `dst` with the next bytes, chunk by chunk. */
  method CopyToSlice(t: Buf, dst: array<Byte>) returns (r: Buf)
    requires Sane(t) && dst.Length <= Remaining(t)
    modifies dst
    ensures dst.Length <= |Content(t)| && dst[..] == Content(t)[..dst.Length]
    ensures Sane(r) && Content(r) == Content(t)[dst.Length..]
  {
    hide Content, Sane, Moved;
    RemainingIsLength(t);
    ghost var all := Content(t);
    r := t;
    var done := 0;
    while done < dst.Length
      invariant done <= dst.Length <= |all| && dst.Length <= USIZE_MAX && Sane(r)
      invariant dst[..done] == all[..done] && Content(r) == all[done..]
    {
      ChunkIsPrefix(r);
      RemainingIsLength(r);
      var src := Chunk(r);
      var cnt := Min(|src|, dst.Length - done);
      forall i | 0 <= i < cnt { dst[done + i] := src[i]; }
      var moved := Advance(r, cnt);
      MovedContent(r, cnt);
      assert src[..cnt] == all[done..][..cnt];
      assert all[..done + cnt] == all[..done] + all[done..][..cnt];
      assert dst[..done + cnt] == dst[..done] + src[..cnt];
      assert all[done..][cnt..] == all[done + cnt..];
      r := moved.value;
      done := done + cnt;
    }
    assert dst[..] == dst[..done];
  }
}
