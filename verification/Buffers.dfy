/** `Bytes` and `BytesMut` as they run: every operation updates the tables of `Heap` in place,
    statement by statement, and promises the exact records it leaves, the invariant, and the
    bytes that every live handle shows afterwards. */
module Buffers {
  import opened Basics
  import opened Heap

  datatype Bound = Included(n: nat) | Excluded(n: nat) | Unbounded

  const NOWHERE := Ptr(0, 0)

  function RangeStart(lo: Bound): nat {
    match lo case Included(n) => n case Excluded(n) => n + 1 case Unbounded => 0
  }

  function RangeEnd(hi: Bound, len: nat): nat {
    match hi case Included(n) => n + 1 case Excluded(n) => n case Unbounded => len
  }

  /** The indices that the two bounds of a range admit, in a view of `len` bytes. */
  predicate FromStart(lo: Bound, i: nat) {
    match lo case Included(n) => n <= i case Excluded(n) => n < i case Unbounded => true
  }

  predicate ToEnd(hi: Bound, i: nat, len: nat) {
    match hi case Included(n) => i <= n case Excluded(n) => i < n case Unbounded => i < len
  }

  /** The bytes among the first `k` whose indices are admitted, in order. */
  ghost function Picked(bytes: seq<Byte>, lo: Bound, hi: Bound, k: nat): seq<Byte>
    requires k <= |bytes|
  {
    if k == 0 then []
    else Picked(bytes, lo, hi, k - 1)
         + if FromStart(lo, k - 1) && ToEnd(hi, k - 1, |bytes|) then [bytes[k - 1]] else []
  }

  /** Some index is behind the end and yet before the start. */
  ghost predicate Reversed(lo: Bound, hi: Bound, len: nat) {
    exists i: nat :: !FromStart(lo, i) && !ToEnd(hi, i, len)
  }

  lemma RangeIsPicked(bytes: seq<Byte>, lo: Bound, hi: Bound)
    ensures var begin, end := RangeStart(lo), RangeEnd(hi, |bytes|);
            && (begin > end <==> Reversed(lo, hi, |bytes|)) && (end > |bytes| <==> ToEnd(hi, |bytes|, |bytes|))
            && (begin <= end <= |bytes| ==> bytes[begin..end] == Picked(bytes, lo, hi, |bytes|))
  {
    var begin, end := RangeStart(lo), RangeEnd(hi, |bytes|);
    if begin > end { assert !FromStart(lo, end) && !ToEnd(hi, end, |bytes|); }
    if begin <= end <= |bytes| { PickedIs(bytes, lo, hi, begin, end, |bytes|); }
  }

  lemma {:induction false} PickedIs(bytes: seq<Byte>, lo: Bound, hi: Bound, begin: nat, end: nat, k: nat)
    requires begin == RangeStart(lo) && end == RangeEnd(hi, |bytes|) && begin <= end <= |bytes| && k <= |bytes|
    ensures Picked(bytes, lo, hi, k) == if k <= begin then [] else bytes[begin..Min(k, end)]
  {
    if k > 0 {
      var j: nat := k - 1;
      PickedIs(bytes, lo, hi, begin, end, j);
      assert FromStart(lo, j) <==> begin <= j;
      assert ToEnd(hi, j, |bytes|) <==> j < end;
      if begin <= j < end { assert bytes[begin..k] == bytes[begin..j] + [bytes[j]]; }
    }
  }

  /** A handle moved forward; an unpromoted one counts the distance in its `data` word. */
  function Advanced(x: Handle, count: nat): Handle
    requires !x.Vec? && count <= x.Extent()
  {
    if count == 0 then x
    else
      var data := if x.data.Unpromoted? then Unpromoted(x.data.offset + count) else x.data;
      var ptr := Ptr(x.ptr.alloc, x.ptr.off + count);
      if x.Bytes? then Bytes(ptr, x.len - count, data)
      else BytesMut(ptr, if count <= x.len then x.len - count else 0, x.cap - count, data)
  }

  /** The vector an unpromoted handle was made from: base pointer, length, capacity. */
  function OriginalBuffer(x: Handle): (Ptr, nat, nat)
    requires !x.Vec? && x.data.Unpromoted? && x.data.offset <= x.ptr.off
  {
    var offset := x.data.offset;
    (Ptr(x.ptr.alloc, x.ptr.off - offset), x.len + offset, x.Extent() + offset)
  }

  /** Rebuilding the vector always yields the base and the capacity of the whole allocation. */
  lemma OriginalBufferIsWhole(s: State, h: nat)
    requires Inv(s) && h in s.handles && !s.handles[h].Vec? && s.handles[h].data.Unpromoted?
    ensures var x := s.handles[h];
            && x.data.offset <= x.ptr.off && x.ptr.alloc < |s.mem|
            && OriginalBuffer(x).0 == Ptr(x.ptr.alloc, 0)
            && OriginalBuffer(x).2 == |s.mem[x.ptr.alloc].bytes|
            && (x.Bytes? ==> OriginalBuffer(x).1 == OriginalBuffer(x).2)
  {
    assert HandleOk(s, h, s.handles[h]);
  }

  /** No other handle is on `h`'s allocation. */
  ghost predicate Unique(s: State, h: nat)
    requires h in s.handles
  {
    var x := s.handles[h];
    x.OwnsAlone() || (x.data.Promoted? && x.data.block < |s.blocks| && s.blocks[x.data.block].count == 1)
  }

  lemma UniqueIsAlone(s: State, h: nat)
    requires Inv(s) && h in s.handles && !s.handles[h].IsStatic()
    ensures Unique(s, h) <==> Keepers(s, s.handles[h].ptr.alloc) == {h}
  {
    var x := s.handles[h];
    var a := x.ptr.alloc;
    assert HandleOk(s, h, x);
    assert h in Keepers(s, a);
    assert AllocOk(s, a);
    ExactlyOneOwner(s, a);
    if !x.OwnsAlone() {
      TaggedAreKeepers(s, x.data.block);
      assert BlockOk(s, x.data.block);
      if s.blocks[x.data.block].count == 1 { OnlyTag(s, h, x.data.block); }
    }
  }

  lemma Swapped<V>(m: map<nat, V>, a: nat, b: nat, x: V, y: V)
    requires a != b
    ensures m[a := x][b := y] == m[b := y][a := x]
  {
  }

  lemma ShareStatic(s: State, h: nat)
    requires Inv(s) && h in s.handles && s.handles[h].IsStatic()
    ensures Share(s, h) == State(s.mem, s.blocks, s.handles[s.next := s.handles[h]], s.next + 1, s.frees)
  {
    Facts(s, h);
  }

  lemma ShareSole(s: State, h: nat)
    requires Inv(s) && h in s.handles && !s.handles[h].Vec? && s.handles[h].data.Unpromoted?
    ensures var x := s.handles[h];
            && x.data.offset <= x.ptr.off && x.ptr.alloc < |s.mem|
            && var y, vec := x.WithData(Promoted(|s.blocks|)), OriginalBuffer(x);
               Share(s, h) == State(SetOwner(s.mem, x.ptr.alloc, Counted(|s.blocks|)),
                                    s.blocks + [Shared(2, vec.0.alloc, vec.2)],
                                    s.handles[h := y][s.next := y], s.next + 1, s.frees)
  {
    OriginalBufferIsWhole(s, h);
  }

  lemma ShareCounted(s: State, h: nat)
    requires Inv(s) && h in s.handles && !s.handles[h].Vec? && s.handles[h].data.Promoted?
    ensures var x := s.handles[h];
            && x.data.block < |s.blocks|
            && Share(s, h) == State(s.mem, SetCount(s.blocks, x.data.block, s.blocks[x.data.block].count + 1),
                                    s.handles[s.next := x], s.next + 1, s.frees)
  {
    Facts(s, h);
  }

  lemma ShareData(s: State, h: nat)
    requires Inv(s) && h in s.handles && s.handles[h].Bytes?
    ensures var t := Share(s, h);
            && s.next in t.handles && h in t.handles && t.handles[h].Bytes? && t.handles[s.next] == t.handles[h]
            && t.handles[h].IsStatic() == s.handles[h].IsStatic()
  {
    Facts(s, h);
  }

  lemma ShareIsSplit(s: State, h: nat)
    requires Inv(s) && h in s.handles && !s.handles[h].Vec? && !s.handles[h].data.Static?
    ensures var x := s.handles[h];
            var y := x.WithData(Promoted(BlockOf(s, x)));
            Share(s, h) == Split(s, h, y, y)
  {
    var x := s.handles[h];
    var y := x.WithData(Promoted(BlockOf(s, x)));
    assert HandleOk(s, h, x);
    assert Share(s, h).handles == Split(s, h, y, y).handles;
  }

  /** The memory has room for `additional` bytes behind the view of `h`, once it takes over what nobody
      else keeps: behind the window, or if the view moves into a gap before it that holds all of it. */
  ghost predicate Room(s: State, h: nat, additional: nat)
    requires h in s.handles && s.handles[h].BytesMut?
  {
    var x := s.handles[h];
    && x.ptr.alloc < |s.mem| && Keepers(s, x.ptr.alloc) == {h}
    && var whole := |s.mem[x.ptr.alloc].bytes|;
       x.ptr.off + x.cap + additional <= whole || (x.len <= x.ptr.off && x.len + additional <= whole)
  }

  /** The same in terms of what the handle and its control block record. */
  lemma RoomRecorded(s: State, h: nat, additional: nat)
    requires Inv(s) && h in s.handles && s.handles[h].BytesMut? && additional > 0
    ensures var x := s.handles[h];
            match x.data
            case Static => false
            case Unpromoted(offset) =>
              && offset == x.ptr.off
              && (Room(s, h, additional) <==> offset + x.cap >= x.len + additional && offset >= x.len)
            case Promoted(b) =>
              && b < |s.blocks| && x.ptr.off + x.cap <= s.blocks[b].cap
              && (Room(s, h, additional) <==>
                    && s.blocks[b].count == 1
                    && (s.blocks[b].cap - (x.cap + x.ptr.off) >= additional
                        || (s.blocks[b].cap >= x.len + additional && x.ptr.off >= x.len)))
  {
    Facts(s, h);
    UniqueIsAlone(s, h);
  }

  /** The window reaches to the end of its allocation; the view has moved to the start of it unless
      the room was behind the window. */
  ghost predicate TookRoom(s: State, x: Handle, y: Handle, additional: nat) {
    && x.BytesMut? && y.BytesMut? && x.ptr.alloc < |s.mem|
    && var whole := |s.mem[x.ptr.alloc].bytes|;
       && y.ptr == (if x.ptr.off + x.cap + additional <= whole then x.ptr else Ptr(x.ptr.alloc, 0))
       && y.ptr.off + y.cap == whole
  }

  /** The potential that pays for moving bytes: the head gap, and how far the view reaches into
      the second half of the allocation. */
  function Potential(x: Handle): nat
    requires x.BytesMut?
  {
    var whole := x.ptr.off + x.cap;
    x.ptr.off + (if 2 * (x.ptr.off + x.len) > whole then 2 * (x.ptr.off + x.len) - whole else 0)
  }

  /** One growth of the view pays for the bytes it moved: either the data slid back over a head
      gap at least as long, or the capacity doubled. */
  lemma GrowthPays(x: Handle, y: Handle, additional: nat, moved: nat)
    requires x.BytesMut? && y.BytesMut? && x.len <= x.cap && y.len == x.len + additional <= y.cap
    requires if additional <= x.cap - x.len then y.ptr == x.ptr && y.cap == x.cap && moved == 0
             else moved == x.len && y.ptr.off == 0
                  && ((x.ptr.off >= x.len && y.cap == x.ptr.off + x.cap)
                      || y.cap >= Max(x.cap * 2, x.len + additional))
    ensures moved + Potential(y) <= Potential(x) + 3 * additional
  {
  }

  /** The two halves of a `BytesMut` window cut at `at`, `len` of whose bytes lie before the cut. */
  function Front(s: State, h: nat, at: nat, len: nat): Handle
    requires h in s.handles && s.handles[h].BytesMut?
  {
    BytesMut(s.handles[h].ptr, len, at, Promoted(BlockOf(s, s.handles[h])))
  }

  function Back(s: State, h: nat, at: nat, len: nat): Handle
    requires h in s.handles && s.handles[h].BytesMut? && at <= s.handles[h].cap && len <= s.handles[h].len
  {
    var x := s.handles[h];
    BytesMut(Ptr(x.ptr.alloc, x.ptr.off + at), x.len - len, x.cap - at, Promoted(BlockOf(s, x)))
  }

  /** The two parts lie side by side in the old window. */
  lemma CutParts(s: State, h: nat, at: nat, len: nat)
    requires Inv(s) && h in s.handles && s.handles[h].BytesMut?
    requires at <= s.handles[h].cap && len == Min(at, s.handles[h].len)
    ensures !s.handles[h].data.Static?
    ensures var x, y := Front(s, h, at, len), Back(s, h, at, len);
            && PartOf(s, s.handles[h], x) && PartOf(s, s.handles[h], y) && Apart(x, y) && Apart(y, x)
  {
    Facts(s, h);
  }

  /** They show the two parts of the bytes. */
  lemma CutViews(s: State, h: nat, at: nat, len: nat)
    requires Inv(s) && h in s.handles && s.handles[h].BytesMut?
    requires at <= s.handles[h].cap && len == Min(at, s.handles[h].len)
    ensures |Views(s)[h].bytes| == s.handles[h].len
    ensures var bytes := Views(s)[h].bytes;
            && View(s, Front(s, h, at, len)) == Mutable(bytes[..len])
            && View(s, Back(s, h, at, len)) == Mutable(bytes[len..])
  {
    hide Inv, Views, Cells;
    var x, y := Front(s, h, at, len), Back(s, h, at, len);
    Facts(s, h);
    var whole := s.handles[h].len;
    Subview(s, h, x, 0, len);
    if at <= whole { Subview(s, h, y, len, whole); } else { NoCells(s, y.ptr); }
    assert Views(s)[h].bytes[len..whole] == Views(s)[h].bytes[len..];
    assert Views(s)[h].bytes[0..len] == Views(s)[h].bytes[..len];
  }

  lemma CutOk(s: State, h: nat, at: nat, len: nat, to: bool)
    requires Inv(s) && h in s.handles && s.handles[h].BytesMut?
    requires at <= s.handles[h].cap && len == Min(at, s.handles[h].len)
    ensures |Views(s)[h].bytes| == s.handles[h].len
    ensures var x, y := Front(s, h, at, len), Back(s, h, at, len);
            var t := if to then Split(s, h, y, x) else Split(s, h, x, y);
            var bytes := Views(s)[h].bytes;
            Inv(t) && Views(t) == if to then Views(s)[h := Mutable(bytes[len..])][s.next := Mutable(bytes[..len])]
                                  else Views(s)[h := Mutable(bytes[..len])][s.next := Mutable(bytes[len..])]
  {
    hide Inv, Views, Cells, View, Front, Back, PartOf, Apart, Split;
    var x, y := Front(s, h, at, len), Back(s, h, at, len);
    CutParts(s, h, at, len);
    CutViews(s, h, at, len);
    if to { SplitOk(s, h, y, x); } else { SplitOk(s, h, x, y); }
  }

  lemma SharedRecords(s: State, h: nat)
    requires Inv(s) && h in s.handles && s.handles[h].BytesMut?
    ensures var y := s.handles[h].WithData(Promoted(BlockOf(s, s.handles[h])));
            Share(s, h).handles == s.handles[h := y][s.next := y]
  {
    Facts(s, h);
  }

  /** What an append leaves, once the room is there. */
  lemma AppendOk(s: State, h: nat, data: seq<Byte>)
    requires Inv(s) && h in s.handles && s.handles[h].BytesMut?
    requires s.handles[h].cap - s.handles[h].len >= |data| && s.handles[h].ptr.alloc < |s.mem|
    requires var x := s.handles[h]; x.ptr.off + x.len + |data| <= |s.mem[x.ptr.alloc].bytes|
    ensures var x := s.handles[h];
            var spare := Ptr(x.ptr.alloc, x.ptr.off + x.len);
            && MayWrite(s, h, spare, |data|)
            && var t := Reshape(Poke(s, spare, data), h, x.WithLen(x.len + |data|));
               Inv(t) && Views(t) == Views(s)[h := Mutable(Views(s)[h].bytes + data)]
  {
    hide Inv, Views, Cells;
    var x := s.handles[h];
    Facts(s, h);
    var spare := Ptr(x.ptr.alloc, x.ptr.off + x.len);
    PokedCells(s, spare, data);
    UnpokedCells(s, spare, data, x.ptr, x.len);
    PokeOk(s, h, spare, data);
    var u := Poke(s, spare, data);
    CellsJoin(u, x.ptr, x.len, |data|);
    var y := x.WithLen(x.len + |data|);
    Facts(u, h);
    if x.data.Promoted? { NarrowClear(u, h, y); }
    ReshapeOk(u, h, y);
  }

  class Memory {
    var mem: seq<Alloc>
    var blocks: seq<Shared>
    var handles: map<nat, Handle>
    var next: nat
    ghost var frees: seq<nat>
    ghost var moved: nat  // bytes moved between places in memory

    ghost function Now(): State
      reads this
    {
      State(mem, blocks, handles, next, frees)
    }

    /** What every live handle shows. */
    ghost function Seen(): map<nat, Value>
      reads this
    {
      Views(Now())
    }

    ghost predicate IsMut(h: nat)
      reads this
    {
      h in handles && handles[h].BytesMut?
    }

    ghost predicate IsBytes(h: nat)
      reads this
    {
      h in handles && handles[h].Bytes?
    }

    ghost predicate IsVec(h: nat)
      reads this
    {
      h in handles && handles[h].Vec?
    }

    constructor ()
      ensures Now() == EMPTY && Inv(Now()) && moved == 0
    {
      mem, blocks, handles, next, frees, moved := [], [], map[], 0, [], 0;
    }

    // ===== Vectors and raw memory =====

    /** `Vec::with_capacity`: some capacity of at least `n`, contents unspecified. */
    method WithCapacity(n: nat) returns (v: nat)
      requires Inv(Now())
      modifies this
      ensures Inv(Now()) && v == old(next) && v !in old(handles)
      ensures |mem| == |old(mem)| + 1 && n <= |mem[|old(mem)|].bytes|
      ensures Now() == Spawn(old(Now()), mem[|old(mem)|].bytes, 0)
      ensures Seen() == old(Seen())[v := Owned([])] && moved == old(moved)
    {
      hide Inv, Views, Cells;
      Fresh(Now());
      assert |seq(n, _ => 0 as Byte)| == n;
      var bytes: seq<Byte> :| n <= |bytes|;
      SpawnOk(Now(), bytes, 0);
      v := next;
      mem := mem + [Alloc(bytes, Sole(v))];
      handles := handles[v := Vec(Ptr(|mem| - 1, 0), 0, |bytes|)];
      next := next + 1;
    }

    /** `slice.to_vec()`. */
    method ToVec(data: seq<Byte>) returns (v: nat)
      requires Inv(Now())
      modifies this
      ensures Inv(Now()) && v == old(next) && v !in old(handles)
      ensures |mem| == |old(mem)| + 1
      ensures Now() == Spawn(old(Now()), mem[|old(mem)|].bytes, |data|)
      ensures |data| <= |mem[|old(mem)|].bytes|
      ensures Seen() == old(Seen())[v := Owned(data)] && moved == old(moved)
    {
      hide Inv, Views, Cells;
      Fresh(Now());
      var slack: seq<Byte> :| true;
      assert (data + slack)[..|data|] == data;
      SpawnOk(Now(), data + slack, |data|);
      v := next;
      mem := mem + [Alloc(data + slack, Sole(v))];
      handles := handles[v := Vec(Ptr(|mem| - 1, 0), |data|, |data + slack|)];
      next := next + 1;
    }

    /** `ptr::copy`: the source is read before anything is written. */
    method Copy(h: nat, src: Ptr, dst: Ptr, n: nat)
      requires Inv(Now()) && MayWrite(Now(), h, dst, n)
      requires src.alloc < |mem| && !mem[src.alloc].owner.Nobody? && src.off + n <= |mem[src.alloc].bytes|
      modifies this
      ensures Now() == Poke(old(Now()), dst, Cells(old(Now()), src, n))
      ensures Inv(Now()) && Seen() == old(Seen())[h := View(Now(), handles[h])]
      ensures moved == old(moved) + n
    {
      hide Inv, Views;
      var data := mem[src.alloc].bytes[src.off..src.off + n];
      Write(h, dst, data);
      moved := moved + n;
    }

    /** `ptr::copy_nonoverlapping`: source and destination must not overlap. */
    method CopyNonoverlapping(h: nat, src: Ptr, dst: Ptr, n: nat)
      requires src.alloc != dst.alloc || src.off + n <= dst.off || dst.off + n <= src.off
      requires Inv(Now()) && MayWrite(Now(), h, dst, n)
      requires src.alloc < |mem| && !mem[src.alloc].owner.Nobody? && src.off + n <= |mem[src.alloc].bytes|
      modifies this
      ensures Now() == Poke(old(Now()), dst, Cells(old(Now()), src, n))
      ensures Inv(Now()) && Seen() == old(Seen())[h := View(Now(), handles[h])]
      ensures moved == old(moved) + n
    {
      hide Inv, Views, Cells;
      Copy(h, src, dst, n);
    }

    /** Stores bytes that come from outside. */
    method Write(h: nat, dst: Ptr, data: seq<Byte>)
      requires Inv(Now()) && MayWrite(Now(), h, dst, |data|)
      modifies this
      ensures Now() == Poke(old(Now()), dst, data) && moved == old(moved)
      ensures Inv(Now()) && Seen() == old(Seen())[h := View(Now(), handles[h])]
    {
      hide Inv, Views, Cells;
      PokeOk(Now(), h, dst, data);
      var was := mem[dst.alloc].bytes;
      mem := mem[dst.alloc := mem[dst.alloc].(
        bytes := was[..dst.off] + data + was[dst.off + |data|..])];
    }

    /** Returns a live allocation to the allocator. */
    method Dealloc(a: nat)
      requires a < |mem| && (mem[a].owner.Sole? || mem[a].owner.Counted?)
      modifies this
      ensures Now() == Free(old(Now()), a) && moved == old(moved)
    {
      mem := mem[a := mem[a].(owner := Nobody)];
      frees := frees + [a];
    }

    /** `Drop` of a handle. */
    method Drop(h: nat)
      requires Inv(Now()) && h in handles
      modifies this
      ensures Now() == Release(old(Now()), h) && moved == old(moved)
      ensures Inv(Now()) && Seen() == old(Seen()) - {h}
    {
      hide Inv, Views, Cells;
      ReleaseOk(Now(), h);
      var x := handles[h];
      Facts(Now(), h);
      handles := handles - {h};
      if x.Vec? {
        Dealloc(x.ptr.alloc);
      } else {
        match x.data
        case Static =>
        case Unpromoted(offset) =>
          OriginalBufferIsWhole(old(Now()), h);
          Dealloc(OriginalBuffer(x).0.alloc);
        case Promoted(b) =>
          var was := blocks[b].count;
          blocks := blocks[b := blocks[b].(count := was - 1)];
          if was == 1 { Dealloc(blocks[b].alloc); }
      }
    }

    // ===== Shared plumbing =====

    /** Counts one more handle on `h`'s buffer.  Both handles claim the same window until the
        caller narrows them, so this alone does not keep the invariant. */
    method ShallowClone(h: nat) returns (n: nat)
      requires Inv(Now()) && h in handles && !handles[h].Vec?
      modifies this
      ensures n == old(next) && Now() == Share(old(Now()), h) && moved == old(moved)
    {
      hide Inv, Share;
      var x := handles[h];
      Facts(Now(), h);
      n := next;
      match x.data {
        case Static =>
          ShareStatic(Now(), h);
          handles := handles[n := x];
        case Unpromoted(_) =>
          ShareSole(Now(), h);
          var vec := OriginalBuffer(x);
          var shared := Shared(2, vec.0.alloc, vec.2);
          mem := mem[vec.0.alloc := mem[vec.0.alloc].(owner := Counted(|blocks|))];
          handles := handles[h := x.WithData(Promoted(|blocks|))];
          blocks := blocks + [shared];
          handles := handles[n := handles[h]];
        case Promoted(b) =>
          ShareCounted(Now(), h);
          blocks := blocks[b := blocks[b].(count := blocks[b].count + 1)];
          handles := handles[n := x];
      }
      next := next + 1;
    }

    method AdvanceUnchecked(h: nat, count: nat)
      requires h in handles && !handles[h].Vec? && count <= handles[h].Extent()
      modifies this`handles
      ensures handles == old(handles)[h := Advanced(old(handles)[h], count)]
    {
      if count == 0 { return; }
      var x := handles[h];
      if x.data.Unpromoted? {
        handles := handles[h := x.WithData(Unpromoted(x.data.offset + count))];
      }
      handles := handles[h := handles[h].WithPtr(Ptr(x.ptr.alloc, x.ptr.off + count))];
      handles := handles[h := handles[h].WithLen(if count <= x.len then x.len - count else 0)];
      if x.BytesMut? {
        handles := handles[h := handles[h].WithCap(x.cap - count)];
      }
    }

    /** `new_empty_with_ptr`, under a fresh name. */
    method NewEmptyWithPtr(p: Ptr) returns (n: nat)
      requires Inv(Now())
      modifies this
      ensures n == old(next) && n !in old(handles) && Now() == AddStatic(old(Now()), n, p, 0)
      ensures handles == old(handles)[n := Bytes(p, 0, Static)] && next == n + 1 && mem == old(mem)
      ensures blocks == old(blocks) && frees == old(frees)
      ensures moved == old(moved)
      ensures Inv(Now()) && Seen() == old(Seen())[n := Frozen([])]
    {
      hide Inv, Views, Cells;
      Fresh(Now());
      AddStaticOk(Now(), next, p, 0);
      n := next;
      handles := handles[n := Bytes(p, 0, Static)];
      next := next + 1;
    }

    /** `mem::replace(self, empty)`: the value moves to a fresh name. */
    method ReplaceWithEmpty(h: nat, p: Ptr) returns (n: nat)
      requires Inv(Now()) && IsBytes(h)
      modifies this
      ensures n == old(next) && n !in old(handles) && moved == old(moved)
      ensures handles == old(handles)[n := old(handles)[h]][h := Bytes(p, 0, Static)]
      ensures blocks == old(blocks) && frees == old(frees) && |mem| == |old(mem)| && next == n + 1
      ensures Inv(Now()) && Seen() == old(Seen())[n := old(Seen())[h]][h := Frozen([])]
    {
      hide Inv, Views, Cells;
      var x := handles[h];
      Facts(Now(), h);
      Fresh(Now());
      RenameOk(Now(), h, next);
      AddStaticOk(Rename(Now(), h, next), h, p, 0);
      n := next;
      handles := handles[n := x][h := Bytes(p, 0, Static)];
      if x.OwnsAlone() { mem := mem[x.ptr.alloc := mem[x.ptr.alloc].(owner := Sole(n))]; }
      next := next + 1;
      assert Now() == AddStatic(Rename(old(Now()), h, n), h, p, 0) by {
        assert handles == (old(handles) - {h})[n := x][h := Bytes(p, 0, Static)];
      }
      assert Seen() == old(Seen())[n := old(Seen())[h]][h := Frozen([])];
    }

    /** `*self = other`: the old value of `h` is dropped and `o` moves in. */
    method Assign(h: nat, o: nat)
      requires Inv(Now()) && h in handles && o in handles && h != o
      modifies this
      ensures handles == (old(handles) - {o})[h := old(handles)[o]] && next == old(next)
      ensures SameBytes(old(Now()), Now()) && |mem| == |old(mem)| && moved == old(moved)
      ensures Inv(Now()) && Seen() == (old(Seen()) - {o})[h := old(Seen())[o]]
      ensures blocks == Release(old(Now()), h).blocks
    {
      hide Inv, Views, Cells;
      Facts(Now(), h);
      Facts(Now(), o);
      Drop(h);
      MoveIn(h, o);
      assert handles == (old(handles) - {o})[h := old(handles)[o]];
      assert Seen() == (old(Seen()) - {o})[h := old(Seen())[o]];
    }

    /** The value of `o` moves to the vacant name `h`. */
    method MoveIn(h: nat, o: nat)
      requires Inv(Now()) && h !in handles && h < next && o in handles
      modifies this
      ensures Now() == Rename(old(Now()), o, h) && next == old(next) && moved == old(moved)
      ensures |mem| == |old(mem)|
      ensures Inv(Now()) && Seen() == (old(Seen()) - {o})[h := old(Seen())[o]]
    {
      hide Inv, Views, Cells;
      var x := handles[o];
      Facts(Now(), o);
      RenameOk(Now(), o, h);
      handles := (handles - {o})[h := x];
      if x.OwnsAlone() { mem := mem[x.ptr.alloc := mem[x.ptr.alloc].(owner := Sole(h))]; }
    }

    /** Reads bytes of a live allocation. */
    method Read(p: Ptr, n: nat) returns (data: seq<Byte>)
      requires p.alloc < |mem| && !mem[p.alloc].owner.Nobody? && p.off + n <= |mem[p.alloc].bytes|
      ensures data == Cells(Now(), p, n)
    {
      data := mem[p.alloc].bytes[p.off..p.off + n];
    }

    // ===== Bytes =====

    method FromStatic(data: seq<Byte>) returns (n: nat)
      requires Inv(Now())
      modifies this
      ensures Inv(Now()) && n == old(next) && Now() == SpawnStatic(old(Now()), data)
      ensures Seen() == old(Seen())[n := Frozen(data)] && IsBytes(n)
    {
      hide Inv, Views, Cells;
      SpawnStaticOk(Now(), data);
      n := next;
      mem := mem + [Alloc(data, Immortal)];
      handles := handles[n := Bytes(Ptr(|mem| - 1, 0), |data|, Static)];
      next := next + 1;
    }

    /** `Bytes::from_vec`: the vector `v` becomes a `Bytes`. */
    method BytesFromVec(v: nat)
      requires Inv(Now()) && IsVec(v)
      modifies this
      ensures Inv(Now()) && Seen() == old(Seen())[v := Frozen(old(Seen())[v].bytes)] && moved == old(moved)
      ensures var x := old(handles)[v];
              Now() == if x.len == 0 then AddStatic(Release(old(Now()), v), v, NOWHERE, 0)
                       else if x.cap == x.len then Reshape(old(Now()), v, Bytes(x.ptr, x.len, Unpromoted(0)))
                       else Promote(old(Now()), v, Bytes(x.ptr, x.len, Promoted(|old(blocks)|)))
      ensures handles == old(handles)[v := handles[v]] && IsBytes(v) && |mem| == |old(mem)| && next == old(next)
      ensures SameBytes(old(Now()), Now())
      ensures var x := old(handles)[v];
              if x.len == 0 then handles[v] == Bytes(NOWHERE, 0, Static)
              else
                && handles[v].ptr == x.ptr && handles[v].len == x.len && Unique(Now(), v)
                && handles[v].data == if x.cap == x.len then Unpromoted(0) else Promoted(|old(blocks)|)
    {
      hide Inv, Views, Cells;
      var x := handles[v];
      Facts(Now(), v);
      if x.len == 0 {
        Drop(v);
        AddStaticOk(Now(), v, NOWHERE, 0);
        handles := handles[v := Bytes(NOWHERE, 0, Static)];
      } else if x.cap == x.len {
        ReshapeOk(Now(), v, Bytes(x.ptr, x.len, Unpromoted(0)));
        handles := handles[v := Bytes(x.ptr, x.len, Unpromoted(0))];
      } else {
        PromoteOk(Now(), v, Bytes(x.ptr, x.len, Promoted(|blocks|)));
        mem := mem[x.ptr.alloc := mem[x.ptr.alloc].(owner := Counted(|blocks|))];
        handles := handles[v := Bytes(x.ptr, x.len, Promoted(|blocks|))];
        blocks := blocks + [Shared(1, x.ptr.alloc, x.cap)];
      }
    }

    /** `Bytes::is_unique`. */
    method IsUnique(h: nat) returns (unique: bool)
      requires Inv(Now()) && IsBytes(h)
      ensures unique <==> !handles[h].IsStatic() && Keepers(Now(), handles[h].ptr.alloc) == {h}
    {
      var x := handles[h];
      Facts(Now(), h);
      if x.data.Static? { return false; }
      UniqueIsAlone(Now(), h);
      match x.data
      case Unpromoted(_) => unique := true;
      case Promoted(b) => unique := blocks[b].count == 1;
    }

    /** `clone_inner` without a race, and `clone_inner_mut`. */
    method CloneInner(h: nat) returns (n: nat)
      requires Inv(Now()) && IsBytes(h)
      modifies this
      ensures Inv(Now()) && n == old(next) && n !in old(handles) && IsBytes(h) && IsBytes(n)
      ensures Now() == Share(old(Now()), h) && moved == old(moved)
      ensures handles[n] == handles[h]
      ensures handles[h].ptr == old(handles)[h].ptr && handles[h].len == old(handles)[h].len
      ensures !handles[h].OwnsAlone() && next == n + 1 && |mem| == |old(mem)|
      ensures handles == old(handles)[h := handles[h]][n := handles[n]]
      ensures Seen() == old(Seen())[n := old(Seen())[h]]
    {
      hide Inv, Views, Cells;
      var x := handles[h];
      Facts(Now(), h);
      Fresh(Now());
      if x.data.Static? {
        AddStaticOk(Now(), next, x.ptr, x.len);
      } else {
        var y := x.WithData(Promoted(BlockOf(Now(), x)));
        SplitOk(Now(), h, y, y);
        ShareIsSplit(Now(), h);
      }
      n := ShallowClone(h);
      assert Seen() == old(Seen())[n := old(Seen())[h]];
    }

    /** Narrows a `Bytes` that does not keep its allocation alone. */
    method SetWindow(h: nat, p: Ptr, len: nat, ghost d: nat, ghost e: nat)
      requires Inv(Now()) && IsBytes(h) && !handles[h].OwnsAlone()
      requires h in Seen() && |Seen()[h].bytes| == handles[h].len
      requires p == Ptr(handles[h].ptr.alloc, handles[h].ptr.off + d) && e == d + len && e <= handles[h].len
      modifies this`handles
      ensures Now() == Reshape(old(Now()), h, Bytes(p, len, old(handles)[h].data))
      ensures Inv(Now()) && Seen() == old(Seen())[h := Frozen(old(Seen())[h].bytes[d..e])]
    {
      hide Inv, Views, Cells;
      var x := handles[h];
      var y := Bytes(p, len, x.data);
      Facts(Now(), h);
      if x.data.Promoted? { NarrowClear(Now(), h, y); }
      ReshapeOk(Now(), h, y);
      Subview(Now(), h, y, d, e);
      handles := handles[h := Bytes(p, len, x.data)];
    }

    /** `slice`: panics (`None`) when the range is reversed or leaves the view. */
    method SliceBound(h: nat, lo: Bound, hi: Bound) returns (r: Option<nat>)
      requires Inv(Now()) && IsBytes(h)
      modifies this
      ensures Inv(Now()) && moved == old(moved) && h in old(Seen())
      ensures var x := old(handles)[h];
              var begin, end := RangeStart(lo), RangeEnd(hi, x.len);
              if begin <= end <= x.len then
                && r == Some(old(next)) && IsBytes(old(next)) && IsBytes(h)
                && old(next) !in old(handles)
                && Seen() == old(Seen())[old(next) := Frozen(old(Seen())[h].bytes[begin..end])]
                && handles[h].ptr == x.ptr && handles[h].len == x.len
                && handles[old(next)].ptr == Ptr(x.ptr.alloc, x.ptr.off + begin)
                && (if begin == end then
                      handles == old(handles)[old(next) := Bytes(handles[old(next)].ptr, 0, Static)]
                      && blocks == old(blocks)
                    else
                      handles == old(handles)[h := handles[h]][old(next) := handles[old(next)]]
                      && handles[old(next)].IsStatic() == handles[h].IsStatic() == x.IsStatic())
                && |mem| == |old(mem)|
              else
                r == None && Now() == old(Now())
      ensures var view := old(Seen())[h].bytes;
              && (r.None? <==> Reversed(lo, hi, |view|) || ToEnd(hi, |view|, |view|))
              && (r.Some? ==> r.value in Seen() && Seen()[r.value].bytes == Picked(view, lo, hi, |view|))
    {
      hide Inv, Views, Cells;
      var x := handles[h];
      var begin, end := RangeStart(lo), RangeEnd(hi, x.len);
      Facts(Now(), h);
      RangeIsPicked(Seen()[h].bytes, lo, hi);
      if end > x.len || begin > end { return None; }
      var n := SliceFromRaw(h, begin, end - begin);
      return n;
    }

    /** `slice_from_raw`: `delta` is the distance of the given address from `self.ptr`. */
    method SliceFromRaw(h: nat, delta: int, len: nat) returns (r: Option<nat>)
      requires Inv(Now()) && IsBytes(h)
      modifies this
      ensures Inv(Now()) && moved == old(moved)
      ensures var x := old(handles)[h];
              if 0 <= delta && delta + len <= x.len then
                && r == Some(old(next)) && IsBytes(old(next)) && IsBytes(h)
                && old(next) !in old(handles)
                && Seen() == old(Seen())[old(next) := Frozen(old(Seen())[h].bytes[delta..delta + len])]
                && handles[h].ptr == x.ptr && handles[h].len == x.len
                && handles[old(next)].ptr == Ptr(x.ptr.alloc, x.ptr.off + delta)
                && (if len == 0 then
                      handles == old(handles)[old(next) := Bytes(handles[old(next)].ptr, 0, Static)]
                      && blocks == old(blocks)
                    else
                      handles == old(handles)[h := handles[h]][old(next) := handles[old(next)]]
                      && handles[old(next)].IsStatic() == handles[h].IsStatic() == x.IsStatic())
                && |mem| == |old(mem)|
              else
                r == None && Now() == old(Now())
    {
      hide Inv, Views, Cells;
      var x := handles[h];
      if delta + len > x.len { return None; }
      if delta < 0 { return None; }
      Facts(Now(), h);
      ShareData(Now(), h);
      var p := Ptr(x.ptr.alloc, x.ptr.off + delta);
      if len == 0 {
        var n := NewEmptyWithPtr(p);
        assert old(Seen())[h].bytes[delta..delta] == [];
        return Some(n);
      }
      var n := CloneInner(h);
      SetWindow(n, p, len, delta, delta + len);
      r := Some(n);
      assert Seen() == old(Seen())[n := Frozen(old(Seen())[h].bytes[delta..delta + len])];
    }

    /** `Bytes::advance`; `false` stands for the panic. */
    method AdvanceBytes(h: nat, count: nat) returns (ok: bool)
      requires Inv(Now()) && IsBytes(h)
      modifies this`handles
      ensures Inv(Now()) && ok == (count <= old(handles)[h].len)
      ensures ok ==> handles == old(handles)[h := Advanced(old(handles)[h], count)]
                     && Seen() == old(Seen())[h := Frozen(old(Seen())[h].bytes[count..])]
      ensures ok ==> var x := old(handles)[h];
                     && IsBytes(h) && handles[h].ptr == Ptr(x.ptr.alloc, x.ptr.off + count)
                     && (!x.data.Unpromoted? ==> handles[h].data == x.data)
      ensures !ok ==> handles == old(handles)
    {
      hide Inv, Views, Cells;
      var x := handles[h];
      if count > x.len { return false; }
      Facts(Now(), h);
      var y := Advanced(x, count);
      if !x.OwnsAlone() && x.data.Promoted? { NarrowClear(Now(), h, y); }
      ReshapeOk(Now(), h, y);
      Subview(Now(), h, y, count, x.len);
      assert Seen()[h].bytes[count..x.len] == Seen()[h].bytes[count..];
      AdvanceUnchecked(h, count);
      ok := true;
    }

    /** A cut strictly inside the view: a second handle on the buffer, and both narrowed. */
    method CutBytes(h: nat, at: nat, to: bool) returns (n: nat)
      requires Inv(Now()) && IsBytes(h) && 0 < at < handles[h].len
      modifies this
      ensures Inv(Now()) && moved == old(moved) && |mem| == |old(mem)|
      ensures n == old(next) && n !in old(handles) && next == n + 1 && IsBytes(n) && IsBytes(h)
      ensures handles == old(handles)[h := handles[h]][n := handles[n]]
      ensures handles[h].ptr.alloc == handles[n].ptr.alloc == old(handles)[h].ptr.alloc
      ensures handles[h].IsStatic() == handles[n].IsStatic() == old(handles)[h].IsStatic()
      ensures var x := old(handles)[h];
              handles[if to then n else h].ptr == x.ptr
              && handles[if to then h else n].ptr == Ptr(x.ptr.alloc, x.ptr.off + at)
      ensures var view := old(Seen())[h].bytes;
              && at <= |view|
              && Seen() == if to then old(Seen())[h := Frozen(view[at..])][n := Frozen(view[..at])]
                           else old(Seen())[h := Frozen(view[..at])][n := Frozen(view[at..])]
    {
      hide Inv, Views, Cells, HandleOk, Share;
      var x := handles[h];
      Facts(Now(), h);
      ghost var view := Seen()[h].bytes;
      ShareData(Now(), h);
      n := CloneInner(h);
      if to {
        Narrow(n, h, x.ptr, at, view);
      } else {
        Narrow(h, n, x.ptr, at, view);
      }
    }

    /** Of two handles on one view, `front` keeps the first `at` bytes and `back` the rest. */
    method Narrow(front: nat, back: nat, p: Ptr, at: nat, ghost view: seq<Byte>)
      requires Inv(Now()) && IsBytes(front) && IsBytes(back) && front != back
      requires !handles[front].OwnsAlone() && handles[front].ptr == p && at <= handles[front].len
      requires at <= handles[back].len && front in Seen() && back in Seen()
      requires Seen()[front].bytes == view && Seen()[back].bytes == view
      modifies this`handles
      ensures Inv(Now()) && at <= |view|
      ensures Seen() == old(Seen())[front := Frozen(view[..at])][back := Frozen(view[at..])]
      ensures handles == old(handles)[front := Bytes(p, at, old(handles)[front].data)]
                                     [back := Advanced(old(handles)[back], at)]
    {
      hide Inv, Views, Cells;
      Facts(Now(), front);
      assert view[0..at] == view[..at];
      Swapped(Seen(), front, back, Frozen(view[..at]), Frozen(view[at..]));
      Swapped(handles, front, back, Bytes(p, at, handles[front].data), Advanced(handles[back], at));
      var ok := AdvanceBytes(back, at);
      SetWindow(front, p, at, 0, at);
    }

    method TrySplitOffBytes(h: nat, at: nat) returns (r: Option<nat>)
      requires Inv(Now()) && IsBytes(h)
      modifies this
      ensures Inv(Now()) && moved == old(moved) && |mem| == |old(mem)|
      ensures at > old(handles)[h].len ==> r == None && Now() == old(Now())
      ensures at <= old(handles)[h].len ==>
                && r == Some(old(next)) && IsBytes(old(next)) && IsBytes(h)
                && old(next) !in old(handles) && next == old(next) + 1
                && Seen() == old(Seen())[h := Frozen(old(Seen())[h].bytes[..at])]
                                        [old(next) := Frozen(old(Seen())[h].bytes[at..])]
      ensures at <= old(handles)[h].len ==>
                var x, n := old(handles)[h], old(next);
                if at == x.len then
                  handles == old(handles)[n := Bytes(Ptr(x.ptr.alloc, x.ptr.off + at), 0, Static)]
                  && blocks == old(blocks)
                else if at == 0 then
                  handles == old(handles)[n := x][h := Bytes(x.ptr, 0, Static)] && blocks == old(blocks)
                else
                  && h in handles && n in handles && handles == old(handles)[h := handles[h]][n := handles[n]]
                  && handles[h].ptr == x.ptr && handles[n].ptr == Ptr(x.ptr.alloc, x.ptr.off + at)
                  && handles[h].IsStatic() == handles[n].IsStatic() == x.IsStatic()
    {
      hide Inv, Views, Cells, HandleOk, BlockOk, AddStatic;
      var x := handles[h];
      Facts(Now(), h);
      ghost var view := Seen()[h].bytes;
      assert view[..x.len] == view && view[x.len..] == [] && view[..0] == [] && view[0..] == view;
      if at > x.len { return None; }
      if at == x.len {
        var n := NewEmptyWithPtr(Ptr(x.ptr.alloc, x.ptr.off + x.len));
        return Some(n);
      }
      if at == 0 {
        var n := ReplaceWithEmpty(h, x.ptr);
        return Some(n);
      }
      var n := CutBytes(h, at, false);
      r := Some(n);
    }

    method TrySplitToBytes(h: nat, at: nat) returns (r: Option<nat>)
      requires Inv(Now()) && IsBytes(h)
      modifies this
      ensures Inv(Now()) && moved == old(moved) && |mem| == |old(mem)|
      ensures at > old(handles)[h].len ==> r == None && Now() == old(Now())
      ensures at <= old(handles)[h].len ==>
                && r == Some(old(next)) && IsBytes(old(next)) && IsBytes(h)
                && old(next) !in old(handles) && next == old(next) + 1
                && Seen() == old(Seen())[h := Frozen(old(Seen())[h].bytes[at..])]
                                        [old(next) := Frozen(old(Seen())[h].bytes[..at])]
      ensures at == old(handles)[h].len ==>
                handles[old(next)] == old(handles)[h] && handles[h].IsStatic() && blocks == old(blocks)
      ensures at <= old(handles)[h].len ==>
                && handles == old(handles)[h := handles[h]][old(next) := handles[old(next)]]
                && handles[old(next)].ptr == old(handles)[h].ptr && handles[h].ptr.alloc == old(handles)[h].ptr.alloc
                && (handles[h].IsStatic() <==> old(handles)[h].IsStatic() || at == old(handles)[h].len)
                && (0 < at ==> (handles[old(next)].IsStatic() <==> old(handles)[h].IsStatic()))
      ensures at <= old(handles)[h].len ==>
                var x, n := old(handles)[h], old(next);
                if at == x.len then
                  handles == old(handles)[n := x][h := Bytes(Ptr(x.ptr.alloc, x.ptr.off + at), 0, Static)]
                  && blocks == old(blocks)
                else if at == 0 then
                  handles == old(handles)[n := Bytes(x.ptr, 0, Static)] && blocks == old(blocks)
                else
                  && handles[h].ptr == Ptr(x.ptr.alloc, x.ptr.off + at)
                  && handles[h].IsStatic() == handles[n].IsStatic() == x.IsStatic()
    {
      hide Inv, Views, Cells, HandleOk, BlockOk, AddStatic;
      var x := handles[h];
      Facts(Now(), h);
      ghost var view := Seen()[h].bytes;
      assert view[..x.len] == view && view[x.len..] == [] && view[..0] == [] && view[0..] == view;
      if at > x.len { return None; }
      if at == x.len {
        var n := ReplaceWithEmpty(h, Ptr(x.ptr.alloc, x.ptr.off + x.len));
        return Some(n);
      }
      if at == 0 {
        var n := NewEmptyWithPtr(x.ptr);
        return Some(n);
      }
      var n := CutBytes(h, at, true);
      r := Some(n);
    }

    method TruncateBytes(h: nat, len: nat)
      requires Inv(Now()) && IsBytes(h)
      modifies this
      ensures Inv(Now()) && IsBytes(h) && moved == old(moved)
      ensures Seen() == old(Seen())[h := Frozen(old(Seen())[h].bytes[..Min(len, old(handles)[h].len)])]
      ensures len >= old(handles)[h].len ==> Now() == old(Now())
      ensures handles == old(handles)[h := handles[h]] && handles[h].ptr == old(handles)[h].ptr && |mem| == |old(mem)|
      ensures len < old(handles)[h].len ==> (handles[h].IsStatic() <==> old(handles)[h].IsStatic() || len == 0)
    {
      hide Inv, Views, Cells, HandleOk, BlockOk;
      var x := handles[h];
      Facts(Now(), h);
      if len >= x.len {
        assert Seen()[h].bytes[..x.len] == Seen()[h].bytes;
        return;
      }
      if x.data.Static? {
        assert Seen()[h].bytes[0..len] == Seen()[h].bytes[..len];
        SetWindow(h, x.ptr, len, 0, len);
        return;
      }
      var tail := TrySplitOffBytes(h, len);
      Released(Now(), tail.value);
      Drop(tail.value);
      assert Seen() == old(Seen())[h := Frozen(old(Seen())[h].bytes[..len])];
    }

    method TruncateOffBytes(h: nat, off: nat)
      requires Inv(Now()) && IsBytes(h)
      modifies this
      ensures Inv(Now()) && IsBytes(h)
      ensures off <= old(handles)[h].len ==>
                Seen() == old(Seen())[h := Frozen(old(Seen())[h].bytes[..old(handles)[h].len - off])]
      ensures off > old(handles)[h].len ==> Now() == old(Now())
      ensures handles == old(handles)[h := handles[h]] && handles[h].ptr == old(handles)[h].ptr
    {
      hide Inv, Views, Cells;
      var len := handles[h].len;
      if off > len { return; }
      TruncateBytes(h, len - off);
    }

    method ClearBytes(h: nat)
      requires Inv(Now()) && IsBytes(h)
      modifies this
      ensures Inv(Now())
      ensures Now() == AddStatic(Release(old(Now()), h), h, old(handles)[h].ptr, 0)
      ensures Seen() == old(Seen())[h := Frozen([])]
    {
      hide Inv, Views, Cells;
      var p := handles[h].ptr;
      Facts(Now(), h);
      Drop(h);
      AddStaticOk(Now(), h, p, 0);
      handles := handles[h := Bytes(p, 0, Static)];
      assert Seen() == old(Seen())[h := Frozen([])];
    }

    /** `self.as_slice().to_vec()` once the handle itself has let go: some other handle, or the
        program text, keeps the bytes alive. */
    method CopyOut(h: nat)
      requires Inv(Now()) && IsBytes(h) && !Unique(Now(), h)
      modifies this
      ensures Inv(Now()) && Seen() == old(Seen())[h := Owned(old(Seen())[h].bytes)]
      ensures IsVec(h) && handles[h].ptr == Ptr(|old(mem)|, 0) && |mem| == |old(mem)| + 1
      ensures next == old(next) + 1 && handles[h].len == old(handles)[h].len
    {
      hide Inv, Views, Cells, Unique, Release;
      var x := handles[h];
      Facts(Now(), h);
      LetGo(Now(), h);
      Drop(h);
      var data := [];
      if x.len > 0 { data := Read(x.ptr, x.len); }
      Fresh(Now());
      var v := ToVec(data);
      MoveIn(h, v);
      assert Seen() == old(Seen())[h := Owned(old(Seen())[h].bytes)];
    }

    /** `into_vec`: reuses the allocation exactly when the handle is unique. */
    method IntoVec(h: nat)
      requires Inv(Now()) && IsBytes(h)
      modifies this
      ensures Inv(Now()) && Seen() == old(Seen())[h := Owned(old(Seen())[h].bytes)] && IsVec(h)
      ensures Unique(old(Now()), h) ==>
                && handles[h].ptr == Ptr(old(handles)[h].ptr.alloc, 0) && |mem| == |old(mem)| && frees == old(frees)
                && moved == old(moved) + if old(handles)[h].ptr.off == 0 then 0 else old(handles)[h].len
      ensures !Unique(old(Now()), h) ==>
                handles[h].ptr == Ptr(|old(mem)|, 0) && |mem| == |old(mem)| + 1
    {
      hide Inv, Views, Cells;
      var x := handles[h];
      Facts(Now(), h);
      if x.data.Static? {
        CopyOut(h);
        return;
      }
      var base := Ptr(x.ptr.alloc, 0);
      var advanced, cap;
      match x.data {
        case Unpromoted(offset) =>
          OriginalBufferIsWhole(Now(), h);
          advanced, cap := offset, OriginalBuffer(x).2;
          ReshapeOk(Now(), h, Vec(base, cap, cap));
          handles := handles[h := Vec(base, cap, cap)];
        case Promoted(b) =>
          if blocks[b].count != 1 {
            CopyOut(h);
            return;
          }
          advanced, cap := x.ptr.off, blocks[b].cap;
          DemoteOk(Now(), h, b, Vec(base, cap, cap));
          mem := mem[base.alloc := mem[base.alloc].(owner := Sole(h))];
          blocks := blocks[b := blocks[b].(count := 0)];
          handles := handles[h := Vec(base, cap, cap)];
      }
      SameCells(old(Now()), Now(), x.ptr, x.len);
      MoveBackward(h, x.ptr, advanced, x.len, old(Seen())[h].bytes);
      assert Seen() == old(Seen())[h := Owned(old(Seen())[h].bytes)];
    }

    /** Closes a head gap of `advanced` bytes in a vector and sets its length. */
    method MoveBackward(h: nat, ptr: Ptr, advanced: nat, len: nat, ghost view: seq<Byte>)
      requires Inv(Now()) && IsVec(h) && ptr == Ptr(handles[h].ptr.alloc, advanced)
      requires handles[h].len == handles[h].cap && advanced + len <= handles[h].cap
      requires Cells(Now(), ptr, len) == view && |view| == len
      modifies this
      ensures Inv(Now()) && Seen() == old(Seen())[h := Owned(view)]
      ensures IsVec(h) && handles[h].ptr == old(handles)[h].ptr && |mem| == |old(mem)| && frees == old(frees)
      ensures moved == old(moved) + if advanced == 0 then 0 else len
    {
      hide Inv, Views, Cells;
      Facts(Now(), h);
      var base, cap := handles[h].ptr, handles[h].cap;
      if advanced != 0 {
        PokedCells(Now(), base, view);
        if advanced >= len {
          CopyNonoverlapping(h, ptr, base, len);
        } else {
          Copy(h, ptr, base, len);
        }
        Facts(Now(), h);
      }
      ReshapeOk(Now(), h, Vec(base, len, cap));
      handles := handles[h := Vec(base, len, cap)];
      assert Seen() == old(Seen())[h := Owned(view)];
    }

    /** `into_mut`: a unique handle keeps pointer and allocation and gains the tail room. */
    method IntoMut(h: nat)
      requires Inv(Now()) && IsBytes(h)
      modifies this
      ensures Inv(Now()) && Seen() == old(Seen())[h := Mutable(old(Seen())[h].bytes)] && IsMut(h)
      ensures handles[h].data.Unpromoted? && handles[h].len == old(handles)[h].len
      ensures Unique(old(Now()), h) ==>
                && handles[h].ptr == old(handles)[h].ptr && |mem| == |old(mem)| && moved == old(moved)
                && handles[h].ptr.alloc < |old(mem)|
                && handles[h].ptr.off + handles[h].cap == |old(mem)[handles[h].ptr.alloc].bytes|
      ensures !Unique(old(Now()), h) ==>
                handles[h].ptr == Ptr(|old(mem)|, 0) && |mem| == |old(mem)| + 1
    {
      hide Inv, Views, Cells;
      var x := handles[h];
      Facts(Now(), h);
      if x.data.Static? {
        CopyOut(h);
        MutFromVec(h);
        return;
      }
      match x.data {
        case Unpromoted(offset) =>
          OriginalBufferIsWhole(Now(), h);
          var vec := OriginalBuffer(x);
          var y := BytesMut(vec.0, vec.1, vec.2, Unpromoted(0));
          ReshapeOk(Now(), h, Advanced(y, offset));
          handles := handles[h := y];
          AdvanceUnchecked(h, offset);
          assert handles == old(handles)[h := Advanced(y, offset)];
        case Promoted(b) =>
          if blocks[b].count != 1 {
            CopyOut(h);
            MutFromVec(h);
            return;
          }
          TakeOver(h, b);
      }
    }

    /** The unique handle of a shared buffer takes it over where it stands. */
    method TakeOver(h: nat, b: nat)
      requires Inv(Now()) && IsBytes(h) && handles[h].data == Promoted(b) && b < |blocks| && blocks[b].count == 1
      modifies this
      ensures Inv(Now()) && Seen() == old(Seen())[h := Mutable(old(Seen())[h].bytes)] && IsMut(h)
      ensures handles[h].data.Unpromoted? && handles[h].len == old(handles)[h].len && moved == old(moved)
      ensures handles[h].ptr == old(handles)[h].ptr && |mem| == |old(mem)| && handles[h].ptr.alloc < |old(mem)|
      ensures handles[h].ptr.off + handles[h].cap == |old(mem)[handles[h].ptr.alloc].bytes|
    {
      hide Inv, Views, Cells;
      var x := handles[h];
      Facts(Now(), h);
      var base := Ptr(x.ptr.alloc, 0);
      var cap := blocks[b].cap;
      var y := BytesMut(base, cap, cap, Unpromoted(0));
      DemoteOk(Now(), h, b, Advanced(y, x.ptr.off).WithLen(x.len));
      mem := mem[base.alloc := mem[base.alloc].(owner := Sole(h))];
      blocks := blocks[b := blocks[b].(count := 0)];
      handles := handles[h := y];
      AdvanceUnchecked(h, x.ptr.off);
      handles := handles[h := handles[h].WithLen(x.len)];
      assert handles == old(handles)[h := Advanced(y, x.ptr.off).WithLen(x.len)];
    }

    // ===== BytesMut =====

    /** `BytesMut::from_vec`. */
    method MutFromVec(v: nat)
      requires Inv(Now()) && IsVec(v)
      modifies this`handles
      ensures var x := old(handles)[v];
              Now() == Reshape(old(Now()), v, BytesMut(x.ptr, x.len, x.cap, Unpromoted(0)))
      ensures Inv(Now()) && Seen() == old(Seen())[v := Mutable(old(Seen())[v].bytes)]
    {
      hide Inv, Views, Cells;
      var x := handles[v];
      Facts(Now(), v);
      ReshapeOk(Now(), v, BytesMut(x.ptr, x.len, x.cap, Unpromoted(0)));
      handles := handles[v := BytesMut(x.ptr, x.len, x.cap, Unpromoted(0))];
    }

    /** `BytesMut::with_capacity`. */
    method MutWithCapacity(n: nat) returns (h: nat)
      requires Inv(Now())
      modifies this
      ensures Inv(Now()) && h == old(next) && h !in old(handles) && next == h + 1 && IsMut(h)
      ensures handles == old(handles)[h := handles[h]] && moved == old(moved)
      ensures handles[h].len == 0 && handles[h].cap >= n && handles[h].data == Unpromoted(0)
      ensures handles[h].ptr == Ptr(|old(mem)|, 0) && |mem| == |old(mem)| + 1
      ensures Seen() == old(Seen())[h := Mutable([])]
    {
      hide Inv, Views, Cells;
      h := WithCapacity(n);
      MutFromVec(h);
    }

    /** `BytesMut::copy_from_slice`, and `clone` of another `BytesMut`. */
    method MutCopyFromSlice(data: seq<Byte>) returns (h: nat)
      requires Inv(Now())
      modifies this
      ensures Inv(Now()) && h == old(next) && h !in old(handles) && IsMut(h)
      ensures handles[h].data == Unpromoted(0) && handles[h].len == |data| && moved == old(moved)
      ensures handles == old(handles)[h := handles[h]] && next == h + 1
      ensures handles[h].ptr == Ptr(|old(mem)|, 0) && |mem| == |old(mem)| + 1 && |data| <= handles[h].cap
      ensures blocks == old(blocks)
      ensures SameSizes(old(Now()), Now())
      ensures Seen() == old(Seen())[h := Mutable(data)]
    {
      hide Inv, Views, Cells;
      h := ToVec(data);
      MutFromVec(h);
    }

    /** `Buf::advance` of a `BytesMut`; `false` stands for the panic. */
    method AdvanceMut(h: nat, count: nat) returns (ok: bool)
      requires Inv(Now()) && IsMut(h)
      modifies this`handles
      ensures Inv(Now()) && ok == (count <= old(handles)[h].len)
      ensures ok ==> handles == old(handles)[h := Advanced(old(handles)[h], count)]
                     && Seen() == old(Seen())[h := Mutable(old(Seen())[h].bytes[count..])]
      ensures ok ==> var x := old(handles)[h];
                     && IsMut(h) && handles[h].ptr == Ptr(x.ptr.alloc, x.ptr.off + count)
                     && handles[h].cap + count == x.cap && (!x.data.Unpromoted? ==> handles[h].data == x.data)
      ensures !ok ==> handles == old(handles)
    {
      hide Inv, Views, Cells;
      var x := handles[h];
      if count > x.len { return false; }
      Facts(Now(), h);
      var y := Advanced(x, count);
      if x.data.Promoted? { NarrowClear(Now(), h, y); }
      ReshapeOk(Now(), h, y);
      Subview(Now(), h, y, count, x.len);
      assert Seen()[h].bytes[count..x.len] == Seen()[h].bytes[count..];
      AdvanceUnchecked(h, count);
      ok := true;
    }

    /** `BytesMut::truncate`; `clear` is `truncate(0)`. */
    method TruncateMut(h: nat, len: nat)
      requires Inv(Now()) && IsMut(h)
      modifies this`handles
      ensures Inv(Now()) && Seen() == old(Seen())[h := Mutable(old(Seen())[h].bytes[..Min(len, old(handles)[h].len)])]
      ensures handles == old(handles)[h := old(handles)[h].WithLen(Min(len, old(handles)[h].len))]
    {
      hide Inv, Views, Cells;
      var x := handles[h];
      Facts(Now(), h);
      if len < x.len {
        var y := x.WithLen(len);
        if x.data.Promoted? { NarrowClear(Now(), h, y); }
        ReshapeOk(Now(), h, y);
        Subview(Now(), h, y, 0, len);
        assert Seen()[h].bytes[0..len] == Seen()[h].bytes[..len];
        handles := handles[h := y];
      } else {
        assert Seen()[h].bytes[..x.len] == Seen()[h].bytes;
      }
    }

    /** `freeze`: the view keeps its place, unless nothing was ever stored. */
    method Freeze(h: nat)
      requires Inv(Now()) && IsMut(h)
      modifies this
      ensures Inv(Now()) && Seen() == old(Seen())[h := Frozen(old(Seen())[h].bytes)] && IsBytes(h)
      ensures |mem| == |old(mem)| && moved == old(moved) && next == old(next)
      ensures SameBytes(old(Now()), Now())
      ensures handles == old(handles)[h := handles[h]]
      ensures var x := old(handles)[h];
              if x.data.Promoted? then Now() == Reshape(old(Now()), h, Bytes(x.ptr, x.len, x.data))
              else if x.ptr.off + x.len == 0 then handles[h] == Bytes(NOWHERE, 0, Static)
              else
                && handles[h].ptr == x.ptr && handles[h].len == x.len && Unique(Now(), h)
                && (handles[h].data.Unpromoted? <==> x.len == x.cap)
    {
      hide Inv, Views, Cells;
      var x := handles[h];
      Facts(Now(), h);
      match x.data {
        case Unpromoted(offset) =>
          FreezeSole(h, offset);
        case Promoted(b) =>
          NarrowClear(Now(), h, Bytes(x.ptr, x.len, x.data));
          ReshapeOk(Now(), h, Bytes(x.ptr, x.len, x.data));
          handles := handles[h := Bytes(x.ptr, x.len, x.data)];
      }
    }

    /** The vector is rebuilt, converted, and moved forward again. */
    method FreezeSole(h: nat, offset: nat)
      requires Inv(Now()) && IsMut(h) && handles[h].data == Unpromoted(offset)
      modifies this
      ensures Inv(Now()) && Seen() == old(Seen())[h := Frozen(old(Seen())[h].bytes)] && IsBytes(h)
      ensures |mem| == |old(mem)| && moved == old(moved) && next == old(next)
      ensures SameBytes(old(Now()), Now())
      ensures handles == old(handles)[h := handles[h]]
      ensures var x := old(handles)[h];
              if x.ptr.off + x.len == 0 then handles[h] == Bytes(NOWHERE, 0, Static)
              else
                && handles[h].ptr == x.ptr && handles[h].len == x.len && Unique(Now(), h)
                && (handles[h].data.Unpromoted? <==> x.len == x.cap)
    {
      hide Inv, Views, Cells, Promote, Release, AddStatic, SameBytes, BlockOk, StaticOk;
      var x := handles[h];
      Facts(Now(), h);
      OriginalBufferIsWhole(Now(), h);
      var vec := OriginalBuffer(x);
      var v := Vec(vec.0, vec.1, vec.2);
      ReshapeOk(Now(), h, v);
      handles := handles[h := v];
      Facts(Now(), h);
      SameMemory(old(Now()), Now());
      CellsJoinAt(offset, x.len, x.ptr.alloc);
      SameCells(old(Now()), Now(), x.ptr, x.len);
      ghost var mid := Now();
      BytesFromVec(h);
      SameSame(old(Now()), mid, Now());
      mid := Now();
      var ok := AdvanceBytes(h, offset);
      SameMemory(mid, Now());
      SameSame(old(Now()), mid, Now());
    }

    lemma CellsJoinAt(offset: nat, len: nat, a: nat)
      requires a < |mem| && offset + len <= |mem[a].bytes|
      ensures Cells(Now(), Ptr(a, 0), len + offset)[offset..] == Cells(Now(), Ptr(a, offset), len)
    {
    }

    /** Moves the view to a fresh, larger allocation and lets go of the old one. */
    method Reallocate(h: nat, capacity: nat)
      requires Inv(Now()) && IsMut(h) && handles[h].len <= capacity
      modifies this
      ensures Inv(Now()) && Seen() == old(Seen()) && |mem| == |old(mem)| + 1 && IsMut(h)
      ensures handles == old(handles)[h := handles[h]] && next >= old(next)
      ensures handles[h].ptr == Ptr(|old(mem)|, 0) && handles[h].data == Unpromoted(0)
      ensures handles[h].len == old(handles)[h].len && handles[h].cap >= capacity
      ensures moved == old(moved) + old(handles)[h].len
    {
      hide Inv, Views, Cells, SameBytes;
      var x := handles[h];
      Facts(Now(), h);
      var v := CopyToNew(h, capacity);
      ghost var copied := Now();
      var newPtr, cap := handles[v].ptr, handles[v].cap;
      Assign(h, v);
      SameCells(copied, Now(), newPtr, x.len);
      Facts(Now(), h);
      ReshapeOk(Now(), h, BytesMut(newPtr, x.len, cap, Unpromoted(0)));
      handles := handles[h := BytesMut(newPtr, x.len, cap, Unpromoted(0))];
      assert handles == old(handles)[h := handles[h]];
    }

    /** A fresh vector whose first bytes are the view of `h`. */
    method CopyToNew(h: nat, capacity: nat) returns (v: nat)
      requires Inv(Now()) && IsMut(h) && handles[h].len <= capacity
      modifies this
      ensures Inv(Now()) && v == old(next) && v !in old(handles) && |mem| == |old(mem)| + 1 && next == v + 1
      ensures IsVec(v) && handles == old(handles)[v := handles[v]]
      ensures handles[v].ptr == Ptr(|old(mem)|, 0) && handles[v].len == 0 && handles[v].cap >= capacity
      ensures Seen() == old(Seen())[v := Owned([])]
      ensures Cells(Now(), handles[v].ptr, handles[h].len) == old(Seen())[h].bytes
      ensures moved == old(moved) + handles[h].len
    {
      hide Inv, Views, Cells;
      var x := handles[h];
      Facts(Now(), h);
      v := WithCapacity(capacity);
      Facts(Now(), v);
      var newPtr := handles[v].ptr;
      SameCells(old(Now()), Now(), x.ptr, x.len);
      PokedCells(Now(), newPtr, Cells(Now(), x.ptr, x.len));
      CopyNonoverlapping(v, x.ptr, newPtr, x.len);
      Facts(Now(), v);
      assert Seen()[v].bytes == [];
    }

    /** Slides the view back to the base of an allocation that `h` has to itself. */
    method SlideBack(h: nat, offset: nat)
      requires Inv(Now()) && IsMut(h) && Unique(Now(), h)
      requires offset == handles[h].ptr.off && offset >= handles[h].len
      modifies this
      ensures Inv(Now()) && Seen() == old(Seen()) && |mem| == |old(mem)|
      ensures blocks == old(blocks) && frees == old(frees) && next == old(next)
      ensures var x := old(handles)[h];
              handles == old(handles)[h := BytesMut(Ptr(x.ptr.alloc, 0), x.len, x.cap + offset,
                                                    if x.data.Unpromoted? then Unpromoted(0) else x.data)]
      ensures moved == old(moved) + old(handles)[h].len
    {
      hide Inv, Views, Cells;
      var x := handles[h];
      Facts(Now(), h);
      var base := Ptr(x.ptr.alloc, 0);
      PokedCells(Now(), base, Seen()[h].bytes);
      CopyNonoverlapping(h, x.ptr, base, x.len);
      var y := BytesMut(base, x.len, x.cap + offset, if x.data.Unpromoted? then Unpromoted(0) else x.data);
      Facts(Now(), h);
      if x.data.Promoted? { UniqueClear(Now(), h, y, x.data.block); }
      ReshapeOk(Now(), h, y);
      handles := handles[h := y];
      assert Seen() == old(Seen());
    }

    /** The part of `reserve_inner` that runs when the control block counts one handle. */
    method ReclaimShared(h: nat, b: nat, additional: nat) returns (ok: bool)
      requires Inv(Now()) && IsMut(h) && handles[h].data == Promoted(b) && additional > 0
      requires b < |blocks| && blocks[b].count == 1
      modifies this
      ensures Inv(Now()) && Seen() == old(Seen()) && IsMut(h)
      ensures handles == old(handles)[h := handles[h]] && handles[h].len == old(handles)[h].len
      ensures handles[h].data == Promoted(b) && handles[h].ptr.alloc == old(handles)[h].ptr.alloc
      ensures handles[h].cap >= old(handles)[h].cap
      ensures blocks == old(blocks) && frees == old(frees) && |mem| == |old(mem)| && next == old(next)
      ensures ok <==> Room(old(Now()), h, additional)
      ensures ok ==> handles[h].cap - handles[h].len >= additional
      ensures ok ==> TookRoom(old(Now()), old(handles)[h], handles[h], additional)
      ensures !ok ==> mem == old(mem) && handles[h].ptr == old(handles)[h].ptr
      ensures !ok ==> handles[h].ptr.off + handles[h].cap == old(blocks)[b].cap
    {
      hide Inv, Views, Cells, Keepers;
      var x := handles[h];
      Facts(Now(), h);
      RoomRecorded(Now(), h, additional);
      hide Room;
      var offset := x.ptr.off;
      var tail := blocks[b].cap - (x.cap + offset);
      GrowTail(h, b, tail);
      if tail >= additional { return true; }
      var remaining := offset + (handles[h].cap - x.len);
      if remaining >= additional && offset >= x.len {
        SlideBack(h, offset);
        return true;
      }
      ok := false;
    }

    /** `reserve_inner`. */
    method ReserveInner(h: nat, additional: nat, allocate: bool) returns (ok: bool)
      requires Inv(Now()) && IsMut(h)
      modifies this
      ensures Inv(Now()) && Seen() == old(Seen()) && IsMut(h)
      ensures handles == old(handles)[h := handles[h]] && handles[h].len == old(handles)[h].len
      ensures ok <==> allocate || additional == 0 || Room(old(Now()), h, additional)
      ensures additional == 0 ==> Now() == old(Now()) && moved == old(moved)
      ensures additional > 0 && Room(old(Now()), h, additional) ==>
                TookRoom(old(Now()), old(handles)[h], handles[h], additional)
      ensures ok && additional > 0 ==> Unique(Now(), h)
      ensures ok ==> handles[h].cap - handles[h].len >= additional
      ensures !allocate ==> blocks == old(blocks) && frees == old(frees) && |mem| == |old(mem)|
      ensures !ok ==> mem == old(mem) && handles[h].ptr == old(handles)[h].ptr
      ensures !ok ==> handles[h].data == old(handles)[h].data
      ensures |mem| == |old(mem)|
                       + if allocate && additional > 0 && !Room(old(Now()), h, additional) then 1 else 0
      ensures |mem| > |old(mem)| ==>
                && handles[h].ptr == Ptr(|old(mem)|, 0) && handles[h].data == Unpromoted(0)
                && handles[h].cap >= Max(old(handles)[h].cap * 2, old(handles)[h].len + additional)
                && (Keepers(old(Now()), old(handles)[h].ptr.alloc) == {h}
                    && old(handles)[h].ptr.alloc < |old(mem)| ==>
                      handles[h].cap >= 2 * (|old(mem)[old(handles)[h].ptr.alloc].bytes| - old(handles)[h].ptr.off))
      ensures handles[h].cap >= old(handles)[h].cap && next >= old(next)
      ensures old(handles)[h].data.Unpromoted? ==>
                if additional == 0 || !ok then Now() == old(Now()) && moved == old(moved)
                else
                  && handles[h].data == Unpromoted(0) && handles[h].ptr.off == 0
                  && moved == old(moved) + old(handles)[h].len
                  && var x := old(handles)[h];
                     (x.ptr.off >= x.len && handles[h].cap == x.ptr.off + x.cap)
                     || handles[h].cap >= Max(x.cap * 2, x.len + additional)
      ensures !allocate ==> handles[h].ptr.alloc == old(handles)[h].ptr.alloc
      ensures old(handles)[h].data.Promoted? && !allocate ==> handles[h].data == old(handles)[h].data
    {
      hide Inv, Views, Cells, Keepers;
      var x := handles[h];
      Facts(Now(), h);
      if additional == 0 { return true; }
      RoomRecorded(Now(), h, additional);
      UniqueIsAlone(Now(), h);
      hide Room;
      match x.data {
        case Unpromoted(offset) =>
          var remaining := offset + (x.cap - x.len);
          if remaining >= additional && offset >= x.len {
            SlideBack(h, offset);
            return true;
          }
          if !allocate { return false; }
          Reallocate(h, Max(x.cap * 2, x.len + additional));
          return true;
        case Promoted(b) =>
          if blocks[b].count == 1 {
            var reclaimed := ReclaimShared(h, b, additional);
            if reclaimed { return true; }
          }
          if !allocate { return false; }
          Reallocate(h, Max(handles[h].cap * 2, x.len + additional));
          return true;
      }
    }

    /** Takes over the unclaimed tail of a buffer that nothing else uses. */
    method GrowTail(h: nat, b: nat, tail: nat)
      requires Inv(Now()) && IsMut(h) && handles[h].data == Promoted(b) && b < |blocks| && blocks[b].count == 1
      requires handles[h].ptr.off + handles[h].cap + tail == blocks[b].cap
      modifies this`handles
      ensures Inv(Now()) && Seen() == old(Seen())
      ensures var x := old(handles)[h];
              handles == old(handles)[h := BytesMut(x.ptr, x.len, x.cap + tail, x.data)]
    {
      hide Inv, Views, Cells;
      var x := handles[h];
      Facts(Now(), h);
      var y := BytesMut(x.ptr, x.len, x.cap + tail, x.data);
      UniqueClear(Now(), h, y, b);
      ReshapeOk(Now(), h, y);
      handles := handles[h := y];
      assert Seen() == old(Seen());
    }

    /** `reserve`: afterwards there is room, and nothing that anyone sees has changed. */
    method Reserve(h: nat, additional: nat)
      requires Inv(Now()) && IsMut(h)
      modifies this
      ensures Inv(Now()) && Seen() == old(Seen()) && IsMut(h)
      ensures handles == old(handles)[h := handles[h]] && handles[h].len == old(handles)[h].len
      ensures handles[h].cap - handles[h].len >= additional && next >= old(next)
      ensures |old(mem)| <= |mem| <= |old(mem)| + 1
      ensures additional > old(handles)[h].cap - old(handles)[h].len ==>
                (|mem| > |old(mem)| <==> !Room(old(Now()), h, additional))
      ensures old(handles)[h].cap - old(handles)[h].len < additional ==> Unique(Now(), h)
      ensures old(handles)[h].cap - old(handles)[h].len < additional && |mem| == |old(mem)| ==>
                var x, y := old(handles)[h], handles[h];
                && x.ptr.alloc < |old(mem)|
                && var whole := |old(mem)[x.ptr.alloc].bytes|;
                   && y.ptr == (if whole - (x.ptr.off + x.cap) >= additional then x.ptr else Ptr(x.ptr.alloc, 0))
                   && y.ptr.off + y.cap == whole
      ensures var x := old(handles)[h];
              && x.ptr.alloc < |old(mem)|
              && var whole := |old(mem)[x.ptr.alloc].bytes|;
                 |mem| > |old(mem)| <==>
                   && additional > x.cap - x.len
                   && !(Keepers(old(Now()), x.ptr.alloc) == {h}
                        && (whole - (x.ptr.off + x.cap) >= additional
                            || (x.ptr.off >= x.len && whole - x.len >= additional)))
      ensures old(handles)[h].cap - old(handles)[h].len >= additional ==> Now() == old(Now())
      ensures old(handles)[h].data.Unpromoted? ==>
                && handles[h].data.Unpromoted?
                && var x, y := old(handles)[h], handles[h];
                   if additional <= x.cap - x.len then y == x && moved == old(moved)
                   else moved == old(moved) + x.len && y.ptr.off == 0
                        && ((x.ptr.off >= x.len && y.cap == x.ptr.off + x.cap)
                            || y.cap >= Max(x.cap * 2, x.len + additional))
    {
      hide Inv, Views, Cells, Keepers;
      Facts(Now(), h);
      if handles[h].cap - handles[h].len >= additional { return; }
      var ok := ReserveInner(h, additional, true);
    }

    /** `try_reclaim`: no allocation and no deallocation, whatever the answer. */
    method TryReclaim(h: nat, additional: nat) returns (ok: bool)
      requires Inv(Now()) && IsMut(h)
      modifies this
      ensures Inv(Now()) && Seen() == old(Seen()) && IsMut(h)
      ensures handles == old(handles)[h := handles[h]] && handles[h].len == old(handles)[h].len
      ensures ok ==> handles[h].cap - handles[h].len >= additional
      ensures blocks == old(blocks) && frees == old(frees) && |mem| == |old(mem)|
      ensures !ok ==> mem == old(mem) && handles[h].ptr == old(handles)[h].ptr
      ensures ok && old(handles)[h].cap - old(handles)[h].len < additional ==>
                var x, y := old(handles)[h], handles[h];
                && x.ptr.alloc < |old(mem)|
                && var whole := |old(mem)[x.ptr.alloc].bytes|;
                   && y.ptr == (if whole - (x.ptr.off + x.cap) >= additional then x.ptr else Ptr(x.ptr.alloc, 0))
                   && y.ptr.off + y.cap == whole
      ensures var x := old(handles)[h];
              && x.ptr.alloc < |old(mem)|
              && var whole := |old(mem)[x.ptr.alloc].bytes|;
                 ok <==>
                   || additional <= x.cap - x.len
                   || (Keepers(old(Now()), x.ptr.alloc) == {h}
                       && (whole - (x.ptr.off + x.cap) >= additional
                           || (x.ptr.off >= x.len && whole - x.len >= additional)))
    {
      hide Inv, Views, Cells, Keepers;
      Facts(Now(), h);
      if handles[h].cap - handles[h].len >= additional { return true; }
      ok := ReserveInner(h, additional, false);
    }

    /** `try_reclaim_full`: a positive answer means that the window is the whole allocation. */
    method TryReclaimFull(h: nat) returns (ok: bool)
      requires Inv(Now()) && IsMut(h)
      modifies this
      ensures Inv(Now()) && Seen() == old(Seen()) && IsMut(h)
      ensures handles == old(handles)[h := handles[h]] && handles[h].len == old(handles)[h].len
      ensures blocks == old(blocks) && frees == old(frees) && |mem| == |old(mem)|
      ensures !ok ==> mem == old(mem) && handles[h].ptr == old(handles)[h].ptr
      ensures ok ==> handles[h].ptr.off == 0 && handles[h].ptr.alloc == old(handles)[h].ptr.alloc < |mem|
                     && handles[h].cap == |mem[handles[h].ptr.alloc].bytes|
      ensures var x := old(handles)[h];
              && x.ptr.alloc < |old(mem)|
              && (ok <==> x.len == |old(mem)[x.ptr.alloc].bytes|
                          || (Keepers(old(Now()), x.ptr.alloc) == {h}
                              && (x.ptr.off >= x.len || (x.ptr.off == 0 && x.len == x.cap))))
    {
      hide Inv, Views, Cells, Keepers;
      var x := handles[h];
      Facts(Now(), h);
      var additional := match x.data
        case Unpromoted(offset) => offset + (x.cap - x.len)
        case Promoted(b) => blocks[b].cap - x.len
        case Static => 0;
      ok := ReserveInner(h, additional, false);
      Facts(Now(), h);
    }

    /** The bytes behind the view are stored and the length moves over them. */
    method Append(h: nat, data: seq<Byte>)
      requires Inv(Now()) && IsMut(h) && handles[h].cap - handles[h].len >= |data|
      modifies this
      ensures Inv(Now()) && Seen() == old(Seen())[h := Mutable(old(Seen())[h].bytes + data)] && IsMut(h)
      ensures handles == old(handles)[h := old(handles)[h].WithLen(old(handles)[h].len + |data|)]
      ensures blocks == old(blocks) && |mem| == |old(mem)| && next == old(next) && moved == old(moved)
      ensures SameSizes(old(Now()), Now())
    {
      hide Inv, Views, Cells;
      var x := handles[h];
      Facts(Now(), h);
      AppendOk(Now(), h, data);
      Write(h, Ptr(x.ptr.alloc, x.ptr.off + x.len), data);
      handles := handles[h := x.WithLen(x.len + |data|)];
    }

    /** `extend_from_slice`: the view grows by `data`, and growth is paid for by the potential. */
    method ExtendFromSlice(h: nat, data: seq<Byte>)
      requires Inv(Now()) && IsMut(h)
      modifies this
      ensures Inv(Now()) && Seen() == old(Seen())[h := Mutable(old(Seen())[h].bytes + data)] && IsMut(h)
      ensures handles == old(handles)[h := handles[h]] && next >= old(next)
      ensures var x := old(handles)[h];
              if x.cap - x.len >= |data| then
                handles[h] == x.WithLen(x.len + |data|) && blocks == old(blocks) && |mem| == |old(mem)|
              else Unique(Now(), h)
      ensures |mem| == |old(mem)| + if |data| <= old(handles)[h].cap - old(handles)[h].len
                                       || Room(old(Now()), h, |data|) then 0 else 1
      ensures old(handles)[h].data.Unpromoted? ==>
                && handles[h].data.Unpromoted?
                && moved + Potential(handles[h]) <= old(moved) + Potential(old(handles)[h]) + 3 * |data|
    {
      hide Inv, Views, Cells, Keepers, Potential;
      Facts(Now(), h);
      Reserve(h, |data|);
      Append(h, data);
      if old(handles)[h].data.Unpromoted? {
        GrowthPays(old(handles)[h], handles[h], |data|, moved - old(moved));
      }
    }

    /** A write through `as_mut_slice`: bytes of the view, in place.  `false` is the panic. */
    method Overwrite(h: nat, at: nat, data: seq<Byte>) returns (ok: bool)
      requires Inv(Now()) && IsMut(h)
      modifies this
      ensures Inv(Now()) && moved == old(moved) && handles == old(handles)
      ensures ok == (at + |data| <= |old(Seen())[h].bytes|)
      ensures !ok ==> Now() == old(Now())
      ensures ok ==> var view := old(Seen())[h].bytes;
                     Seen() == old(Seen())[h := Mutable(view[..at] + data + view[at + |data|..])]
    {
      hide Inv, Views, Cells;
      var x := handles[h];
      Facts(Now(), h);
      if at + |data| > x.len { return false; }
      var place := Ptr(x.ptr.alloc, x.ptr.off + at);
      InsideCells(Now(), x.ptr, x.len, data, at, place, Ptr(x.ptr.alloc, x.ptr.off + at + |data|));
      Write(h, place, data);
      ok := true;
    }

    /** `try_split_to`: the first `at` bytes leave in a handle without spare room. */
    method TrySplitTo(h: nat, at: nat) returns (r: Option<nat>)
      requires Inv(Now()) && IsMut(h)
      modifies this
      ensures Inv(Now()) && moved == old(moved)
      ensures at > old(handles)[h].len ==> r == None && Now() == old(Now())
      ensures at <= old(handles)[h].len ==>
                && r == Some(old(next)) && old(next) !in old(handles) && at <= |old(Seen())[h].bytes|
                && at <= old(handles)[h].cap
                && Now() == Split(old(Now()), h, Back(old(Now()), h, at, at), Front(old(Now()), h, at, at))
                && Seen() == old(Seen())[h := Mutable(old(Seen())[h].bytes[at..])]
                                        [old(next) := Mutable(old(Seen())[h].bytes[..at])]
      ensures at <= old(handles)[h].len ==>
                var x := old(handles)[h];
                && h in handles && x.len <= x.cap
                && var d := handles[h].data;
                   && handles == old(handles)[h := BytesMut(Ptr(x.ptr.alloc, x.ptr.off + at),
                                                            x.len - at, x.cap - at, d)]
                                             [old(next) := BytesMut(x.ptr, at, at, d)]
                   && d.Promoted? && (x.data.Promoted? ==> d == x.data) && |mem| == |old(mem)|
    {
      hide Inv, Views, Cells;
      var x := handles[h];
      if at > x.len { return None; }
      Facts(Now(), h);
      Fresh(Now());
      CutOk(Now(), h, at, at, true);
      SharedRecords(Now(), h);
      var n := ShallowClone(h);
      AdvanceUnchecked(h, at);
      handles := handles[n := handles[n].WithCap(at)];
      handles := handles[n := handles[n].WithLen(at)];
      assert Now() == Split(old(Now()), h, Back(old(Now()), h, at, at), Front(old(Now()), h, at, at));
      r := Some(n);
    }

    /** `try_split_off`: everything from `at` on, spare room included, leaves. */
    method TrySplitOff(h: nat, at: nat) returns (r: Option<nat>)
      requires Inv(Now()) && IsMut(h)
      modifies this
      ensures Inv(Now()) && moved == old(moved)
      ensures at > old(handles)[h].cap ==> r == None && Now() == old(Now())
      ensures at <= old(handles)[h].cap ==>
                var len := Min(old(handles)[h].len, at);
                && r == Some(old(next)) && old(next) !in old(handles) && len <= |old(Seen())[h].bytes|
                && Now() == Split(old(Now()), h, Front(old(Now()), h, at, len), Back(old(Now()), h, at, len))
                && Seen() == old(Seen())[h := Mutable(old(Seen())[h].bytes[..len])]
                                        [old(next) := Mutable(old(Seen())[h].bytes[len..])]
      ensures at <= old(handles)[h].cap ==>
                var x := old(handles)[h];
                && h in handles
                && var d, len := handles[h].data, Min(x.len, at);
                   && handles == old(handles)[h := BytesMut(x.ptr, len, at, d)]
                                             [old(next) := BytesMut(Ptr(x.ptr.alloc, x.ptr.off + at),
                                                                    x.len - len, x.cap - at, d)]
                   && d.Promoted? && (x.data.Promoted? ==> d == x.data) && |mem| == |old(mem)|
    {
      hide Inv, Views, Cells;
      var x := handles[h];
      if at > x.cap { return None; }
      Facts(Now(), h);
      Fresh(Now());
      CutOk(Now(), h, at, Min(x.len, at), false);
      SharedRecords(Now(), h);
      var n := ShallowClone(h);
      AdvanceUnchecked(n, at);
      handles := handles[h := handles[h].WithCap(at)];
      handles := handles[h := handles[h].WithLen(Min(handles[h].len, at))];
      ghost var len := Min(x.len, at);
      assert Now() == Split(old(Now()), h, Front(old(Now()), h, at, len), Back(old(Now()), h, at, len));
      r := Some(n);
    }

    /** The condition that `try_unsplit` tests. */
    static predicate Mergeable(x: Handle, y: Handle)
      requires x.BytesMut? && y.BytesMut?
    {
      y.cap == 0
      || (Ptr(x.ptr.alloc, x.ptr.off + x.len) == y.ptr && x.data.Promoted? && y.data.Promoted?)
    }

    /** `try_unsplit`; on success `o` is consumed. */
    method TryUnsplit(h: nat, o: nat) returns (ok: bool)
      requires Inv(Now()) && IsMut(h) && IsMut(o) && h != o
      modifies this
      ensures Inv(Now()) && moved == old(moved) && next == old(next)
      ensures ok == Mergeable(old(handles)[h], old(handles)[o])
      ensures var x, y := old(handles)[h], old(handles)[o];
              ok <==> y.cap == 0 || (x.data.Promoted? && y.data.Promoted?
                                     && y.ptr == Ptr(x.ptr.alloc, x.ptr.off + x.len))
      ensures !ok ==> Now() == old(Now())
      ensures ok ==>
                var x, y := old(handles)[h], old(handles)[o];
                && handles == (old(handles) - {o})[h := BytesMut(x.ptr, x.len + y.len, x.cap + y.cap, x.data)]
                && blocks == Release(old(Now()), o).blocks
                && Seen() == (old(Seen()) - {o})[h := Mutable(old(Seen())[h].bytes + old(Seen())[o].bytes)]
                && (y.cap > 0 ==> x.len == x.cap && x.data == y.data)
    {
      hide Inv, Views, Cells;
      var x, y := handles[h], handles[o];
      Facts(Now(), h);
      Facts(Now(), o);
      if y.cap == 0 {
        Drop(o);
        assert old(Seen())[h].bytes + old(Seen())[o].bytes == old(Seen())[h].bytes;
        return true;
      }
      if Ptr(x.ptr.alloc, x.ptr.off + x.len) == y.ptr && x.data.Promoted? && y.data.Promoted? {
        var z := BytesMut(x.ptr, x.len + y.len, x.cap + y.cap, x.data);
        NeighboursMeet(Now(), h, o);
        MergedOk(Now(), h, o, z);
        // `other` goes out of scope: the count drops, but `self` still holds the buffer
        Drop(o);
        handles := handles[h := z];
        return true;
      }
      ok := false;
    }

    /** `unsplit`: the bytes of `o` follow those of `h`, copied only when they do not already. */
    method Unsplit(h: nat, o: nat)
      requires Inv(Now()) && IsMut(h) && IsMut(o) && h != o
      modifies this
      ensures Inv(Now()) && IsMut(h) && next >= old(next)
      ensures Seen() == (old(Seen()) - {o})[h := Mutable(old(Seen())[h].bytes + old(Seen())[o].bytes)]
      ensures var x, y := old(handles)[h], old(handles)[o];
              if x.len == 0 then
                handles == (old(handles) - {o})[h := y] && blocks == Release(old(Now()), h).blocks
              else if Mergeable(x, y) then
                && handles == (old(handles) - {o})[h := BytesMut(x.ptr, x.len + y.len, x.cap + y.cap, x.data)]
                && blocks == Release(old(Now()), o).blocks
              else
                && handles == (old(handles) - {o})[h := handles[h]]
                && (x.cap - x.len >= y.len ==> handles[h] == x.WithLen(x.len + y.len))
    {
      hide Inv, Views, Cells;
      var x, y := handles[h], handles[o];
      Facts(Now(), h);
      Facts(Now(), o);
      if x.len == 0 {
        Assign(h, o);
        assert [] + old(Seen())[o].bytes == old(Seen())[o].bytes && old(Seen())[h].bytes == [];
        return;
      }
      var ok := TryUnsplit(h, o);
      if !ok {
        var data := Read(y.ptr, y.len);
        ExtendFromSlice(h, data);
        Drop(o);
        assert Seen() == (old(Seen()) - {o})[h := Mutable(old(Seen())[h].bytes + old(Seen())[o].bytes)];
        Facts(Now(), h);
        assert handles == (old(handles) - {o})[h := handles[h]];
      }
    }
  }

  lemma Released(s: State, h: nat)
    requires Inv(s) && h in s.handles
    ensures Release(s, h).handles == s.handles - {h} && |Release(s, h).mem| == |s.mem|
  {
  }

  lemma SameMemory(s: State, t: State)
    requires s.mem == t.mem
    ensures SameBytes(s, t)
  {
  }

  lemma SameSame(s: State, t: State, u: State)
    requires SameBytes(s, t) && SameBytes(t, u)
    ensures SameBytes(s, u)
  {
  }

  /** A `Bytes` with company may be read after it let go. */
  lemma LetGo(s: State, h: nat)
    requires Inv(s) && h in s.handles && s.handles[h].Bytes? && !Unique(s, h)
    ensures var t, x := Release(s, h), s.handles[h];
            && |t.mem| == |s.mem| && t.next == s.next && t.handles == s.handles - {h}
            && (x.len > 0 ==> && x.ptr.alloc < |t.mem| && !t.mem[x.ptr.alloc].owner.Nobody?
                              && x.ptr.off + x.len <= |t.mem[x.ptr.alloc].bytes|
                              && Cells(t, x.ptr, x.len) == Views(s)[h].bytes)
  {
    Facts(s, h);
  }

  lemma Shown(s: State, h: nat)
    requires Inv(s) && h in s.handles && s.handles[h].BytesMut?
    ensures h in Views(s) && Views(s)[h] == Mutable(Views(s)[h].bytes)
  {
  }

  /** Bytes written inside a range replace just those. */
  lemma InsideCells(s: State, p: Ptr, n: nat, data: seq<Byte>, at: nat, q: Ptr, after: Ptr)
    requires p.alloc < |s.mem| && p.off + n <= |s.mem[p.alloc].bytes| && at + |data| <= n
    requires q == Ptr(p.alloc, p.off + at) && after == Ptr(p.alloc, p.off + at + |data|)
    ensures var view := Cells(s, p, n);
            |view| == n && Cells(Poke(s, q, data), p, n) == view[..at] + data + view[at + |data|..]
  {
    hide Cells;
    var t, k := Poke(s, q, data), n - at - |data|;
    ThreeParts(s, p, at, |data|, k, q, after);
    ThreeParts(t, p, at, |data|, k, q, after);
    PokedCells(s, q, data);
    UnpokedCells(s, q, data, p, at);
    UnpokedCells(s, q, data, after, k);
    Lengths(s, p, at);
    Lengths(s, q, |data|);
    Lengths(s, after, k);
    assert Cells(s, p, n)[..at] == Cells(s, p, at) && Cells(s, p, n)[at + |data|..] == Cells(s, after, k);
  }

  lemma Lengths(s: State, p: Ptr, n: nat)
    requires p.alloc < |s.mem| && p.off + n <= |s.mem[p.alloc].bytes|
    ensures |Cells(s, p, n)| == n
  {
  }

  lemma ThreeParts(s: State, p: Ptr, i: nat, j: nat, k: nat, q: Ptr, after: Ptr)
    requires p.alloc < |s.mem| && p.off + i + j + k <= |s.mem[p.alloc].bytes|
    requires q == Ptr(p.alloc, p.off + i) && after == Ptr(p.alloc, p.off + i + j)
    ensures Cells(s, p, i + j + k) == Cells(s, p, i) + Cells(s, q, j) + Cells(s, after, k)
  {
    hide Cells;
    CellsJoin(s, p, i + j, k);
    CellsJoin(s, p, i, j);
  }

  /** A mutable handle whose view ends where a non-empty mutable window begins has no spare room,
      and both are on the same control block. */
  lemma NeighboursMeet(s: State, h: nat, o: nat)
    requires Inv(s) && h in s.handles && o in s.handles && h != o
    requires var x, y := s.handles[h], s.handles[o];
             && x.BytesMut? && y.BytesMut? && x.data.Promoted? && y.data.Promoted? && y.cap > 0
             && y.ptr == Ptr(x.ptr.alloc, x.ptr.off + x.len)
    ensures var x, y := s.handles[h], s.handles[o]; x.len == x.cap && x.data == y.data
  {
    Facts(s, h);
    Facts(s, o);
    assert Compatible(s.handles[h], s.handles[o]);
  }

  /** Joining two windows that meet joins their bytes and disturbs nothing else. */
  lemma MergedOk(s: State, h: nat, o: nat, z: Handle)
    requires Inv(s) && h in s.handles && o in s.handles && h != o
    requires var x, y := s.handles[h], s.handles[o];
             && x.BytesMut? && y.BytesMut? && x.data.Promoted? && x.data == y.data && x.len == x.cap
             && y.ptr == Ptr(x.ptr.alloc, x.ptr.off + x.cap)
             && z == BytesMut(x.ptr, x.len + y.len, x.cap + y.cap, x.data)
    ensures var t := Release(s, o);
            && h in t.handles && Inv(Reshape(t, h, z))
            && Views(Reshape(t, h, z)) == (Views(s) - {o})[h := Mutable(Views(s)[h].bytes + Views(s)[o].bytes)]
  {
    hide Inv, Views, Cells;
    var x, y, t := s.handles[h], s.handles[o], Release(s, o);
    Facts(s, h);
    Facts(s, o);
    CellsJoin(s, x.ptr, x.len, y.len);
    ReleaseOk(s, o);
    Facts(t, h);
    SameCells(s, t, x.ptr, x.len + y.len);
    MergedClear(s, h, o, z);
    ReshapeOk(t, h, z);
  }

  /** Two windows that meet may be joined once the second handle is gone. */
  lemma MergedClear(s: State, h: nat, o: nat, z: Handle)
    requires Inv(s) && h in s.handles && o in s.handles && h != o
    requires var x, y := s.handles[h], s.handles[o];
             && x.BytesMut? && y.BytesMut? && x.data.Promoted? && x.data == y.data
             && y.ptr == Ptr(x.ptr.alloc, x.ptr.off + x.cap)
             && z == BytesMut(x.ptr, x.len + y.len, x.cap + y.cap, x.data)
    ensures Clear(Release(s, o), h, z, z.data.block)
  {
    var t := Release(s, o);
    forall j | j in t.handles && j != h && t.handles[j].TaggedWith(z.data.block)
      ensures Apart(z, t.handles[j])
    {
      assert Compatible(s.handles[h], s.handles[j]) && Compatible(s.handles[o], s.handles[j]);
    }
  }
}
