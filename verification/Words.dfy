/** Machine words: how the `data` word encodes its three readings, and how addresses stand for
    (allocation, offset) pairs. */
module Words {
  import opened Basics
  import opened Buffers
  import opened Heap
  import Cursors
  import Ints

  const WORDS: nat := 0x1_0000_0000_0000_0000
  const MSB: nat := 0x8000_0000_0000_0000
  const ISIZE_MAX: nat := 0x7FFF_FFFF_FFFF_FFFF

  /** A 64-bit `usize`, or the address in a pointer. */
  type Word = w: nat | w < WORDS

  /** The sizes that everything else refers to. */
  lemma WordSizes()
    ensures Ints.Pow256(8) == WORDS == Cursors.USIZE_MAX + 1 == 2 * MSB && ISIZE_MAX + 1 == MSB
  {
    Ints.Powers();
  }

  // ===== The data word =====

  /** `w & 1`. */
  function LowBit(w: Word): nat { w % 2 }

  /** `w & MSB != 0`. */
  predicate HasTopBit(w: Word) { w / MSB % 2 == 1 }

  /** `w >> 1`. */
  function Halved(w: Word): Word { w / 2 }

  /** `w << 1`: the top bit is lost. */
  function Doubled(w: Word): Word { w * 2 % WORDS }

  /** `w | 1`. */
  function WithLowBit(w: Word): Word { if LowBit(w) == 1 then w else w + 1 }

  predicate IsUnpromoted(w: Word) { LowBit(w) == 1 }

  predicate IsPromoted(w: Word) { LowBit(w) == 0 }

  function ToUnpromoted(w: Word): Option<Word> { if IsUnpromoted(w) then Some(Halved(w)) else None }

  /** `None` stands for the two assertions. */
  function MaskPayload(w: Word, value: Word): Option<Word> {
    if !IsUnpromoted(w) || HasTopBit(value) then None else Some(WithLowBit(Doubled(value)))
  }

  /** Masking succeeds exactly for payloads below the top bit, unmasking gives them back, and every
      tagged word is the masking of its own payload. */
  lemma MaskExact(w: Word, value: Word)
    ensures MaskPayload(w, value).Some? <==> IsUnpromoted(w) && value <= ISIZE_MAX
    ensures MaskPayload(w, value).Some? ==> ToUnpromoted(MaskPayload(w, value).value) == Some(value)
    ensures IsUnpromoted(w) ==> MaskPayload(w, Halved(w)) == Some(w)
  {
  }

  /** Control blocks have distinct, aligned addresses, none of them null. */
  ghost predicate Addresses(addrs: seq<Word>) {
    && (forall i | 0 <= i < |addrs| :: addrs[i] != 0 && LowBit(addrs[i]) == 0)
    && (forall i, j | 0 <= i < j < |addrs| :: addrs[i] != addrs[j])
  }

  ghost predicate Storable(addrs: seq<Word>, d: Data) {
    match d
    case Static => true
    case Unpromoted(offset) => offset <= ISIZE_MAX
    case Promoted(b) => b < |addrs|
  }

  /** The word of a handle: null, `new_unpromoted` masked with the offset, or a pointer. */
  ghost function Stored(addrs: seq<Word>, d: Data): Word
    requires Storable(addrs, d)
  {
    match d
    case Static => 0
    case Unpromoted(offset) => MaskExact(1, offset); MaskPayload(1, offset).value
    case Promoted(b) => addrs[b]
  }

  /** The reading of a word: null first, then the tag. */
  ghost predicate Reads(addrs: seq<Word>, w: Word, d: Data) {
    if w == 0 then d.Static?
    else match ToUnpromoted(w)
      case Some(offset) => d == Unpromoted(offset)
      case None => d.Promoted? && d.block < |addrs| && addrs[d.block] == w
  }

  /** What was stored is what is read, and nothing else.  The tag alone does not tell a static
      handle from a promoted one. */
  lemma StoredReads(addrs: seq<Word>, d: Data, e: Data)
    requires Addresses(addrs) && Storable(addrs, d)
    ensures Reads(addrs, Stored(addrs, d), e) <==> e == d
    ensures IsUnpromoted(Stored(addrs, d)) <==> d.Unpromoted?
    ensures IsPromoted(Stored(addrs, d)) <==> d.Static? || d.Promoted?
  {
  }

  /** Masking never trips its assertions while allocations stay within `isize::MAX`, and the new word
      is that of the advanced handle.  The strict assertion that a `BytesMut` makes after that trips
      exactly at the end of an allocation of `isize::MAX` bytes. */
  lemma AdvanceMasks(s: State, h: nat, count: nat, addrs: seq<Word>)
    requires Inv(s) && h in s.handles && !s.handles[h].Vec? && s.handles[h].data.Unpromoted?
    requires 0 < count <= s.handles[h].Extent()
    requires s.handles[h].ptr.alloc < |s.mem| && |s.mem[s.handles[h].ptr.alloc].bytes| <= ISIZE_MAX
    ensures var x := s.handles[h];
            && Storable(addrs, x.data) && Storable(addrs, Advanced(x, count).data)
            && MaskPayload(Stored(addrs, x.data), x.data.offset + count) == Some(Stored(addrs, Advanced(x, count).data))
            && (x.data.offset + count < ISIZE_MAX
                <==> !(count == x.Extent() && |s.mem[x.ptr.alloc].bytes| == ISIZE_MAX))
  {
    Facts(s, h);
    var x := s.handles[h];
    MaskExact(1, x.data.offset);
    MaskExact(Stored(addrs, x.data), x.data.offset + count);
  }

  // ===== Addresses =====

  function Addr(base: seq<nat>, p: Ptr): nat
    requires p.alloc < |base|
  {
    base[p.alloc] + p.off
  }

  /** Live allocations occupy disjoint ranges of addresses. */
  ghost predicate Placed(s: State, base: seq<nat>) {
    && |base| == |s.mem|
    && forall a, b {:trigger base[a], base[b]} | 0 <= a < |base| && 0 <= b < |base| && a != b
         && !s.mem[a].owner.Nobody? && !s.mem[b].owner.Nobody? ::
         base[a] + |s.mem[a].bytes| <= base[b] || base[b] + |s.mem[b].bytes| <= base[a]
  }

  ghost predicate TwoMut(s: State, h: nat, o: nat) {
    && h in s.handles && o in s.handles && h != o && s.handles[h].BytesMut? && s.handles[o].BytesMut?
    && s.handles[o].cap > 0
  }

  /** The comparison that `try_unsplit` makes. */
  ghost predicate AddressTest(base: seq<nat>, x: Handle, y: Handle)
    requires x.BytesMut? && y.BytesMut? && x.ptr.alloc < |base| && y.ptr.alloc < |base|
  {
    Addr(base, x.ptr) + x.len == Addr(base, y.ptr) && x.data.Promoted? && y.data.Promoted?
  }

  /** `x` ends its allocation, `y` starts another, and the two touch. */
  ghost predicate Touching(s: State, base: seq<nat>, x: Handle, y: Handle)
    requires x.BytesMut? && y.BytesMut? && x.ptr.alloc < |base| && |base| == |s.mem| && y.ptr.alloc < |base|
  {
    && x.ptr.alloc != y.ptr.alloc && y.ptr.off == 0 && x.ptr.off + x.len == |s.mem[x.ptr.alloc].bytes|
    && base[x.ptr.alloc] + |s.mem[x.ptr.alloc].bytes| == base[y.ptr.alloc]
    && x.data.Promoted? && y.data.Promoted?
  }

  lemma InMemory(s: State, h: nat)
    requires Inv(s) && h in s.handles && s.handles[h].BytesMut?
    ensures var x := s.handles[h];
            && x.ptr.alloc < |s.mem| && !s.mem[x.ptr.alloc].owner.Nobody? && x.len <= x.cap
            && x.ptr.off + x.cap <= |s.mem[x.ptr.alloc].bytes|
  {
    Facts(s, h);
  }

  /** Comparing addresses is comparing places, except across allocations that touch; comparing the
      `data` words as well would be exact. */
  lemma AddressTestIff(s: State, base: seq<nat>, h: nat, o: nat)
    requires Inv(s) && Placed(s, base) && TwoMut(s, h, o)
    ensures s.handles[h].ptr.alloc < |base| && s.handles[o].ptr.alloc < |base|
    ensures var x, y := s.handles[h], s.handles[o];
            && (AddressTest(base, x, y) <==> Memory.Mergeable(x, y) || Touching(s, base, x, y))
            && (AddressTest(base, x, y) && x.data == y.data <==> Memory.Mergeable(x, y))
  {
    InMemory(s, h);
    InMemory(s, o);
    Facts(s, h);
    Facts(s, o);
    var x, y := s.handles[h], s.handles[o];
    if Memory.Mergeable(x, y) { NeighboursMeet(s, h, o); }
  }

  /** What `try_unsplit` leaves when it merges across allocations that touch: a window that reaches
      past the end of its allocation, while the other block loses the count of a handle whose bytes
      the window covers. */
  lemma TouchingMerged(s: State, base: seq<nat>, h: nat, o: nat)
    requires Inv(s) && TwoMut(s, h, o) && |base| == |s.mem|
    requires s.handles[h].ptr.alloc < |base| && s.handles[o].ptr.alloc < |base|
    requires Touching(s, base, s.handles[h], s.handles[o])
    ensures var x, y := s.handles[h], s.handles[o];
            var z := BytesMut(x.ptr, x.len + y.len, x.cap + y.cap, x.data);
            && z.ptr.off + z.cap > |s.mem[x.ptr.alloc].bytes|
            && (y.len > 0 ==> z.ptr.off + z.len > |s.mem[x.ptr.alloc].bytes|)
            && !Inv(Reshape(Release(s, o), h, z))
  {
    hide Inv, Release;
    InMemory(s, h);
    var x, y := s.handles[h], s.handles[o];
    var z := BytesMut(x.ptr, x.len + y.len, x.cap + y.cap, x.data);
    ReleaseSizes(s, o);
    TooLong(Release(s, o), h, z);
  }

  lemma ReleaseSizes(s: State, o: nat)
    requires Inv(s) && o in s.handles
    ensures SameSizes(s, Release(s, o)) && |Release(s, o).mem| == |s.mem|
  {
    Facts(s, o);
  }

  lemma TooLong(s: State, h: nat, z: Handle)
    requires z.BytesMut? && z.data.Promoted? && z.ptr.alloc < |s.mem|
    requires z.ptr.off + z.cap > |s.mem[z.ptr.alloc].bytes|
    ensures !Inv(Reshape(s, h, z))
  {
    var t := Reshape(s, h, z);
    assert h in t.handles && !HandleOk(t, h, t.handles[h]);
  }

  /** Splitting off an empty front and dropping it promotes a buffer and leaves it as it was. */
  lemma OnlyPromoted(s: State, h: nat)
    requires Inv(s) && h in s.handles && s.handles[h].BytesMut? && s.handles[h].data.Unpromoted?
    requires Inv(Split(s, h, Back(s, h, 0, 0), Front(s, h, 0, 0)))
    ensures var u := Split(s, h, Back(s, h, 0, 0), Front(s, h, 0, 0));
            && s.next in u.handles
            && var t := Release(u, s.next);
               && t.handles == s.handles[h := s.handles[h].WithData(Promoted(|s.blocks|))]
               && |t.mem| == |s.mem| && SameSizes(s, t) && |t.blocks| == |s.blocks| + 1
  {
    Facts(s, h);
    ShareSole(s, h);
    hide Inv, Share;
    var y := s.handles[h].WithData(Promoted(|s.blocks|));
    assert Back(s, h, 0, 0) == y;
    CutAgain(s.handles, h, s.next, y, Front(s, h, 0, 0));
  }

  lemma CutAgain<V>(m: map<nat, V>, h: nat, n: nat, y: V, f: V)
    requires h != n && n !in m
    ensures m[h := y][n := y][h := y][n := f] - {n} == m[h := y]
  {
  }

  /** A promoted buffer of one handle whose view fills an allocation of its own. */
  method FullBuffer(m: Memory) returns (h: nat)
    requires Inv(m.Now())
    modifies m
    ensures Inv(m.Now()) && h == old(m.next) && h !in old(m.handles) && h in m.handles
    ensures |m.mem| == |old(m.mem)| + 1 && SameSizes(old(m.Now()), m.Now()) && |m.blocks| == |old(m.blocks)| + 1
    ensures var len := |m.mem[|old(m.mem)|].bytes|;
            var x := BytesMut(Ptr(|old(m.mem)|, 0), len, len, Promoted(|old(m.blocks)|));
            len > 0 && m.handles == old(m.handles)[h := x]
  {
    hide Inv, Views, Cells, Release, Split, Front, Back;
    Fresh(m.Now());
    h := m.MutCopyFromSlice([0]);
    var room: nat := m.handles[h].cap - m.handles[h].len;
    m.Append(h, seq(room, _ => 0));
    Facts(m.Now(), h);
    ghost var s := m.Now();
    var r := m.TrySplitTo(h, 0);
    OnlyPromoted(s, h);
    m.Drop(r.value);
  }

  /** Two buffers never split from one another, placed side by side: the comparison holds. */
  method TouchingBuffers() returns (m: Memory, h: nat, o: nat, base: seq<nat>)
    ensures Inv(m.Now()) && Placed(m.Now(), base) && TwoMut(m.Now(), h, o)
    ensures m.handles[h].ptr.alloc < |base| && m.handles[o].ptr.alloc < |base|
    ensures AddressTest(base, m.handles[h], m.handles[o]) && !Memory.Mergeable(m.handles[h], m.handles[o])
  {
    hide Inv, Views, Cells;
    m := new Memory();
    h := FullBuffer(m);
    o := FullBuffer(m);
    base := [8, 8 + |m.mem[0].bytes|];
  }
}
