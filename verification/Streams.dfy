/** What single buffers guarantee across operations: freezing and thawing, and the amortised cost
    of streaming through one buffer. */
module Streams {
  import opened Basics
  import opened Buffers
  import opened Heap

  /** `freeze` then `into_mut`: the bytes are kept in every state; a handle that is alone on its
      buffer and not empty keeps its pointer and does not lose room. */
  method FreezeThaw(m: Memory, h: nat)
    requires Inv(m.Now()) && m.IsMut(h)
    modifies m
    ensures Inv(m.Now()) && m.Seen() == old(m.Seen()) && m.IsMut(h)
    ensures m.handles[h].len == old(m.handles)[h].len
    ensures old(m.handles)[h].len > 0 && Keepers(old(m.Now()), old(m.handles)[h].ptr.alloc) == {h} ==>
              && m.handles[h].ptr == old(m.handles)[h].ptr && m.handles[h].cap >= old(m.handles)[h].cap
              && |m.mem| == |old(m.mem)|
  {
    hide Inv, Views, Cells;
    var x := m.handles[h];
    Facts(m.Now(), h);
    UniqueIsAlone(m.Now(), h);
    m.Freeze(h);
    Facts(m.Now(), h);
    m.IntoMut(h);
    Facts(m.Now(), h);
    Shown(old(m.Now()), h);
    assert m.Seen() == old(m.Seen());
  }

  /** Two halves of one buffer, the front frozen. */
  method FrozenHalves(m: Memory, front: seq<Byte>, back: seq<Byte>) returns (f: nat, h: nat)
    requires Inv(m.Now())
    modifies m
    ensures Inv(m.Now()) && f != h && f in m.Seen() && h in m.Seen() && m.IsMut(h) && m.IsBytes(f)
    ensures m.Seen()[f] == Frozen(front) && m.Seen()[h] == Mutable(back)
    ensures var x := m.handles[h];
            && x.data.Promoted? && x.data.block < |m.blocks| && m.handles[f].data == x.data
            && m.blocks[x.data.block].count == 2 && m.blocks[x.data.block].cap == |front| + x.cap
            && m.handles[f].ptr == Ptr(x.ptr.alloc, 0) && x.ptr.off == |front| && x.len == |back|
  {
    hide Inv, Views, Cells;
    h := m.MutCopyFromSlice(front + back);
    Facts(m.Now(), h);
    var r := m.TrySplitTo(h, |front|);
    f := r.value;
    m.Freeze(f);
    Facts(m.Now(), f);
    Facts(m.Now(), h);
  }

  /** A live `BytesMut` is no protection for bytes that somebody still reads after giving up a
      count, as `into_vec` does: the two halves of a buffer, the front frozen and its count given
      up; `try_reclaim` on the back finds the count at one and slides the back over the front. */
  method OverwrittenFront(m: Memory, front: seq<Byte>, back: seq<Byte>)
    returns (f: nat, h: nat, ghost before: State, ok: bool)
    requires Inv(m.Now()) && |front| == |back| > 0
    modifies m
    ensures Inv(before) && f in before.handles && Views(before)[f] == Frozen(front)
    ensures h in before.handles && Views(before)[h] == Mutable(back)
    ensures ok && Inv(m.Now()) && m.frees == before.frees && h in m.handles && m.Seen() == Views(before) - {f}
    ensures Cells(m.Now(), before.handles[f].ptr, |front|) == back
  {
    hide Inv, Views, Cells;
    f, h := FrozenHalves(m, front, back);
    before := m.Now();
    var room := m.handles[h].cap - m.handles[h].len + |front|;
    Facts(before, h);
    Facts(before, f);
    m.Drop(f);
    Facts(m.Now(), h);
    RoomRecorded(m.Now(), h, room);
    ok := m.ReserveInner(h, room, false);
    Facts(m.Now(), h);
  }

  /** Nor is a live `Bytes` that is converted in turn: with the back frozen as well, `into_vec` finds
      the count at one, takes the buffer and moves its bytes to the start. */
  method OverwrittenByBytes(m: Memory, front: seq<Byte>, back: seq<Byte>)
    returns (f: nat, h: nat, ghost before: State)
    requires Inv(m.Now()) && |front| == |back| > 0
    modifies m
    ensures Inv(before) && f in before.handles && Views(before)[f] == Frozen(front)
    ensures h in before.handles && Views(before)[h] == Frozen(back)
    ensures Inv(m.Now()) && m.frees == before.frees && m.Seen() == (Views(before) - {f})[h := Owned(back)]
    ensures Cells(m.Now(), before.handles[f].ptr, |front|) == back
  {
    hide Inv, Views, Cells;
    f, h := FrozenHalves(m, front, back);
    m.Freeze(h);
    before := m.Now();
    Facts(before, h);
    Facts(before, f);
    m.Drop(f);
    Facts(m.Now(), h);
    m.IntoVec(h);
    Facts(m.Now(), h);
  }

  // ===== Amortised cost =====

  datatype Step = Append(data: seq<Byte>) | Skip(n: nat)

  /** How many bytes the steps append. */
  function Appended(steps: seq<Step>): nat {
    if steps == [] then 0
    else (match steps[0] case Append(data) => |data| case Skip(_) => 0) + Appended(steps[1..])
  }

  /** How many bytes they consume, from a view of `len` bytes; a skip past the end panics. */
  function Consumed(len: nat, steps: seq<Step>): nat
    decreases steps
  {
    if steps == [] then 0
    else match steps[0]
      case Append(data) => Consumed(len + |data|, steps[1..])
      case Skip(n) => if n <= len then n + Consumed(len - n, steps[1..]) else Consumed(len, steps[1..])
  }

  lemma SkipPays(x: Handle, n: nat)
    requires x.BytesMut? && n <= x.len <= x.cap && x.data.Unpromoted?
    ensures Potential(Advanced(x, n)) <= Potential(x) + n
  {
  }

  /** Appending to and consuming from one unpromoted `BytesMut`, in any order, moves at most three
      bytes for every byte appended and one for every byte consumed, beyond the starting
      potential. */
  method Stream(m: Memory, h: nat, steps: seq<Step>)
    requires Inv(m.Now()) && m.IsMut(h) && m.handles[h].data.Unpromoted?
    modifies m
    ensures Inv(m.Now()) && m.IsMut(h) && m.handles[h].data.Unpromoted?
    ensures m.moved - old(m.moved) + Potential(m.handles[h])
            <= Potential(old(m.handles)[h]) + 3 * Appended(steps) + Consumed(old(m.handles)[h].len, steps)
  {
    hide Inv, Views, Cells, Potential;
    var i := 0;
    while i < |steps|
      invariant i <= |steps| && Inv(m.Now()) && m.IsMut(h) && m.handles[h].data.Unpromoted?
      invariant m.moved - old(m.moved) + Potential(m.handles[h])
                  + 3 * Appended(steps[i..]) + Consumed(m.handles[h].len, steps[i..])
                <= Potential(old(m.handles)[h]) + 3 * Appended(steps) + Consumed(old(m.handles)[h].len, steps)
    {
      assert steps[i..][1..] == steps[i + 1..];
      Facts(m.Now(), h);
      match steps[i] {
        case Append(data) =>
          m.ExtendFromSlice(h, data);
          Facts(m.Now(), h);
        case Skip(n) =>
          if n <= m.handles[h].len { SkipPays(m.handles[h], n); }
          var ok := m.AdvanceMut(h, n);
      }
      i := i + 1;
    }
  }

  /** From a fresh buffer there is no starting potential. */
  method FreshStream(m: Memory, capacity: nat, steps: seq<Step>) returns (h: nat)
    requires Inv(m.Now())
    modifies m
    ensures Inv(m.Now()) && m.IsMut(h)
    ensures m.moved - old(m.moved) <= 3 * Appended(steps) + Consumed(0, steps)
  {
    h := m.MutWithCapacity(capacity);
    Stream(m, h, steps);
  }
}
