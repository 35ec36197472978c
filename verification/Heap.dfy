/** The memory the handles share: allocations, `Shared` control blocks and the table of live
    handles, with the one invariant every operation keeps.

    A pointer is an (allocation, offset) pair.  Each allocation records who will free it; that
    record is bookkeeping of the model, and `ExactlyOneOwner` and `LiveIffKept` say what it
    means in terms of handles and control blocks alone. */
module Heap {
  import opened Basics

  datatype Owner = Nobody | Immortal | Sole(handle: nat) | Counted(block: nat)
  datatype Alloc = Alloc(bytes: seq<Byte>, owner: Owner)
  datatype Ptr = Ptr(alloc: nat, off: nat)

  /** A control block; `count == 0` says that it was freed. */
  datatype Shared = Shared(count: nat, alloc: nat, cap: nat)

  /** The three readings of the `data` word. */
  datatype Data = Static | Unpromoted(offset: nat) | Promoted(block: nat)

  datatype Handle =
    | Bytes(ptr: Ptr, len: nat, data: Data)
    | BytesMut(ptr: Ptr, len: nat, cap: nat, data: Data)
    | Vec(ptr: Ptr, len: nat, cap: nat)
  {
    /** The part of the buffer that the handle claims, in bytes from `ptr`. */
    function Extent(): nat { if Bytes? then len else cap }

    predicate OwnsAlone() { Vec? || data.Unpromoted? }

    predicate IsStatic() { !Vec? && data.Static? }

    predicate TaggedWith(b: nat) { !Vec? && data == Promoted(b) }

    function WithPtr(p: Ptr): Handle {
      match this
      case Bytes(_, n, d) => Bytes(p, n, d)
      case BytesMut(_, n, c, d) => BytesMut(p, n, c, d)
      case Vec(_, n, c) => Vec(p, n, c)
    }

    function WithLen(n: nat): Handle {
      match this
      case Bytes(p, _, d) => Bytes(p, n, d)
      case BytesMut(p, _, c, d) => BytesMut(p, n, c, d)
      case Vec(p, _, c) => Vec(p, n, c)
    }

    function WithCap(n: nat): Handle {
      match this
      case Bytes(_, _, _) => this
      case BytesMut(p, l, _, d) => BytesMut(p, l, n, d)
      case Vec(p, l, _) => Vec(p, l, n)
    }

    function WithData(d: Data): Handle {
      match this
      case Bytes(p, n, _) => Bytes(p, n, d)
      case BytesMut(p, n, c, _) => BytesMut(p, n, c, d)
      case Vec(_, _, _) => this
    }
  }

  /** `frees` logs every deallocation, in order. */
  datatype State = State(mem: seq<Alloc>, blocks: seq<Shared>, handles: map<nat, Handle>,
                         next: nat, frees: seq<nat>)

  const EMPTY := State([], [], map[], 0, [])

  // ===== Views =====

  ghost function Cells(s: State, p: Ptr, len: nat): seq<Byte> {
    if p.alloc < |s.mem| && p.off + len <= |s.mem[p.alloc].bytes|
    then s.mem[p.alloc].bytes[p.off..p.off + len] else []
  }

  /** What the owner of a handle sees: its type and its bytes. */
  datatype Value = Frozen(bytes: seq<Byte>) | Mutable(bytes: seq<Byte>) | Owned(bytes: seq<Byte>)

  /** The same value type with other bytes. */
  function Like(v: Value, bytes: seq<Byte>): Value {
    match v
    case Frozen(_) => Frozen(bytes)
    case Mutable(_) => Mutable(bytes)
    case Owned(_) => Owned(bytes)
  }

  ghost function View(s: State, x: Handle): Value {
    var bytes := Cells(s, x.ptr, x.len);
    match x
    case Bytes(_, _, _) => Frozen(bytes)
    case BytesMut(_, _, _, _) => Mutable(bytes)
    case Vec(_, _, _) => Owned(bytes)
  }

  ghost function Views(s: State): map<nat, Value> {
    map h | h in s.handles :: View(s, s.handles[h])
  }

  // ===== The invariant =====

  ghost function Tagged(hs: map<nat, Handle>, b: nat): set<nat> {
    set h | h in hs && hs[h].TaggedWith(b)
  }

  ghost predicate HandleOk(s: State, h: nat, x: Handle) {
    if x.IsStatic() then x.Bytes? && StaticOk(s, x)
    else
      && x.ptr.alloc < |s.mem|
      && x.len <= x.Extent()
      && var m := s.mem[x.ptr.alloc];
         if x.Vec? then
           m.owner == Sole(h) && x.ptr.off == 0 && x.cap == |m.bytes|
         else match x.data
           case Unpromoted(offset) =>
             m.owner == Sole(h) && x.ptr.off == offset && offset + x.Extent() == |m.bytes|
           case Promoted(b) =>
             && b < |s.blocks| && s.blocks[b].count > 0 && s.blocks[b].alloc == x.ptr.alloc
             && x.ptr.off + x.Extent() <= |m.bytes|
           case Static => true
  }

  /** An empty static handle may point anywhere. */
  ghost predicate StaticOk(s: State, x: Handle) {
    x.len == 0
    || (x.ptr.alloc < |s.mem| && s.mem[x.ptr.alloc].owner.Immortal?
        && x.ptr.off + x.len <= |s.mem[x.ptr.alloc].bytes|)
  }

  ghost predicate BlockOk(s: State, b: nat)
    requires b < |s.blocks|
  {
    var k := s.blocks[b];
    && k.alloc < |s.mem|
    && s.mem[k.alloc].owner == Counted(b)
    && k.cap == |s.mem[k.alloc].bytes|
    && k.count == |Tagged(s.handles, b)|
  }

  ghost predicate AllocOk(s: State, a: nat)
    requires a < |s.mem|
  {
    match s.mem[a].owner
    case Sole(h) => h in s.handles && s.handles[h].OwnsAlone() && s.handles[h].ptr.alloc == a
    case Counted(b) => b < |s.blocks| && s.blocks[b].count > 0 && s.blocks[b].alloc == a
    case _ => true
  }

  /** Windows of two handles may share bytes only when both are read-only. */
  ghost predicate Apart(x: Handle, y: Handle) {
    (x.Bytes? && y.Bytes?) || x.Extent() == 0 || y.Extent() == 0
    || x.ptr.off + x.Extent() <= y.ptr.off || y.ptr.off + y.Extent() <= x.ptr.off
  }

  ghost predicate Compatible(x: Handle, y: Handle) {
    !x.Vec? && x.data.Promoted? && y.TaggedWith(x.data.block) ==> Apart(x, y)
  }

  ghost predicate Exclusive(hs: map<nat, Handle>) {
    forall i, j {:trigger Compatible(hs[i], hs[j])} | i in hs && j in hs && i != j ::
      Compatible(hs[i], hs[j])
  }

  ghost predicate FreesOk(s: State) {
    && (forall i, j | 0 <= i < j < |s.frees| :: s.frees[i] != s.frees[j])
    && (forall a | a in s.frees :: a < |s.mem|)
    && (forall a: nat | a < |s.mem| :: a in s.frees <==> s.mem[a].owner.Nobody?)
  }

  ghost predicate Inv(s: State) {
    && (forall h | h in s.handles :: h < s.next && HandleOk(s, h, s.handles[h]))
    && (forall b: nat | b < |s.blocks| && s.blocks[b].count > 0 :: BlockOk(s, b))
    && (forall a: nat | a < |s.mem| :: AllocOk(s, a))
    && Exclusive(s.handles)
    && FreesOk(s)
  }

  // ===== Transitions =====

  function SetOwner(mem: seq<Alloc>, a: nat, o: Owner): seq<Alloc>
    requires a < |mem|
  {
    mem[a := mem[a].(owner := o)]
  }

  function SetCount(blocks: seq<Shared>, b: nat, n: nat): seq<Shared>
    requires b < |blocks|
  {
    blocks[b := blocks[b].(count := n)]
  }

  function Free(s: State, a: nat): State
    requires a < |s.mem|
  {
    s.(mem := SetOwner(s.mem, a, Nobody), frees := s.frees + [a])
  }

  /** A fresh vector: a new allocation with one owner. */
  function Spawn(s: State, bytes: seq<Byte>, len: nat): State {
    s.(mem := s.mem + [Alloc(bytes, Sole(s.next))],
       handles := s.handles[s.next := Vec(Ptr(|s.mem|, 0), len, |bytes|)],
       next := s.next + 1)
  }

  /** Bytes that live as long as the program. */
  function SpawnStatic(s: State, bytes: seq<Byte>): State {
    s.(mem := s.mem + [Alloc(bytes, Immortal)],
       handles := s.handles[s.next := Bytes(Ptr(|s.mem|, 0), |bytes|, Static)],
       next := s.next + 1)
  }

  /** A static handle stored under `h`. */
  function AddStatic(s: State, h: nat, p: Ptr, len: nat): State {
    s.(handles := s.handles[h := Bytes(p, len, Static)],
       next := if h < s.next then s.next else h + 1)
  }

  /** Drops a handle. */
  function Release(s: State, h: nat): State
    requires Inv(s) && h in s.handles
  {
    var x := s.handles[h];
    var t := s.(handles := s.handles - {h});
    if x.OwnsAlone() then Free(t, x.ptr.alloc)
    else if x.data.Static? then t
    else
      var b := x.data.block;
      var u := t.(blocks := SetCount(t.blocks, b, t.blocks[b].count - 1));
      if s.blocks[b].count == 1 then Free(u, x.ptr.alloc) else u
  }

  /** Rewrites the fields of a handle that stays in charge of the same allocation. */
  function Reshape(s: State, h: nat, x: Handle): State {
    s.(handles := s.handles[h := x])
  }

  /** Moves ownership of `h`'s allocation to a new control block, counted once. */
  function Promote(s: State, h: nat, x: Handle): State
    requires x.ptr.alloc < |s.mem|
  {
    s.(mem := SetOwner(s.mem, x.ptr.alloc, Counted(|s.blocks|)),
       blocks := s.blocks + [Shared(1, x.ptr.alloc, |s.mem[x.ptr.alloc].bytes|)],
       handles := s.handles[h := x])
  }

  /** Takes the allocation back from a control block counted once. */
  function Demote(s: State, h: nat, b: nat, x: Handle): State
    requires x.ptr.alloc < |s.mem| && b < |s.blocks|
  {
    s.(mem := SetOwner(s.mem, x.ptr.alloc, Sole(h)),
       blocks := SetCount(s.blocks, b, 0),
       handles := s.handles[h := x])
  }

  /** Adds a handle to a live control block. */
  function Fork(s: State, b: nat, x: Handle): State
    requires b < |s.blocks|
  {
    s.(blocks := SetCount(s.blocks, b, s.blocks[b].count + 1),
       handles := s.handles[s.next := x],
       next := s.next + 1)
  }

  /** Moves a handle's value to another name. */
  function Rename(s: State, from: nat, to: nat): State
    requires from in s.handles
  {
    var x := s.handles[from];
    s.(mem := if x.OwnsAlone() && x.ptr.alloc < |s.mem| then SetOwner(s.mem, x.ptr.alloc, Sole(to)) else s.mem,
       handles := (s.handles - {from})[to := x],
       next := if to < s.next then s.next else to + 1)
  }

  /** Overwrites bytes of an allocation. */
  function Poke(s: State, p: Ptr, data: seq<Byte>): State
    requires p.alloc < |s.mem| && p.off + |data| <= |s.mem[p.alloc].bytes|
  {
    var was := s.mem[p.alloc].bytes;
    s.(mem := s.mem[p.alloc := s.mem[p.alloc].(
         bytes := was[..p.off] + data + was[p.off + |data|..])])
  }

  // ===== What each transition keeps =====

  function Tags(hs: map<nat, Handle>, h: nat, b: nat): nat {
    if h in hs && hs[h].TaggedWith(b) then 1 else 0
  }

  /** How one table update changes the number of handles tagged with a block. */
  lemma TaggedUpdate(hs: map<nat, Handle>, h: nat, x: Handle, b: nat)
    ensures |Tagged(hs[h := x], b)| == |Tagged(hs, b)| - Tags(hs, h, b) + (if x.TaggedWith(b) then 1 else 0)
  {
    var was, now := Tagged(hs, b), Tagged(hs[h := x], b);
    var rest := was - {h};
    forall j ensures j in now - {h} <==> j in rest { if j in hs && j != h { assert hs[h := x][j] == hs[j]; } }
    assert was == if Tags(hs, h, b) == 1 then rest + {h} else rest;
    assert now == if x.TaggedWith(b) then rest + {h} else rest;
  }

  lemma TaggedRemove(hs: map<nat, Handle>, h: nat, b: nat)
    ensures |Tagged(hs - {h}, b)| == |Tagged(hs, b)| - Tags(hs, h, b)
  {
    var was := Tagged(hs, b);
    assert Tagged(hs - {h}, b) == was - {h};
    assert h in was <==> Tags(hs, h, b) == 1;
  }

  lemma SpawnOk(s: State, bytes: seq<Byte>, len: nat)
    requires Inv(s) && len <= |bytes|
    ensures var t := Spawn(s, bytes, len); Inv(t) && Views(t) == Views(s)[s.next := Owned(bytes[..len])]
  {
    var t := Spawn(s, bytes, len);
    assert Inv(t) by { NewHandle(s, t); }
    assert Views(t) == Views(s)[s.next := Owned(bytes[..len])] by { ViewsUpdate(s, t, s.next); }
  }

  lemma SpawnStaticOk(s: State, bytes: seq<Byte>)
    requires Inv(s)
    ensures var t := SpawnStatic(s, bytes); Inv(t) && Views(t) == Views(s)[s.next := Frozen(bytes)]
  {
    var t := SpawnStatic(s, bytes);
    assert Inv(t) by { NewHandle(s, t); }
    assert Views(t) == Views(s)[s.next := Frozen(bytes)] by {
      ViewsUpdate(s, t, s.next);
      assert View(t, t.handles[s.next]) == Frozen(bytes);
    }
  }

  lemma AddStaticOk(s: State, h: nat, p: Ptr, len: nat)
    requires Inv(s) && h !in s.handles && StaticOk(s, Bytes(p, len, Static))
    ensures var t := AddStatic(s, h, p, len); Inv(t) && Views(t) == Views(s)[h := Frozen(Cells(s, p, len))]
    ensures len == 0 ==> Cells(s, p, len) == []
  {
    var t := AddStatic(s, h, p, len);
    assert Inv(t) by { AddStaticInv(s, h, p, len); }
    assert Views(t) == Views(s)[h := Frozen(Cells(s, p, len))] by { ViewsUpdate(s, t, h); }
  }

  lemma AddStaticInv(s: State, h: nat, p: Ptr, len: nat)
    requires Inv(s) && h !in s.handles && StaticOk(s, Bytes(p, len, Static))
    ensures Inv(AddStatic(s, h, p, len))
  {
    var t := AddStatic(s, h, p, len);
    SameTags(s, t, h);
    SameAllocs(s, t);
    forall j | j in t.handles ensures HandleOk(t, j, t.handles[j]) {
      if j != h { assert HandleOk(s, j, s.handles[j]); }
    }
  }

  lemma NewHandle(s: State, t: State)
    requires Inv(s) && |t.mem| == |s.mem| + 1 && t.mem[..|s.mem|] == s.mem && t.blocks == s.blocks
    requires s.next in t.handles && t.handles == s.handles[s.next := t.handles[s.next]] && t.next == s.next + 1
    requires t.frees == s.frees && HandleOk(t, s.next, t.handles[s.next])
    requires var m := t.mem[|s.mem|]; m.owner.Immortal? || m.owner == Sole(s.next)
    requires var x := t.handles[s.next]; x.ptr.alloc == |s.mem| && (x.IsStatic() || x.OwnsAlone())
    requires t.mem[|s.mem|].owner.Immortal? <==> t.handles[s.next].IsStatic()
    ensures Inv(t)
  {
    SameTags(s, t, s.next);
    SameAllocs(s, t);
    forall j | j in s.handles ensures HandleOk(t, j, t.handles[j]) { assert HandleOk(s, j, s.handles[j]); }
  }

  /** A handle outside every control block changes no count. */
  lemma SameTags(s: State, t: State, h: nat)
    requires Inv(s) && h in t.handles && t.handles == s.handles[h := t.handles[h]]
    requires var x := t.handles[h]; x.OwnsAlone() || x.IsStatic()
    requires h in s.handles ==> s.handles[h].OwnsAlone() || s.handles[h].IsStatic()
    ensures forall b: nat :: |Tagged(t.handles, b)| == |Tagged(s.handles, b)|
  {
    forall b: nat ensures |Tagged(t.handles, b)| == |Tagged(s.handles, b)| {
      TaggedUpdate(s.handles, h, t.handles[h], b);
    }
  }

  /** Allocations whose owner is untouched stay well owned. */
  lemma SameAllocs(s: State, t: State)
    requires Inv(s) && |s.mem| <= |t.mem|
    requires forall h | h in s.handles && s.handles[h].OwnsAlone() ::
               h in t.handles && t.handles[h].OwnsAlone() && t.handles[h].ptr.alloc == s.handles[h].ptr.alloc
    requires |s.blocks| <= |t.blocks|
    requires forall b: nat | b < |s.blocks| && s.blocks[b].count > 0 ::
               t.blocks[b].count > 0 && t.blocks[b].alloc == s.blocks[b].alloc
    ensures forall a: nat | a < |s.mem| && t.mem[a].owner == s.mem[a].owner :: AllocOk(t, a)
  {
    forall a: nat | a < |s.mem| && t.mem[a].owner == s.mem[a].owner ensures AllocOk(t, a) {
      assert AllocOk(s, a);
    }
  }

  ghost predicate SameBytes(s: State, t: State) {
    |s.mem| <= |t.mem| && forall a: nat | a < |s.mem| :: t.mem[a].bytes == s.mem[a].bytes
  }

  ghost predicate SameSizes(s: State, t: State) {
    |s.mem| <= |t.mem| && forall a: nat | a < |s.mem| :: |t.mem[a].bytes| == |s.mem[a].bytes|
  }

  /** Views depend only on the handles and the bytes. */
  lemma ViewsUpdate(s: State, t: State, h: nat)
    requires Inv(s) && SameBytes(s, t) && h in t.handles && t.handles == s.handles[h := t.handles[h]]
    ensures Views(t) == Views(s)[h := View(t, t.handles[h])]
  {
    hide HandleOk, BlockOk, AllocOk, Exclusive, FreesOk, SameBytes, View;
    forall j | j in s.handles && j != h ensures View(t, t.handles[j]) == View(s, s.handles[j]) {
      SameView(s, t, j, s.handles[j]);
    }
  }

  lemma SameView(s: State, t: State, j: nat, x: Handle)
    requires HandleOk(s, j, x) && SameBytes(s, t)
    ensures View(t, x) == View(s, x)
  {
  }

  lemma ViewsRemove(s: State, t: State, h: nat)
    requires Inv(s) && SameBytes(s, t) && t.handles == s.handles - {h}
    ensures Views(t) == Views(s) - {h}
  {
    forall j | j in t.handles ensures View(t, t.handles[j]) == View(s, s.handles[j]) {
      assert HandleOk(s, j, s.handles[j]);
    }
  }

  lemma ReleaseOk(s: State, h: nat)
    requires Inv(s) && h in s.handles
    ensures var t := Release(s, h); Inv(t) && Views(t) == Views(s) - {h}
  {
    var t := Release(s, h);
    assert HandleOk(s, h, s.handles[h]);
    assert Inv(t) by {
      if s.handles[h].OwnsAlone() || s.handles[h].IsStatic() { ReleaseUntagged(s, h); } else { ReleaseTagged(s, h); }
    }
    assert Views(t) == Views(s) - {h} by { ViewsRemove(s, t, h); }
  }

  lemma ReleaseUntagged(s: State, h: nat)
    requires Inv(s) && h in s.handles && (s.handles[h].OwnsAlone() || s.handles[h].IsStatic())
    ensures Inv(Release(s, h))
  {
    var t := Release(s, h);
    forall b: nat ensures |Tagged(t.handles, b)| == |Tagged(s.handles, b)| {
      TaggedRemove(s.handles, h, b);
    }
    forall a: nat | a < |s.mem| ensures AllocOk(t, a) { assert AllocOk(s, a); }
    forall j | j in t.handles ensures HandleOk(t, j, t.handles[j]) { assert HandleOk(s, j, s.handles[j]); }
  }

  lemma ReleaseTagged(s: State, h: nat)
    requires Inv(s) && h in s.handles && !s.handles[h].OwnsAlone() && !s.handles[h].IsStatic()
    ensures Inv(Release(s, h))
  {
    var t := Release(s, h);
    assert BlockOk(s, s.handles[h].data.block);
    ReleaseBlocks(s, h);
    ReleaseHandles(s, h);
    forall a: nat | a < |s.mem| ensures AllocOk(t, a) { assert AllocOk(s, a); }
  }

  lemma ReleaseHandles(s: State, h: nat)
    requires Inv(s) && h in s.handles && !s.handles[h].OwnsAlone() && !s.handles[h].IsStatic()
    ensures var t := Release(s, h); forall j | j in t.handles :: j < t.next && HandleOk(t, j, t.handles[j])
  {
    var t := Release(s, h);
    var c := s.handles[h].data.block;
    assert BlockOk(s, c);
    if s.blocks[c].count == 1 { OnlyTag(s, h, c); }
    forall j | j in t.handles ensures HandleOk(t, j, t.handles[j]) { assert HandleOk(s, j, s.handles[j]); }
  }

  lemma ReleaseBlocks(s: State, h: nat)
    requires Inv(s) && h in s.handles && !s.handles[h].OwnsAlone() && !s.handles[h].IsStatic()
    ensures var t := Release(s, h); forall b: nat | b < |t.blocks| && t.blocks[b].count > 0 :: BlockOk(t, b)
  {
    var t := Release(s, h);
    var c := s.handles[h].data.block;
    forall b: nat | b < |t.blocks| && t.blocks[b].count > 0 ensures BlockOk(t, b) {
      assert BlockOk(s, b);
      TaggedRemove(s.handles, h, b);
    }
  }

  lemma OnlyTag(s: State, h: nat, b: nat)
    requires h in s.handles && s.handles[h].TaggedWith(b) && |Tagged(s.handles, b)| == 1
    ensures Tagged(s.handles, b) == {h}
    ensures forall j | j in s.handles && s.handles[j].TaggedWith(b) :: j == h
  {
    var rest := Tagged(s.handles, b) - {h};
    assert |rest| == 0;
    assert Tagged(s.handles, b) == {h} + rest;
    forall j | j in s.handles && s.handles[j].TaggedWith(b) ensures j == h {
      assert j in Tagged(s.handles, b);
    }
  }

  /** The two records leave the same owner in charge of the same allocation. */
  ghost predicate SameCharge(x: Handle, y: Handle) {
    && x.ptr.alloc == y.ptr.alloc
    && ((x.OwnsAlone() && y.OwnsAlone())
        || (!x.OwnsAlone() && !y.OwnsAlone() && x.data == y.data))
  }

  /** `x` overlaps no other window on control block `b`, apart from read-only sharing. */
  ghost predicate Clear(s: State, h: nat, x: Handle, b: nat) {
    forall j {:trigger s.handles[j]} | j in s.handles && j != h && s.handles[j].TaggedWith(b) :: Apart(x, s.handles[j])
  }

  lemma ReshapeOk(s: State, h: nat, x: Handle)
    requires Inv(s) && h in s.handles
    requires SameCharge(s.handles[h], x) && HandleOk(s, h, x)
    requires !x.OwnsAlone() && x.data.Promoted? ==> Clear(s, h, x, x.data.block)
    ensures var t := Reshape(s, h, x); Inv(t) && Views(t) == Views(s)[h := View(s, x)]
  {
    var t := Reshape(s, h, x);
    assert Inv(t) by { ReshapeInv(s, h, x); }
    assert Views(t) == Views(s)[h := View(s, x)] by {
      ViewsUpdate(s, t, h);
      assert View(t, x) == View(s, x);
    }
  }

  lemma ReshapeBlocks(s: State, h: nat, x: Handle)
    requires Inv(s) && h in s.handles && SameCharge(s.handles[h], x)
    ensures var t := Reshape(s, h, x); forall b: nat | b < |t.blocks| && t.blocks[b].count > 0 :: BlockOk(t, b)
  {
    var t := Reshape(s, h, x);
    forall b: nat | b < |t.blocks| && t.blocks[b].count > 0 ensures BlockOk(t, b) {
      assert BlockOk(s, b);
      TaggedUpdate(s.handles, h, x, b);
    }
  }

  lemma ReshapeHandles(s: State, h: nat, x: Handle)
    requires Inv(s) && h in s.handles && SameCharge(s.handles[h], x) && HandleOk(s, h, x)
    ensures var t := Reshape(s, h, x); forall j | j in t.handles :: j < t.next && HandleOk(t, j, t.handles[j])
  {
    var t := Reshape(s, h, x);
    forall j | j in t.handles ensures HandleOk(t, j, t.handles[j]) {
      if j != h { assert HandleOk(s, j, s.handles[j]); }
    }
  }

  lemma ReshapeExclusive(s: State, h: nat, x: Handle)
    requires Inv(s) && h in s.handles && SameCharge(s.handles[h], x)
    requires !x.OwnsAlone() && x.data.Promoted? ==> Clear(s, h, x, x.data.block)
    ensures Exclusive(Reshape(s, h, x).handles)
  {
  }

  lemma ReshapeInv(s: State, h: nat, x: Handle)
    requires Inv(s) && h in s.handles
    requires SameCharge(s.handles[h], x) && HandleOk(s, h, x)
    requires !x.OwnsAlone() && x.data.Promoted? ==> Clear(s, h, x, x.data.block)
    ensures Inv(Reshape(s, h, x))
  {
    var t := Reshape(s, h, x);
    ReshapeBlocks(s, h, x);
    ReshapeHandles(s, h, x);
    ReshapeExclusive(s, h, x);
    SameAllocs(s, t);
    hide HandleOk, BlockOk, AllocOk, Exclusive;
  }

  /** A narrower window of the same kind, or a read-only one, collides with nothing new. */
  lemma NarrowClear(s: State, h: nat, x: Handle)
    requires Inv(s) && h in s.handles
    requires !x.OwnsAlone() && x.data.Promoted? && s.handles[h].TaggedWith(x.data.block)
    requires s.handles[h].Bytes? ==> x.Bytes?
    requires s.handles[h].ptr.off <= x.ptr.off
    requires x.ptr.off + x.Extent() <= s.handles[h].ptr.off + s.handles[h].Extent()
    ensures Clear(s, h, x, x.data.block)
  {
    forall j | j in s.handles && j != h && s.handles[j].TaggedWith(x.data.block)
      ensures Apart(x, s.handles[j])
    {
      assert Compatible(s.handles[h], s.handles[j]);
    }
  }

  /** With a count of one there is nothing to collide with. */
  lemma UniqueClear(s: State, h: nat, x: Handle, b: nat)
    requires Inv(s) && h in s.handles && s.handles[h].TaggedWith(b) && s.blocks[b].count == 1
    ensures Clear(s, h, x, b)
  {
    assert BlockOk(s, b);
    OnlyTag(s, h, b);
  }

  lemma PromoteOk(s: State, h: nat, x: Handle)
    requires Inv(s) && h in s.handles && s.handles[h].OwnsAlone()
    requires x.ptr.alloc == s.handles[h].ptr.alloc && x.TaggedWith(|s.blocks|)
    requires x.len <= x.Extent() && x.ptr.off + x.Extent() <= |s.mem[x.ptr.alloc].bytes|
    ensures var t := Promote(s, h, x); Inv(t) && Views(t) == Views(s)[h := View(s, x)]
  {
    var t := Promote(s, h, x);
    assert Inv(t) by { PromoteInv(s, h, x); }
    assert Views(t) == Views(s)[h := View(s, x)] by {
      ViewsUpdate(s, t, h);
      assert View(t, x) == View(s, x);
    }
  }

  lemma PromoteBlocks(s: State, h: nat, x: Handle)
    requires Inv(s) && h in s.handles && s.handles[h].OwnsAlone()
    requires x.ptr.alloc == s.handles[h].ptr.alloc && x.TaggedWith(|s.blocks|)
    requires x.len <= x.Extent() && x.ptr.off + x.Extent() <= |s.mem[x.ptr.alloc].bytes|
    ensures var t := Promote(s, h, x); forall b: nat | b < |t.blocks| && t.blocks[b].count > 0 :: BlockOk(t, b)
  {
    var t := Promote(s, h, x);
    var c := |s.blocks|;
    NoFutureTags(s);
    assert Tagged(s.handles, c) == {};
    forall b: nat | b < |t.blocks| && t.blocks[b].count > 0 ensures BlockOk(t, b) {
      TaggedUpdate(s.handles, h, x, b);
      if b < c { assert BlockOk(s, b); }
    }
  }

  lemma PromoteInv(s: State, h: nat, x: Handle)
    requires Inv(s) && h in s.handles && s.handles[h].OwnsAlone()
    requires x.ptr.alloc == s.handles[h].ptr.alloc && x.TaggedWith(|s.blocks|)
    requires x.len <= x.Extent() && x.ptr.off + x.Extent() <= |s.mem[x.ptr.alloc].bytes|
    ensures Inv(Promote(s, h, x))
  {
    var t := Promote(s, h, x);
    var c := |s.blocks|;
    forall j | j in s.handles ensures !s.handles[j].TaggedWith(c) { assert HandleOk(s, j, s.handles[j]); }
    PromoteBlocks(s, h, x);
    forall a: nat | a < |s.mem| ensures AllocOk(t, a) { assert AllocOk(s, a); }
    forall j | j in t.handles ensures HandleOk(t, j, t.handles[j]) {
      if j != h { assert HandleOk(s, j, s.handles[j]); }
    }
  }

  lemma DemoteOk(s: State, h: nat, b: nat, x: Handle)
    requires Inv(s) && h in s.handles && s.handles[h].TaggedWith(b) && s.blocks[b].count == 1
    requires x.ptr.alloc == s.handles[h].ptr.alloc && x.OwnsAlone() && x.len <= x.Extent()
    requires if x.Vec? then x.ptr.off == 0 else x.data.offset == x.ptr.off
    requires x.ptr.off + x.Extent() == |s.mem[x.ptr.alloc].bytes|
    ensures var t := Demote(s, h, b, x); Inv(t) && Views(t) == Views(s)[h := View(s, x)]
  {
    var t := Demote(s, h, b, x);
    assert Inv(t) by { DemoteInv(s, h, b, x); }
    assert Views(t) == Views(s)[h := View(s, x)] by {
      ViewsUpdate(s, t, h);
      assert View(t, x) == View(s, x);
    }
  }

  lemma DemoteBlocks(s: State, h: nat, b: nat, x: Handle)
    requires Inv(s) && h in s.handles && s.handles[h].TaggedWith(b) && s.blocks[b].count == 1
    requires x.ptr.alloc == s.handles[h].ptr.alloc && x.OwnsAlone() && x.len <= x.Extent()
    requires if x.Vec? then x.ptr.off == 0 else x.data.offset == x.ptr.off
    requires x.ptr.off + x.Extent() == |s.mem[x.ptr.alloc].bytes|
    ensures var t := Demote(s, h, b, x); forall c: nat | c < |t.blocks| && t.blocks[c].count > 0 :: BlockOk(t, c)
  {
    var t := Demote(s, h, b, x);
    assert BlockOk(s, b);
    OnlyTag(s, h, b);
    forall c: nat | c < |t.blocks| && t.blocks[c].count > 0 ensures BlockOk(t, c) {
      assert BlockOk(s, c);
      TaggedUpdate(s.handles, h, x, c);
    }
  }

  lemma DemoteInv(s: State, h: nat, b: nat, x: Handle)
    requires Inv(s) && h in s.handles && s.handles[h].TaggedWith(b) && s.blocks[b].count == 1
    requires x.ptr.alloc == s.handles[h].ptr.alloc && x.OwnsAlone() && x.len <= x.Extent()
    requires if x.Vec? then x.ptr.off == 0 else x.data.offset == x.ptr.off
    requires x.ptr.off + x.Extent() == |s.mem[x.ptr.alloc].bytes|
    ensures Inv(Demote(s, h, b, x))
  {
    var t := Demote(s, h, b, x);
    assert BlockOk(s, b);
    OnlyTag(s, h, b);
    DemoteBlocks(s, h, b, x);
    forall a: nat | a < |s.mem| ensures AllocOk(t, a) { assert AllocOk(s, a); }
    forall j | j in t.handles ensures HandleOk(t, j, t.handles[j]) {
      if j != h { assert HandleOk(s, j, s.handles[j]); }
    }
  }

  lemma ForkOk(s: State, b: nat, x: Handle)
    requires Inv(s) && b < |s.blocks| && s.blocks[b].count > 0
    requires x.TaggedWith(b) && HandleOk(s, s.next, x) && Clear(s, s.next, x, b)
    ensures var t := Fork(s, b, x); Inv(t) && Views(t) == Views(s)[s.next := View(s, x)]
  {
    var t := Fork(s, b, x);
    assert Inv(t) by { ForkInv(s, b, x); }
    assert Views(t) == Views(s)[s.next := View(s, x)] by {
      ViewsUpdate(s, t, s.next);
      assert View(t, x) == View(s, x);
    }
  }

  lemma ForkBlocks(s: State, b: nat, x: Handle)
    requires Inv(s) && b < |s.blocks| && s.blocks[b].count > 0
    requires x.TaggedWith(b) && HandleOk(s, s.next, x) && Clear(s, s.next, x, b)
    ensures var t := Fork(s, b, x); forall c: nat | c < |t.blocks| && t.blocks[c].count > 0 :: BlockOk(t, c)
  {
    var t := Fork(s, b, x);
    forall c: nat | c < |t.blocks| && t.blocks[c].count > 0 ensures BlockOk(t, c) {
      assert BlockOk(s, c);
      TaggedUpdate(s.handles, s.next, x, c);
    }
  }

  lemma ForkInv(s: State, b: nat, x: Handle)
    requires Inv(s) && b < |s.blocks| && s.blocks[b].count > 0
    requires x.TaggedWith(b) && HandleOk(s, s.next, x) && Clear(s, s.next, x, b)
    ensures Inv(Fork(s, b, x))
  {
    var t := Fork(s, b, x);
    ForkBlocks(s, b, x);
    forall a: nat | a < |s.mem| ensures AllocOk(t, a) { assert AllocOk(s, a); }
    forall j | j in t.handles ensures HandleOk(t, j, t.handles[j]) {
      if j != s.next { assert HandleOk(s, j, s.handles[j]); }
    }
  }

  lemma RenameOk(s: State, from: nat, to: nat)
    requires Inv(s) && from in s.handles && to !in s.handles
    ensures var t := Rename(s, from, to); Inv(t) && Views(t) == (Views(s) - {from})[to := View(s, s.handles[from])]
  {
    var t := Rename(s, from, to);
    assert HandleOk(s, from, s.handles[from]);
    assert Inv(t) by { RenameInv(s, from, to); }
    assert Views(t) == (Views(s) - {from})[to := View(s, s.handles[from])] by {
      forall j | j in s.handles ensures View(t, s.handles[j]) == View(s, s.handles[j]) {
        assert HandleOk(s, j, s.handles[j]);
      }
    }
  }

  lemma RenameBlocks(s: State, from: nat, to: nat)
    requires Inv(s) && from in s.handles && to !in s.handles
    ensures var t := Rename(s, from, to); forall b: nat | b < |t.blocks| && t.blocks[b].count > 0 :: BlockOk(t, b)
  {
    var t := Rename(s, from, to);
    var x := s.handles[from];
    assert HandleOk(s, from, x);
    forall b: nat | b < |t.blocks| && t.blocks[b].count > 0 ensures BlockOk(t, b) {
      assert BlockOk(s, b);
      TaggedRemove(s.handles, from, b);
      TaggedUpdate(s.handles - {from}, to, x, b);
    }
  }

  lemma RenameInv(s: State, from: nat, to: nat)
    requires Inv(s) && from in s.handles && to !in s.handles
    ensures Inv(Rename(s, from, to))
  {
    var t := Rename(s, from, to);
    var x := s.handles[from];
    assert HandleOk(s, from, x);
    RenameBlocks(s, from, to);
    forall a: nat | a < |s.mem| ensures AllocOk(t, a) { assert AllocOk(s, a); }
    forall j | j in t.handles ensures HandleOk(t, j, t.handles[j]) {
      if j != to { assert HandleOk(s, j, s.handles[j]); }
    }
  }

  /** The bytes written lie in the window of `h`, which is exclusive, or `h` is the only handle. */
  ghost predicate MayWrite(s: State, h: nat, p: Ptr, n: nat) {
    && h in s.handles
    && var x := s.handles[h];
    && p.alloc == x.ptr.alloc < |s.mem| && p.off + n <= |s.mem[p.alloc].bytes|
    && (x.OwnsAlone()
        || (x.data.Promoted? && x.data.block < |s.blocks| && s.blocks[x.data.block].count == 1)
        || (x.BytesMut? && x.ptr.off <= p.off && p.off + n <= x.ptr.off + x.cap))
  }

  /** Writing where `h` may write keeps the invariant and every other handle's bytes. */
  lemma PokeOk(s: State, h: nat, p: Ptr, data: seq<Byte>)
    requires Inv(s) && MayWrite(s, h, p, |data|)
    ensures var t := Poke(s, p, data); Inv(t)
    ensures var t := Poke(s, p, data); Views(t) == Views(s)[h := View(t, t.handles[h])]
  {
    var t := Poke(s, p, data);
    assert Inv(t) by {
      SameAllocs(s, t);
      forall b: nat | b < |t.blocks| && t.blocks[b].count > 0 ensures BlockOk(t, b) { assert BlockOk(s, b); }
      forall j | j in t.handles ensures HandleOk(t, j, t.handles[j]) { assert HandleOk(s, j, s.handles[j]); }
    }
    forall j | j in t.handles && j != h ensures View(t, t.handles[j]) == View(s, s.handles[j]) {
      PokeElsewhere(s, h, p, data, j);
    }
  }

  lemma PokeElsewhere(s: State, h: nat, p: Ptr, data: seq<Byte>, j: nat)
    requires Inv(s) && MayWrite(s, h, p, |data|) && j in s.handles && j != h
    ensures View(Poke(s, p, data), s.handles[j]) == View(s, s.handles[j])
  {
    var x, y := s.handles[h], s.handles[j];
    assert HandleOk(s, j, y) && HandleOk(s, h, x);
    if y.ptr.alloc == p.alloc && y.len > 0 {
      assert y.TaggedWith(x.data.block) by { assert AllocOk(s, p.alloc); }
      if s.blocks[x.data.block].count == 1 {
        assert BlockOk(s, x.data.block);
        OnlyTag(s, h, x.data.block);
      }
      assert Compatible(x, y);
    }
  }

  // ===== Sharing one buffer between two handles =====

  /** Counts one more handle on `h`'s buffer, promoting it first when `h` owned it alone; the new
      handle `s.next` starts as a copy of `h`. */
  function Share(s: State, h: nat): State
    requires Inv(s) && h in s.handles && !s.handles[h].Vec?
  {
    var x := s.handles[h];
    match x.data
    case Static => AddStatic(s, s.next, x.ptr, x.len)
    case Promoted(b) => Fork(s, b, x)
    case Unpromoted(_) =>
      var y := x.WithData(Promoted(|s.blocks|));
      Fork(Promote(s, h, y), |s.blocks|, y)
  }

  /** `Share`, then `h` and the new handle narrowed to `x` and `y`. */
  function Split(s: State, h: nat, x: Handle, y: Handle): State
    requires Inv(s) && h in s.handles && !s.handles[h].Vec?
  {
    var t := Share(s, h);
    t.(handles := t.handles[h := x][s.next := y])
  }

  function BlockOf(s: State, x: Handle): nat
    requires !x.Vec?
  {
    if x.data.Promoted? then x.data.block else |s.blocks|
  }

  ghost predicate PartOf(s: State, x: Handle, part: Handle)
    requires !x.Vec?
  {
    && part.TaggedWith(BlockOf(s, x)) && (part.Bytes? <==> x.Bytes?)
    && part.ptr.alloc == x.ptr.alloc && x.ptr.off <= part.ptr.off && part.len <= part.Extent()
    && part.ptr.off + part.Extent() <= x.ptr.off + x.Extent()
  }

  lemma SplitOk(s: State, h: nat, x: Handle, y: Handle)
    requires Inv(s) && h in s.handles && !s.handles[h].Vec? && !s.handles[h].data.Static?
    requires PartOf(s, s.handles[h], x) && PartOf(s, s.handles[h], y) && Apart(x, y)
    ensures var t := Split(s, h, x, y);
            Inv(t) && Views(t) == Views(s)[h := View(s, x)][s.next := View(s, y)]
  {
    var b := BlockOf(s, s.handles[h]);
    assert HandleOk(s, h, s.handles[h]);
    var u := FirstHalf(s, h, x, y);
    ForkOk(u, b, y);
    SplitIsFork(s, h, x, y, u);
    assert View(u, y) == View(s, y);
  }

  lemma SplitIsFork(s: State, h: nat, x: Handle, y: Handle, u: State)
    requires Inv(s) && h in s.handles && !s.handles[h].Vec? && !s.handles[h].data.Static?
    requires x.ptr.alloc == s.handles[h].ptr.alloc && HandleOk(s, h, s.handles[h])
    requires u == if s.handles[h].data.Promoted? then Reshape(s, h, x) else Promote(s, h, x)
    ensures Split(s, h, x, y) == Fork(u, BlockOf(s, s.handles[h]), y)
  {
    assert h < s.next;
    assert Split(s, h, x, y).handles == Fork(u, BlockOf(s, s.handles[h]), y).handles;
  }

  /** The state once `h` is promoted and narrowed to `x`; `y` may then join it. */
  lemma FirstHalf(s: State, h: nat, x: Handle, y: Handle) returns (u: State)
    requires Inv(s) && h in s.handles && !s.handles[h].Vec? && !s.handles[h].data.Static?
    requires PartOf(s, s.handles[h], x) && PartOf(s, s.handles[h], y) && Apart(x, y)
    ensures u == if s.handles[h].data.Promoted? then Reshape(s, h, x) else Promote(s, h, x)
    ensures var b := BlockOf(s, s.handles[h]);
            && Inv(u) && Views(u) == Views(s)[h := View(s, x)] && b < |u.blocks| && u.blocks[b].count > 0
            && HandleOk(u, u.next, y) && Clear(u, u.next, y, b)
  {
    assert HandleOk(s, h, s.handles[h]);
    if s.handles[h].data.Promoted? {
      u := Reshape(s, h, x);
      NarrowClear(s, h, x);
      NarrowClear(s, h, y);
      ReshapeOk(s, h, x);
    } else {
      u := Promote(s, h, x);
      PromoteOk(s, h, x);
      NoFutureTags(s);
    }
  }

  lemma NoFutureTags(s: State)
    requires Inv(s)
    ensures forall j | j in s.handles :: !s.handles[j].TaggedWith(|s.blocks|)
  {
    forall j | j in s.handles ensures !s.handles[j].TaggedWith(|s.blocks|) {
      assert HandleOk(s, j, s.handles[j]);
    }
  }

  // ===== What the invariant says =====

  /** Bytes just written are the bytes read back. */
  lemma PokedCells(s: State, p: Ptr, data: seq<Byte>)
    requires p.alloc < |s.mem| && p.off + |data| <= |s.mem[p.alloc].bytes|
    ensures Cells(Poke(s, p, data), p, |data|) == data
  {
  }

  /** Bytes before and after the written place stay. */
  lemma UnpokedCells(s: State, p: Ptr, data: seq<Byte>, q: Ptr, n: nat)
    requires p.alloc < |s.mem| && p.off + |data| <= |s.mem[p.alloc].bytes|
    requires q.alloc != p.alloc || q.off + n <= p.off || p.off + |data| <= q.off
    ensures Cells(Poke(s, p, data), q, n) == Cells(s, q, n)
  {
  }

  lemma SameCells(s: State, t: State, p: Ptr, n: nat)
    requires SameBytes(s, t) && p.alloc < |s.mem|
    ensures Cells(s, p, n) == Cells(t, p, n)
  {
  }

  lemma CellsJoin(s: State, p: Ptr, n: nat, k: nat)
    requires p.alloc < |s.mem| && p.off + n + k <= |s.mem[p.alloc].bytes|
    ensures Cells(s, p, n + k) == Cells(s, p, n) + Cells(s, Ptr(p.alloc, p.off + n), k)
  {
  }

  /** What holds of one handle. */
  lemma Facts(s: State, h: nat)
    requires Inv(s) && h in s.handles
    ensures h < s.next && HandleOk(s, h, s.handles[h]) && Views(s).Keys == s.handles.Keys
    ensures Views(s)[h] == View(s, s.handles[h]) && |Views(s)[h].bytes| == s.handles[h].len
    ensures !s.handles[h].Vec? && s.handles[h].data.Promoted? ==> BlockOk(s, s.handles[h].data.block)
  {
  }

  lemma Fresh(s: State)
    requires Inv(s)
    ensures s.next !in s.handles && Views(s).Keys == s.handles.Keys
  {
  }

  /** A narrower view shows a slice of the wider one. */
  lemma Subview(s: State, h: nat, y: Handle, d: nat, e: nat)
    requires Inv(s) && h in s.handles
    requires y.ptr == Ptr(s.handles[h].ptr.alloc, s.handles[h].ptr.off + d) && e == d + y.len <= s.handles[h].len
    ensures e <= |Views(s)[h].bytes| && Cells(s, y.ptr, y.len) == Views(s)[h].bytes[d..e]
  {
    Bounds(s, h);
    hide Inv, Views, Cells;
    var x := s.handles[h];
    if x.len > 0 {
      CellsOfCells(s, x.ptr, x.len, y.ptr, y.len, d, e);
    } else {
      NoCells(s, y.ptr);
      NoCells(s, x.ptr);
    }
  }

  /** The view of a handle lies inside its allocation. */
  lemma Bounds(s: State, h: nat)
    requires Inv(s) && h in s.handles
    ensures var x := s.handles[h];
            && h in Views(s) && Views(s)[h].bytes == Cells(s, x.ptr, x.len) && |Views(s)[h].bytes| == x.len
            && (x.len > 0 ==> x.ptr.alloc < |s.mem| && x.ptr.off + x.len <= |s.mem[x.ptr.alloc].bytes|)
  {
    Facts(s, h);
  }

  lemma CellsOfCells(s: State, p: Ptr, n: nat, q: Ptr, k: nat, d: nat, e: nat)
    requires p.alloc < |s.mem| && p.off + n <= |s.mem[p.alloc].bytes|
    requires q.alloc == p.alloc && q.off == p.off + d && e == d + k <= n
    ensures |Cells(s, p, n)| == n && Cells(s, q, k) == Cells(s, p, n)[d..e]
  {
    SliceOfSlice(s.mem[p.alloc].bytes, p.off, p.off + n, d, e, q.off, q.off + k);
  }

  lemma NoCells(s: State, p: Ptr)
    ensures Cells(s, p, 0) == []
  {
  }

  lemma SliceOfSlice(m: seq<Byte>, a: nat, b: nat, c: nat, d: nat, lo: nat, hi: nat)
    requires a <= b <= |m| && c <= d <= b - a && lo == a + c && hi == a + d
    ensures m[a..b][c..d] == m[lo..hi]
  {
    var l, r := m[a..b][c..d], m[lo..hi];
    forall i | 0 <= i < |l| ensures l[i] == r[i] { assert m[a..b][c + i] == m[lo + i]; }
  }

  /** The handles that keep allocation `a` alive. */
  ghost function Keepers(s: State, a: nat): set<nat> {
    set h | h in s.handles && !s.handles[h].IsStatic() && s.handles[h].ptr.alloc == a
  }

  ghost predicate LiveBlock(s: State, b: nat, a: nat) {
    b < |s.blocks| && s.blocks[b].count > 0 && s.blocks[b].alloc == a
  }

  /** A heap allocation is live exactly while some handle keeps it: it is never freed earlier and
      never leaked. */
  lemma LiveIffKept(s: State, a: nat)
    requires Inv(s) && a < |s.mem| && !s.mem[a].owner.Immortal?
    ensures a !in s.frees <==> Keepers(s, a) != {}
  {
    assert AllocOk(s, a);
    if h :| h in Keepers(s, a) {
      assert HandleOk(s, h, s.handles[h]);
      if !s.handles[h].OwnsAlone() { assert BlockOk(s, s.handles[h].data.block); }
    }
    match s.mem[a].owner
    case Sole(h) => assert h in Keepers(s, a);
    case Counted(b) =>
      assert BlockOk(s, b);
      TaggedAreKeepers(s, b);
    case _ =>
  }

  lemma TaggedAreKeepers(s: State, b: nat)
    requires Inv(s) && b < |s.blocks| && s.blocks[b].count > 0
    ensures Keepers(s, s.blocks[b].alloc) == Tagged(s.handles, b)
  {
    var a := s.blocks[b].alloc;
    assert BlockOk(s, b);
    forall h | h in s.handles ensures h in Keepers(s, a) <==> s.handles[h].TaggedWith(b) {
      assert HandleOk(s, h, s.handles[h]);
      if h in Keepers(s, a) && !s.handles[h].OwnsAlone() { assert BlockOk(s, s.handles[h].data.block); }
    }
  }

  /** Every live heap allocation has exactly one owner: a single vector or unpromoted handle, or
      one control block whose count is the number of live handles on the allocation. */
  lemma ExactlyOneOwner(s: State, a: nat)
    requires Inv(s) && a < |s.mem| && !s.mem[a].owner.Immortal? && a !in s.frees
    ensures (exists h :: Keepers(s, a) == {h} && s.handles[h].OwnsAlone() && forall b: nat :: !LiveBlock(s, b, a))
            || (exists b: nat :: && LiveBlock(s, b, a) && (forall c: nat | LiveBlock(s, c, a) :: c == b)
                            && s.blocks[b].count == |Keepers(s, a)| && s.blocks[b].cap == |s.mem[a].bytes|
                            && forall h | h in Keepers(s, a) :: s.handles[h].TaggedWith(b))
  {
    assert AllocOk(s, a);
    forall b: nat | LiveBlock(s, b, a) ensures s.mem[a].owner == Counted(b) { assert BlockOk(s, b); }
    match s.mem[a].owner
    case Sole(h) =>
      forall j | j in Keepers(s, a) ensures j == h {
        assert HandleOk(s, j, s.handles[j]);
        assert s.handles[j].OwnsAlone() || LiveBlock(s, s.handles[j].data.block, a);
      }
      assert Keepers(s, a) == {h};
    case Counted(b) =>
      TaggedAreKeepers(s, b);
      assert BlockOk(s, b) && LiveBlock(s, b, a);
    case _ =>
  }

  /** No byte of the window of a mutable handle is in the window of any other handle. */
  lemma ExclusiveWindows(s: State, h: nat, o: nat)
    requires Inv(s) && h in s.handles && o in s.handles && h != o && !s.handles[h].Bytes?
    requires s.handles[h].ptr.alloc == s.handles[o].ptr.alloc
    ensures var x, y := s.handles[h], s.handles[o];
            || x.Extent() == 0 || y.Extent() == 0
            || x.ptr.off + x.Extent() <= y.ptr.off || y.ptr.off + y.Extent() <= x.ptr.off
  {
    var x, y := s.handles[h], s.handles[o];
    assert HandleOk(s, h, x) && HandleOk(s, o, y);
    if !x.OwnsAlone() { assert BlockOk(s, x.data.block); }
    if !y.OwnsAlone() && !y.IsStatic() {
      assert BlockOk(s, y.data.block);
      assert Compatible(x, y);
    }
  }

  /** With no handle left nothing is left allocated, and each deallocation happened once. */
  lemma NothingLeaks(s: State)
    requires Inv(s) && s.handles == map[]
    ensures forall b: nat | b < |s.blocks| :: s.blocks[b].count == 0
    ensures forall a: nat | a < |s.mem| && !s.mem[a].owner.Immortal? :: multiset(s.frees)[a] == 1
  {
    forall b: nat | b < |s.blocks| ensures s.blocks[b].count == 0 {
      assert Tagged(s.handles, b) == {};
      assert s.blocks[b].count > 0 ==> BlockOk(s, b);
    }
    forall a: nat | a < |s.mem| && !s.mem[a].owner.Immortal? ensures multiset(s.frees)[a] == 1 {
      LiveIffKept(s, a);
      CountOnce(s.frees, a);
    }
  }

  lemma {:induction false} CountOnce(xs: seq<nat>, a: nat)
    requires a in xs && forall i, j | 0 <= i < j < |xs| :: xs[i] != xs[j]
    ensures multiset(xs)[a] == 1
  {
    var x, tail := xs[0], xs[1..];
    assert xs == [x] + tail;
    if x == a {
      assert a !in tail;
    } else {
      CountOnce(tail, a);
    }
  }
}
