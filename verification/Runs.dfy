/** Whole runs: whatever sequence of operations a program performs, its handles behave as if each
    owned a private sequence of bytes. */
module Runs {
  import opened Basics
  import opened Buffers
  import opened Cursors
  import opened Heap
  import Transfer

  datatype Op =
    | NewVec(data: seq<Byte>)
    | NewStatic(data: seq<Byte>)
    | NewMut(capacity: nat)
    | VecIntoBytes(h: nat)
    | VecIntoMut(h: nat)
    | Clone(h: nat)
    | Slice(h: nat, lo: Bound, hi: Bound)
    | SliceRaw(h: nat, delta: int, n: nat)
    | Truncate(h: nat, n: nat)
    | TruncateOff(h: nat, n: nat)
    | Clear(h: nat)
    | Advance(h: nat, n: nat)
    | SplitTo(h: nat, n: nat)
    | SplitOff(h: nat, n: nat)
    | IntoVec(h: nat)
    | IntoMut(h: nat)
    | Freeze(h: nat)
    | Extend(h: nat, data: seq<Byte>)
    | Overwrite(h: nat, at: nat, data: seq<Byte>)
    | Reserve(h: nat, n: nat)
    | Reclaim(h: nat, n: nat)
    | ReclaimFull(h: nat)
    | Unsplit(h: nat, o: nat)
    | TryUnsplit(h: nat, o: nat)
    | DropHandle(h: nat)
    | Put(h: nat, src: Transfer.Src, owned: set<nat>)   // the leaves in `owned` are passed by value
    | CopyToBytes(src: Transfer.Src, n: nat)

  /** What an operation leaves to the memory: the name of a handle it makes, and whether a call
      whose answer depends on capacity or position said yes; for `put`, that there is no capacity. */
  datatype Choice = Choice(name: nat, yes: bool)

  type World = map<nat, Value>

  predicate HasBytes(w: World, h: nat) { h in w && w[h].Frozen? }

  predicate HasMut(w: World, h: nat) { h in w && w[h].Mutable? }

  predicate HasVec(w: World, h: nat) { h in w && w[h].Owned? }

  /** The meaning of an operation when every handle owns its bytes.  A call out of range panics
      before it changes anything, and a call on a handle of another type does not compile; both
      leave the world as it is. */
  ghost function Apply(w: World, op: Op, c: Choice): World {
    match op
    case NewVec(data) => w[c.name := Owned(data)]
    case NewStatic(data) => w[c.name := Frozen(data)]
    case NewMut(_) => w[c.name := Mutable([])]
    case VecIntoBytes(h) => if HasVec(w, h) then w[h := Frozen(w[h].bytes)] else w
    case VecIntoMut(h) => if HasVec(w, h) then w[h := Mutable(w[h].bytes)] else w
    case Clone(h) => if HasBytes(w, h) || HasMut(w, h) then w[c.name := w[h]] else w
    case Slice(h, lo, hi) =>
      if HasBytes(w, h) && RangeStart(lo) <= RangeEnd(hi, |w[h].bytes|) <= |w[h].bytes|
      then w[c.name := Frozen(w[h].bytes[RangeStart(lo)..RangeEnd(hi, |w[h].bytes|)])] else w
    case SliceRaw(h, delta, n) =>
      if HasBytes(w, h) && 0 <= delta && delta + n <= |w[h].bytes|
      then w[c.name := Frozen(w[h].bytes[delta..delta + n])] else w
    case Truncate(h, n) =>
      if HasBytes(w, h) || HasMut(w, h) then w[h := Like(w[h], w[h].bytes[..Min(n, |w[h].bytes|)])] else w
    case TruncateOff(h, n) =>
      if (HasBytes(w, h) || HasMut(w, h)) && n <= |w[h].bytes|
      then w[h := Like(w[h], w[h].bytes[..|w[h].bytes| - n])] else w
    case Clear(h) => if HasBytes(w, h) || HasMut(w, h) then w[h := Like(w[h], [])] else w
    case Advance(h, n) =>
      if (HasBytes(w, h) || HasMut(w, h)) && n <= |w[h].bytes| then w[h := Like(w[h], w[h].bytes[n..])] else w
    case SplitTo(h, n) =>
      if (HasBytes(w, h) || HasMut(w, h)) && n <= |w[h].bytes|
      then w[h := Like(w[h], w[h].bytes[n..])][c.name := Like(w[h], w[h].bytes[..n])] else w
    case SplitOff(h, n) =>
      if (HasBytes(w, h) || HasMut(w, h)) && n <= |w[h].bytes|
      then w[h := Like(w[h], w[h].bytes[..n])][c.name := Like(w[h], w[h].bytes[n..])]
      else if HasMut(w, h) && c.yes then w[c.name := Mutable([])]  // a cut in the spare room
      else w
    case IntoVec(h) => if HasBytes(w, h) then w[h := Owned(w[h].bytes)] else w
    case IntoMut(h) => if HasBytes(w, h) then w[h := Mutable(w[h].bytes)] else w
    case Freeze(h) => if HasMut(w, h) then w[h := Frozen(w[h].bytes)] else w
    case Extend(h, data) => if HasMut(w, h) then w[h := Mutable(w[h].bytes + data)] else w
    case Overwrite(h, at, data) =>
      if HasMut(w, h) && at + |data| <= |w[h].bytes|
      then w[h := Mutable(w[h].bytes[..at] + data + w[h].bytes[at + |data|..])] else w
    case Reserve(_, _) => w
    case Reclaim(_, _) => w
    case ReclaimFull(_) => w
    case Unsplit(h, o) =>
      if HasMut(w, h) && HasMut(w, o) && h != o then (w - {o})[h := Mutable(w[h].bytes + w[o].bytes)] else w
    case TryUnsplit(h, o) =>
      if HasMut(w, h) && HasMut(w, o) && h != o && c.yes then (w - {o})[h := Mutable(w[h].bytes + w[o].bytes)] else w
    case DropHandle(h) => w - {h}
    case Put(h, src, owned) =>
      if HasMut(w, h) && Offers(w, src) && h !in Transfer.Handles(src) && owned <= Transfer.Handles(src)
      then Poured(w, h, src, c.yes) - owned else w
    case CopyToBytes(src, n) =>
      if Offers(w, src) && n <= |Offered(w, src)| && n <= USIZE_MAX && !Transfer.Overflows(Transfer.Resolve(w, src), n)
      then Transfer.Spent(w, src, n)[c.name := Frozen(Offered(w, src)[..n])] else w
  }

  /** A cursor over distinct readable handles, each of a length that fits a machine word. */
  ghost predicate Offers(w: World, src: Transfer.Src) {
    Transfer.Readable(w, src) && Sane(Transfer.Resolve(w, src))
  }

  /** The bytes that a cursor reads. */
  ghost function Offered(w: World, src: Transfer.Src): seq<Byte> { Content(Transfer.Resolve(w, src)) }

  /** What `src` offers goes behind what `h` has.  A buffer without capacity asks for all of it at
      once, which may overflow. */
  ghost function Poured(w: World, h: nat, src: Transfer.Src, empty: bool): World
    requires h in w
  {
    var t := Transfer.Resolve(w, src);
    var k := Transfer.Asked(if empty then 0 else 1, t);
    if empty && Transfer.Overflows(t, k) then w
    else Transfer.Spent(w, src, k)[h := Mutable(w[h].bytes + Content(t)[..k])]
  }

  ghost function After(w: World, ops: seq<Op>, choices: seq<Choice>): World
    requires |ops| == |choices|
  {
    if ops == [] then w
    else
      var k := |ops| - 1;
      Apply(After(w, ops[..k], choices[..k]), ops[k], choices[k])
  }

  /** No step reuses a name that is taken. */
  ghost predicate FreshNames(w: World, ops: seq<Op>, choices: seq<Choice>)
    requires |ops| == |choices|
  {
    forall i | 0 <= i < |ops| :: choices[i].name !in After(w, ops[..i], choices[..i])
  }

  lemma Kinds(m: Memory)
    requires Inv(m.Now())
    ensures m.Seen().Keys == m.handles.Keys
    ensures forall h | h in m.handles ::
              && (m.handles[h].Bytes? <==> m.Seen()[h].Frozen?) && (m.handles[h].BytesMut? <==> m.Seen()[h].Mutable?)
              && (m.handles[h].Vec? <==> m.Seen()[h].Owned?) && |m.Seen()[h].bytes| == m.handles[h].len
    ensures m.next !in m.handles
  {
    Fresh(m.Now());
    forall h | h in m.handles ensures |m.Seen()[h].bytes| == m.handles[h].len { Facts(m.Now(), h); }
  }

  method DoNew(m: Memory, op: Op) returns (c: Choice)
    requires Inv(m.Now()) && (op.NewVec? || op.NewStatic? || op.NewMut? || op.VecIntoBytes? || op.VecIntoMut?)
    modifies m
    ensures Inv(m.Now()) && c.name !in old(m.Seen()) && m.Seen() == Apply(old(m.Seen()), op, c)
  {
    hide Inv, Views, Cells;
    Kinds(m);
    c := Choice(m.next, true);
    match op {
      case NewVec(data) => var n := m.ToVec(data);
      case NewStatic(data) => var n := m.FromStatic(data);
      case NewMut(capacity) => var n := m.MutWithCapacity(capacity);
      case VecIntoBytes(h) => if h in m.handles && m.handles[h].Vec? { m.BytesFromVec(h); }
      case VecIntoMut(h) => if h in m.handles && m.handles[h].Vec? { m.MutFromVec(h); }
    }
  }

  /** Operations on a `Bytes`. */
  method DoBytes(m: Memory, op: Op, h: nat) returns (c: Choice)
    requires Inv(m.Now()) && m.IsBytes(h) && (op.Clone? || BytesOnly(op)) && op.h == h
    modifies m
    ensures Inv(m.Now()) && c.name !in old(m.Seen()) && m.Seen() == Apply(old(m.Seen()), op, c)
  {
    hide Inv, Views, Cells, Unique;
    Kinds(m);
    c := Choice(m.next, false);
    match op {
      case Clone(_) => var n := m.CloneInner(h);
      case Slice(_, lo, hi) => var r := m.SliceBound(h, lo, hi);
      case SliceRaw(_, delta, n) => var r := m.SliceFromRaw(h, delta, n);
      case IntoVec(_) => m.IntoVec(h);
      case IntoMut(_) => m.IntoMut(h);
    }
  }

  /** Operations on a `Bytes` that move the ends of its view. */
  method DoBytesEnds(m: Memory, op: Op, h: nat) returns (c: Choice)
    requires Inv(m.Now()) && m.IsBytes(h) && EndsOp(op) && op.h == h
    modifies m
    ensures Inv(m.Now()) && c.name !in old(m.Seen()) && m.Seen() == Apply(old(m.Seen()), op, c)
  {
    hide Inv, Views, Cells, Release;
    Kinds(m);
    c := Choice(m.next, false);
    match op {
      case Truncate(_, n) => m.TruncateBytes(h, n);
      case TruncateOff(_, n) => m.TruncateOffBytes(h, n);
      case Clear(_) => m.ClearBytes(h);
      case Advance(_, n) => var ok := m.AdvanceBytes(h, n);
      case SplitTo(_, n) => var r := m.TrySplitToBytes(h, n);
      case SplitOff(_, n) => var r := m.TrySplitOffBytes(h, n);
    }
  }

  /** Operations on a `BytesMut` that move the ends of its view. */
  method DoMut(m: Memory, op: Op, h: nat) returns (c: Choice)
    requires Inv(m.Now()) && m.IsMut(h) && EndsOp(op) && op.h == h
    modifies m
    ensures Inv(m.Now()) && c.name !in old(m.Seen()) && m.Seen() == Apply(old(m.Seen()), op, c)
  {
    hide Inv, Views, Cells;
    Kinds(m);
    c := Choice(m.next, false);
    match op {
      case Truncate(_, n) => m.TruncateMut(h, n);
      case TruncateOff(_, n) =>
        var len := m.handles[h].len;
        if n <= len { m.TruncateMut(h, len - n); }
      case Clear(_) =>
        assert m.Seen()[h].bytes[..0] == [];
        m.TruncateMut(h, 0);
      case Advance(_, n) => var ok := m.AdvanceMut(h, n);
      case SplitTo(_, n) => var r := m.TrySplitTo(h, n);
      case SplitOff(_, n) =>
        var yes := CutMut(m, h, n);
        c := Choice(c.name, yes);
    }
  }

  /** `split_off` of a `BytesMut`, which may also cut in the spare room. */
  method CutMut(m: Memory, h: nat, n: nat) returns (yes: bool)
    requires Inv(m.Now()) && m.IsMut(h)
    modifies m
    ensures Inv(m.Now()) && h in old(m.Seen()) && (n <= |old(m.Seen())[h].bytes| ==> yes)
    ensures var w, view := old(m.Seen()), old(m.Seen())[h].bytes;
            m.Seen() == if !yes then w
                        else if n <= |view| then w[h := Mutable(view[..n])][old(m.next) := Mutable(view[n..])]
                        else w[old(m.next) := Mutable([])]
  {
    hide Inv, Views, Cells;
    Facts(m.Now(), h);
    ghost var w := m.Seen();
    ghost var view := w[h].bytes;
    Shown(m.Now(), h);
    assert view[..|view|] == view && view[|view|..] == [] && w[h := Mutable(view)] == w;
    var r := m.TrySplitOff(h, n);
    yes := r.Some?;
  }

  /** Operations on a `BytesMut` that copy, grow or convert. */
  method DoRoom(m: Memory, op: Op, h: nat) returns (c: Choice)
    requires Inv(m.Now()) && m.IsMut(h) && (op.Clone? || MutOnly(op)) && op.h == h
    modifies m
    ensures Inv(m.Now()) && c.name !in old(m.Seen()) && m.Seen() == Apply(old(m.Seen()), op, c)
  {
    hide Inv, Views, Cells;
    Kinds(m);
    c := Choice(m.next, false);
    if op.Clone? {
      CloneMut(m, h);
    } else if op.Freeze? {
      m.Freeze(h);
    } else if op.Extend? {
      m.ExtendFromSlice(h, op.data);
    } else if op.Overwrite? {
      var ok := m.Overwrite(h, op.at, op.data);
    } else {
      MakeRoom(m, op, h);
    }
  }

  /** A `BytesMut` is cloned by copying. */
  method CloneMut(m: Memory, h: nat)
    requires Inv(m.Now()) && m.IsMut(h)
    modifies m
    ensures Inv(m.Now()) && h in old(m.Seen()) && m.Seen() == old(m.Seen())[old(m.next) := old(m.Seen())[h]]
  {
    hide Inv, Views, Cells;
    Kinds(m);
    Facts(m.Now(), h);
    var x := m.handles[h];
    var data := m.Read(x.ptr, x.len);
    var n := m.MutCopyFromSlice(data);
  }

  method MakeRoom(m: Memory, op: Op, h: nat)
    requires Inv(m.Now()) && m.IsMut(h) && (op.Reserve? || op.Reclaim? || op.ReclaimFull?)
    modifies m
    ensures Inv(m.Now()) && m.Seen() == old(m.Seen())
  {
    hide Inv, Views, Cells, Unique, Keepers;
    match op {
      case Reserve(_, n) => m.Reserve(h, n);
      case Reclaim(_, n) => var ok := m.TryReclaim(h, n);
      case ReclaimFull(_) => var ok := m.TryReclaimFull(h);
    }
  }

  method DoPair(m: Memory, op: Op, h: nat, o: nat) returns (c: Choice)
    requires Inv(m.Now()) && m.IsMut(h) && m.IsMut(o) && h != o
    requires op == Unsplit(h, o) || op == TryUnsplit(h, o)
    modifies m
    ensures Inv(m.Now()) && c.name !in old(m.Seen()) && m.Seen() == Apply(old(m.Seen()), op, c)
  {
    hide Inv, Views, Cells;
    Kinds(m);
    c := Choice(m.next, true);
    if op.Unsplit? {
      m.Unsplit(h, o);
    } else {
      var ok := m.TryUnsplit(h, o);
      c := Choice(c.name, ok);
    }
  }

  /** `freeze`, growth: operations of a `BytesMut` alone. */
  predicate MutOnly(op: Op) {
    op.Freeze? || op.Extend? || op.Overwrite? || op.Reserve? || op.Reclaim? || op.ReclaimFull?
  }

  predicate BytesOnly(op: Op) { op.Slice? || op.SliceRaw? || op.IntoVec? || op.IntoMut? }

  predicate EndsOp(op: Op) {
    op.Truncate? || op.TruncateOff? || op.Clear? || op.Advance? || op.SplitTo? || op.SplitOff?
  }

  /** An operation of the two buffer types on one handle. */
  predicate Single(op: Op) { op.Clone? || MutOnly(op) || BytesOnly(op) || EndsOp(op) }

  lemma NotBytes(w: World, op: Op, c: Choice)
    requires MutOnly(op) && op.h in w && w[op.h].Frozen?
    ensures Apply(w, op, c) == w
  {
  }

  lemma NotMut(w: World, op: Op, c: Choice)
    requires BytesOnly(op) && op.h in w && w[op.h].Mutable?
    ensures Apply(w, op, c) == w
  {
  }

  lemma Neither(w: World, op: Op, c: Choice)
    requires Single(op) && (op.h in w ==> w[op.h].Owned?)
    ensures Apply(w, op, c) == w
  {
  }

  method DoOnBytes(m: Memory, op: Op, h: nat) returns (c: Choice)
    requires Inv(m.Now()) && m.IsBytes(h) && Single(op) && op.h == h
    modifies m
    ensures Inv(m.Now()) && c.name !in old(m.Seen()) && m.Seen() == Apply(old(m.Seen()), op, c)
  {
    hide Inv, Views, Cells, Apply;
    Kinds(m);
    c := Choice(m.next, false);
    if EndsOp(op) {
      c := DoBytesEnds(m, op, h);
    } else if !MutOnly(op) {
      c := DoBytes(m, op, h);
    } else {
      NotBytes(m.Seen(), op, c);
    }
  }

  method DoOnMut(m: Memory, op: Op, h: nat) returns (c: Choice)
    requires Inv(m.Now()) && m.IsMut(h) && Single(op) && op.h == h
    modifies m
    ensures Inv(m.Now()) && c.name !in old(m.Seen()) && m.Seen() == Apply(old(m.Seen()), op, c)
  {
    hide Inv, Views, Cells, Apply;
    Kinds(m);
    c := Choice(m.next, false);
    if EndsOp(op) {
      c := DoMut(m, op, h);
    } else if !BytesOnly(op) {
      c := DoRoom(m, op, h);
    } else {
      NotMut(m.Seen(), op, c);
    }
  }

  /** An operation on one handle; a handle of the wrong type, or none, changes nothing. */
  method DoOne(m: Memory, op: Op, h: nat) returns (c: Choice)
    requires Inv(m.Now()) && Single(op) && op.h == h
    modifies m
    ensures Inv(m.Now()) && c.name !in old(m.Seen()) && m.Seen() == Apply(old(m.Seen()), op, c)
  {
    hide Inv, Views, Cells, Apply;
    if h in m.handles && m.handles[h].Bytes? {
      c := DoOnBytes(m, op, h);
    } else if h in m.handles && m.handles[h].BytesMut? {
      c := DoOnMut(m, op, h);
    } else {
      Kinds(m);
      c := Choice(m.next, false);
      Neither(m.Seen(), op, c);
    }
  }

  /** `put` with a source of any shape. */
  method DoPut(m: Memory, op: Op) returns (c: Choice)
    requires Inv(m.Now()) && op.Put?
    modifies m
    ensures Inv(m.Now()) && c.name !in old(m.Seen()) && m.Seen() == Apply(old(m.Seen()), op, c)
  {
    hide Inv, Views, Cells, Content, Transfer.Resolve, Transfer.Spent, Transfer.Full, Sane, Transfer.Overflows;
    hide Transfer.Readable, Transfer.Sound, Transfer.Handles, Transfer.SaneNow, Transfer.TakesOver;
    Kinds(m);
    c := Choice(m.next, false);
    var h, src, owned := op.h, op.src, op.owned;
    Transfer.SoundReadable(m.Now(), src);
    if h in m.handles && m.handles[h].BytesMut? && Transfer.Sound(m.handles, src)
       && h !in Transfer.Handles(src) && owned <= Transfer.Handles(src) {
      Transfer.SaneNowIs(m.Now(), src);
      if Transfer.SaneNow(m.handles, src) {
        ghost var w := m.Seen();
        ghost var k := Transfer.Asked(m.handles[h].cap, Transfer.Resolve(w, src));
        c := Choice(c.name, m.handles[h].cap == 0);
        var r;
        ghost var full := w;
        r, full := Transfer.Put(m, h, src, owned);
        if r.Some? { Transfer.FullIs(w, full, h, src, r.value, k); }
      }
    }
  }

  /** `copy_to_bytes` of a source of any shape. */
  method DoCopyToBytes(m: Memory, op: Op) returns (c: Choice)
    requires Inv(m.Now()) && op.CopyToBytes?
    modifies m
    ensures Inv(m.Now()) && c.name !in old(m.Seen()) && m.Seen() == Apply(old(m.Seen()), op, c)
  {
    hide Inv, Views, Cells, Content, Transfer.Resolve, Transfer.Spent, Sane, Transfer.Overflows;
    hide Transfer.Readable, Transfer.Sound, Transfer.SaneNow, Transfer.Handover;
    Kinds(m);
    c := Choice(m.next, false);
    var src, n := op.src, op.n;
    Transfer.SoundReadable(m.Now(), src);
    if Transfer.Sound(m.handles, src) {
      Transfer.SaneNowIs(m.Now(), src);
      if Transfer.SaneNow(m.handles, src) && n <= USIZE_MAX {
        ghost var s := m.Now();
        var r := Transfer.CopyToBytes(m, src, n);
        if r.Some? { Transfer.CopiedIs(s, m.Now(), src, r.value.1, n, r.value.0); }
      }
    }
  }

  /** One step of a program: the invariant holds again, and every live handle shows exactly what
      it would show if all handles had private bytes. */
  method Do(m: Memory, op: Op) returns (c: Choice)
    requires Inv(m.Now())
    modifies m
    ensures Inv(m.Now()) && c.name !in old(m.Seen()) && m.Seen() == Apply(old(m.Seen()), op, c)
  {
    hide Inv, Views, Cells;
    Kinds(m);
    c := Choice(m.next, false);
    if op.NewVec? || op.NewStatic? || op.NewMut? || op.VecIntoBytes? || op.VecIntoMut? {
      c := DoNew(m, op);
    } else if op.DropHandle? {
      if op.h in m.handles { m.Drop(op.h); }
      assert m.Seen() == old(m.Seen()) - {op.h};
    } else if op.Unsplit? || op.TryUnsplit? {
      if op.h in m.handles && op.o in m.handles && op.h != op.o
         && m.handles[op.h].BytesMut? && m.handles[op.o].BytesMut? {
        c := DoPair(m, op, op.h, op.o);
      }
    } else if op.Put? {
      c := DoPut(m, op);
    } else if op.CopyToBytes? {
      c := DoCopyToBytes(m, op);
    } else {
      c := DoOne(m, op, op.h);
    }
  }

  /** Over every run, from any reachable memory: shared buffers behave as private ones. */
  method Run(m: Memory, ops: seq<Op>) returns (choices: seq<Choice>)
    requires Inv(m.Now())
    modifies m
    ensures Inv(m.Now()) && |choices| == |ops|
    ensures FreshNames(old(m.Seen()), ops, choices)
    ensures m.Seen() == After(old(m.Seen()), ops, choices)
  {
    hide Inv, Views, Cells, Apply;
    choices := [];
    for i := 0 to |ops|
      invariant Inv(m.Now()) && |choices| == i
      invariant FreshNames(old(m.Seen()), ops[..i], choices)
      invariant m.Seen() == After(old(m.Seen()), ops[..i], choices)
    {
      var c := Do(m, ops[i]);
      var longer := choices + [c];
      assert ops[..i + 1][..i] == ops[..i] && longer[..i] == choices;
      assert FreshNames(old(m.Seen()), ops[..i + 1], longer) by {
        forall j | 0 <= j < i ensures longer[j].name !in After(old(m.Seen()), ops[..i + 1][..j], longer[..j]) {
          assert ops[..i + 1][..j] == ops[..i][..j] && longer[..j] == choices[..j];
        }
      }
      choices := longer;
    }
    assert ops[..|ops|] == ops;
  }

  /** A program that runs from scratch and drops everything has returned each allocation of its
      own to the allocator exactly once. */
  method RunAndDropAll(ops: seq<Op>) returns (m: Memory)
    ensures Inv(m.Now()) && m.handles == map[]
    ensures forall b: nat | b < |m.blocks| :: m.blocks[b].count == 0
    ensures forall a: nat | a < |m.mem| && !m.mem[a].owner.Immortal? :: multiset(m.frees)[a] == 1
  {
    hide Inv, Views, Cells;
    m := new Memory();
    var choices := Run(m, ops);
    while m.handles != map[]
      invariant Inv(m.Now())
      decreases m.handles.Keys
    {
      assert m.handles.Keys != {};
      var h :| h in m.handles;
      m.Drop(h);
      Kinds(m);
    }
    NothingLeaks(m.Now());
  }
}
