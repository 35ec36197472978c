/** `ByteStr`: a `Bytes` whose contents stay valid UTF-8, whatever else happens to the memory. */
module ByteStrs {
  import opened Basics
  import opened Buffers
  import opened Heap
  import Runs
  import Transfer
  import opened Utf8

  /** The handle `h` may be a `ByteStr`. */
  ghost predicate IsStr(v: map<nat, Value>, h: nat) { h in v && v[h].Frozen? && Valid(v[h].bytes) }

  /** `truncate`; `false` is the panic, which comes exactly where the cut would spoil the text. */
  method Truncate(m: Memory, h: nat, newLen: nat) returns (ok: bool)
    requires Inv(m.Now()) && IsStr(m.Seen(), h)
    modifies m
    ensures ok <==> newLen > |old(m.Seen())[h].bytes| || Valid(old(m.Seen())[h].bytes[..newLen])
    ensures Inv(m.Now()) && IsStr(m.Seen(), h)
    ensures var text := old(m.Seen())[h].bytes;
            m.Seen() == if ok then old(m.Seen())[h := Frozen(text[..Min(newLen, |text|)])] else old(m.Seen())
  {
    hide Inv, Views, Cells;
    Runs.Kinds(m);
    ghost var text := m.Seen()[h].bytes;
    Facts(m.Now(), h);
    if newLen <= m.handles[h].len {
      var bytes := [];
      if m.handles[h].len > 0 { bytes := m.Read(m.handles[h].ptr, m.handles[h].len); }
      assert bytes == text;
      CutValid(text, newLen);
      if !IsCharBoundary(bytes, newLen) { return false; }
      m.TruncateBytes(h, newLen);
    } else {
      assert text[..|text|] == text;
    }
    ok := true;
  }

  method Clear(m: Memory, h: nat)
    requires Inv(m.Now()) && IsStr(m.Seen(), h)
    modifies m
    ensures Inv(m.Now()) && IsStr(m.Seen(), h) && m.Seen() == old(m.Seen())[h := Frozen([])]
  {
    hide Inv, Views, Cells;
    Runs.Kinds(m);
    m.ClearBytes(h);
  }

  /** `from_utf8`. */
  method FromUtf8(m: Memory, h: nat) returns (ok: bool)
    requires Inv(m.Now()) && m.IsBytes(h)
    ensures ok <==> IsStr(m.Seen(), h)
  {
    hide Inv, Views, Cells;
    Runs.Kinds(m);
    Facts(m.Now(), h);
    var bytes := [];
    if m.handles[h].len > 0 { bytes := m.Read(m.handles[h].ptr, m.handles[h].len); }
    assert bytes == m.Seen()[h].bytes;
    ok := Valid(bytes);
  }

  /** `from_slice_of`, and `slice_ref` when `h` is itself a `ByteStr`: `delta` is how far from the
      start of `h` the given `str` lies, `len` its length.  It is a `str`, so what lies there is
      valid; `h` need not be. */
  method SliceOf(m: Memory, h: nat, delta: int, len: nat) returns (r: Option<nat>)
    requires Inv(m.Now()) && m.IsBytes(h) && h in m.Seen()
    requires 0 <= delta && delta + len <= |m.Seen()[h].bytes| ==> Valid(m.Seen()[h].bytes[delta..delta + len])
    modifies m
    ensures Inv(m.Now())
    ensures r == if 0 <= delta && delta + len <= |old(m.Seen())[h].bytes| then Some(old(m.next)) else None
    ensures r.None? ==> m.Now() == old(m.Now())
    ensures r.Some? ==> r.value !in old(m.Seen()) && IsStr(m.Seen(), r.value)
                        && m.Seen() == old(m.Seen())[r.value := Frozen(old(m.Seen())[h].bytes[delta..delta + len])]
  {
    hide Inv, Views, Cells;
    Runs.Kinds(m);
    r := m.SliceFromRaw(h, delta, len);
  }

  /** A `ByteStr` operation, or any other operation on handles that are not `ByteStr`s. */
  datatype StrOp =
    | StrTruncate(h: nat, n: nat)
    | StrClear(h: nat)
    | StrSlice(h: nat, delta: int, n: nat)      // `slice_ref` of a `ByteStr`
    | StrSliceOf(h: nat, delta: int, n: nat)    // `from_slice_of` a `Bytes`, text or not
    | StrClone(h: nat)
    | StrFrom(h: nat)
    | StrDrop(h: nat)
    | Other(op: Runs.Op)

  function Names(op: Runs.Op): set<nat> {
    match op
    case NewVec(_) => {}
    case NewStatic(_) => {}
    case NewMut(_) => {}
    case Unsplit(h, o) => {h, o}
    case TryUnsplit(h, o) => {h, o}
    case Put(h, src, _) => Transfer.Handles(src) + {h}
    case CopyToBytes(src, _) => Transfer.Handles(src)
    case _ => {op.h}
  }

  /** An operation changes nothing that it does not name. */
  lemma ApplyElsewhere(w: Runs.World, op: Runs.Op, c: Runs.Choice, h: nat)
    requires h in w && h !in Names(op) && h != c.name
    ensures h in Runs.Apply(w, op, c) && Runs.Apply(w, op, c)[h] == w[h]
  {
    hide Transfer.Spent, Transfer.Resolve, Transfer.Readable, Transfer.Handles;
    if op.Put? && Runs.Offers(w, op.src) {
      Transfer.SpentElsewhere(w, op.src, Transfer.Asked(if c.yes then 0 else 1, Transfer.Resolve(w, op.src)));
    } else if op.CopyToBytes? && Runs.Offers(w, op.src) {
      Transfer.SpentElsewhere(w, op.src, op.n);
    }
  }

  ghost predicate AllStrs(v: map<nat, Value>, strs: set<nat>) { forall h | h in strs :: IsStr(v, h) }

  /** `part` is what lies at `delta` in `bytes`, and it is a `str`. */
  predicate IsStrAt(bytes: seq<Byte>, delta: int, n: nat) {
    0 <= delta && delta + n <= |bytes| && Valid(bytes[delta..delta + n])
  }

  /** One step; operations that do not type-check do nothing. */
  method Step(m: Memory, strs: set<nat>, op: StrOp) returns (now: set<nat>)
    requires Inv(m.Now()) && AllStrs(m.Seen(), strs)
    modifies m
    ensures Inv(m.Now()) && AllStrs(m.Seen(), now)
    ensures if op.StrDrop? then now == strs - {op.h} else strs <= now
    ensures op.StrClone? && op.h in strs ==> old(m.next) in now
    ensures op.StrFrom? && IsStr(old(m.Seen()), op.h) ==> op.h in now
    ensures op.StrSliceOf? && Runs.HasBytes(old(m.Seen()), op.h) ==>
              IsStrAt(old(m.Seen())[op.h].bytes, op.delta, op.n) ==> old(m.next) in now
  {
    hide Inv, Views, Cells, Valid, IsStrAt;
    Runs.Kinds(m);
    now := strs;
    match op {
      case StrTruncate(h, n) => if h in strs { var ok := Truncate(m, h, n); }
      case StrClear(h) => if h in strs { Clear(m, h); }
      case StrSlice(h, delta, n) =>
        if h in strs {
          var r := SliceChecked(m, h, delta, n);
          if r.Some? { now := strs + {r.value}; }
        }
      case StrSliceOf(h, delta, n) =>
        if h in m.handles && m.handles[h].Bytes? {
          var r := SliceOfChecked(m, h, delta, n);
          if r.Some? { now := strs + {r.value}; }
        }
      case StrClone(h) =>
        if h in strs {
          var n := m.CloneInner(h);
          now := strs + {n};
        }
      case StrFrom(h) =>
        if h in m.handles && m.handles[h].Bytes? {
          var ok := FromUtf8(m, h);
          if ok { now := strs + {h}; }
        }
      case StrDrop(h) =>
        now := strs - {h};
        if h in strs { m.Drop(h); }
      case Other(o) =>
        if Names(o) !! strs {
          ghost var w := m.Seen();
          var c := Runs.Do(m, o);
          forall h | h in strs ensures IsStr(m.Seen(), h) { ApplyElsewhere(w, o, c, h); }
        }
    }
  }

  /** `slice_ref` with a part of the text that is a `str`: one that starts and ends at boundaries. */
  method SliceChecked(m: Memory, h: nat, delta: int, len: nat) returns (r: Option<nat>)
    requires Inv(m.Now()) && IsStr(m.Seen(), h)
    modifies m
    ensures Inv(m.Now())
    ensures r.None? ==> m.Seen() == old(m.Seen())
    ensures r.Some? ==> r.value !in old(m.Seen()) && IsStr(m.Seen(), r.value)
                        && m.Seen() == old(m.Seen())[r.value := m.Seen()[r.value]]
  {
    hide Inv, Views, Cells, Valid;
    Runs.Kinds(m);
    Facts(m.Now(), h);
    var bytes := [];
    if m.handles[h].len > 0 { bytes := m.Read(m.handles[h].ptr, m.handles[h].len); }
    assert bytes == m.Seen()[h].bytes;
    if delta < 0 || delta + len > |bytes| { return None; }
    if !IsCharBoundary(bytes, delta) || !IsCharBoundary(bytes, delta + len) { return None; }
    SliceValid(bytes, delta, delta + len);
    r := SliceOf(m, h, delta, len);
  }

  /** `from_slice_of` with a `str` that lies in the buffer, if there is one at that place. */
  method SliceOfChecked(m: Memory, h: nat, delta: int, len: nat) returns (r: Option<nat>)
    requires Inv(m.Now()) && m.IsBytes(h) && h in m.Seen()
    modifies m
    ensures Inv(m.Now())
    ensures r == if IsStrAt(old(m.Seen())[h].bytes, delta, len) then Some(old(m.next)) else None
    ensures r.None? ==> m.Seen() == old(m.Seen())
    ensures r.Some? ==> r.value !in old(m.Seen()) && IsStr(m.Seen(), r.value)
                        && m.Seen() == old(m.Seen())[r.value := m.Seen()[r.value]]
  {
    hide Inv, Views, Cells, Valid;
    Runs.Kinds(m);
    Facts(m.Now(), h);
    var bytes := [];
    if m.handles[h].len > 0 { bytes := m.Read(m.handles[h].ptr, m.handles[h].len); }
    assert bytes == m.Seen()[h].bytes;
    if !IsStrAt(bytes, delta, len) { return None; }
    r := SliceOf(m, h, delta, len);
  }

  function Dropped(ops: seq<StrOp>): set<nat> {
    set i | 0 <= i < |ops| && ops[i].StrDrop? :: ops[i].h
  }

  /** Over every run that mixes `ByteStr` operations with any others, on memory that they share,
      each `ByteStr` stays valid UTF-8 until it is dropped. */
  method Run(m: Memory, ops: seq<StrOp>, strs: set<nat>) returns (now: set<nat>)
    requires Inv(m.Now()) && AllStrs(m.Seen(), strs)
    modifies m
    ensures Inv(m.Now()) && AllStrs(m.Seen(), now) && strs - Dropped(ops) <= now
  {
    hide Inv, Views, Cells, IsStr;
    now := strs;
    for i := 0 to |ops|
      invariant Inv(m.Now()) && AllStrs(m.Seen(), now) && strs - Dropped(ops[..i]) <= now
    {
      assert Dropped(ops[..i]) <= Dropped(ops[..i + 1]) by {
        forall j | 0 <= j < i ensures ops[..i][j] == ops[..i + 1][j] {}
      }
      assert ops[..i + 1][i] == ops[i];
      now := Step(m, now, ops[i]);
    }
    assert ops[..|ops|] == ops;
  }
}
