/** `put` and `copy_to_bytes` between buffers in memory: the two call each other through nested
    adapters, and either copy bytes or pass a whole allocation on. */
module Transfer {
  import opened Basics
  import opened Buffers
  import opened Cursors
  import opened Heap

  /** A read cursor some of whose leaves are `Bytes` or `BytesMut` handles. */
  datatype Src =
    | Slice(rest: seq<Byte>)
    | Held(h: nat)
    | Pieces(parts: seq<seq<Byte>>)
    | Chained(a: Src, b: Src)
    | Taken(inner: Src, limit: nat)

  function Handles(src: Src): set<nat> {
    match src
    case Held(h) => {h}
    case Chained(a, b) => Handles(a) + Handles(b)
    case Taken(inner, _) => Handles(inner)
    case _ => {}
  }

  /** Every leaf is a readable handle, and no handle is in two places. */
  predicate Sound(hs: map<nat, Handle>, src: Src) {
    match src
    case Held(h) => h in hs && !hs[h].Vec?
    case Chained(a, b) => Sound(hs, a) && Sound(hs, b) && Handles(a) !! Handles(b)
    case Taken(inner, _) => Sound(hs, inner)
    case _ => true
  }

  function Size(src: Src): nat {
    match src
    case Chained(a, b) => 1 + Size(a) + Size(b)
    case Taken(inner, _) => 1 + Size(inner)
    case _ => 1
  }

  /** The cursor with the bytes that its handles show. */
  ghost function Resolve(v: map<nat, Value>, src: Src): Buf {
    match src
    case Slice(rest) => Leaf(rest)
    case Held(h) => Leaf(if h in v then v[h].bytes else [])
    case Pieces(parts) => Segs(parts)
    case Chained(a, b) => Chain(Resolve(v, a), Resolve(v, b))
    case Taken(inner, limit) => Take(Resolve(v, inner), limit)
  }

  /** The outline of a cursor: the shape of its tree, and the names and types of its leaves. */
  datatype Outline = Plain | Segmented | Tip(h: nat, kind: Value) | Pair(a: Outline, b: Outline) | Limited(o: Outline)

  ghost function Outlined(v: map<nat, Value>, src: Src): Outline {
    match src
    case Slice(_) => Plain
    case Held(h) => Tip(h, if h in v then Like(v[h], []) else Frozen([]))
    case Pieces(_) => Segmented
    case Chained(a, b) => Pair(Outlined(v, a), Outlined(v, b))
    case Taken(inner, _) => Limited(Outlined(v, inner))
  }

  /** `copy_to_bytes` comes to add the two lengths of a chain, and the sum passes a machine word. */
  ghost predicate Overflows(t: Buf, len: nat) {
    match t
    case Chain(a, b) =>
      if Remaining(a) >= len then Overflows(a, len)
      else if Remaining(a) == 0 then Overflows(b, len)
      else Remaining(a) + Remaining(b) > USIZE_MAX
    case Take(inner, _) => Overflows(inner, len)
    case _ => false
  }

  /** Every length, sums included, fits a machine word. */
  ghost predicate Fits(t: Buf) {
    && Sane(t) && |Content(t)| <= USIZE_MAX
    && match t
       case Chain(a, b) => Fits(a) && Fits(b)
       case Take(inner, _) => Fits(inner)
       case _ => true
  }

  /** The first `len` bytes of `t` end strictly inside `b`, behind some bytes of `a`. */
  ghost predicate CutsAcross(t: Buf, len: nat, a: Buf, b: Buf) {
    match t
    case Chain(x, y) =>
      if len <= |Content(x)| then CutsAcross(x, len, a, b)
      else if Content(x) == [] then CutsAcross(y, len, a, b)
      else t == Chain(a, b)
    case Take(inner, _) => CutsAcross(inner, len, a, b)
    case _ => false
  }

  ghost predicate CutsTooMuch(t: Buf, len: nat) {
    exists a, b :: CutsAcross(t, len, a, b) && |Content(a)| + |Content(b)| > USIZE_MAX
  }

  lemma ChainCuts(x: Buf, y: Buf, len: nat)
    ensures CutsTooMuch(Chain(x, y), len) <==>
            if len <= |Content(x)| then CutsTooMuch(x, len)
            else if Content(x) == [] then CutsTooMuch(y, len)
            else |Content(x)| + |Content(y)| > USIZE_MAX
  {
    hide Content;
    var t := Chain(x, y);
    if len <= |Content(x)| {
      assert forall a, b :: CutsAcross(t, len, a, b) <==> CutsAcross(x, len, a, b);
    } else if Content(x) == [] {
      assert forall a, b :: CutsAcross(t, len, a, b) <==> CutsAcross(y, len, a, b);
    } else {
      assert CutsAcross(t, len, x, y);
    }
  }

  lemma TakeCuts(inner: Buf, limit: nat, len: nat)
    ensures CutsTooMuch(Take(inner, limit), len) <==> CutsTooMuch(inner, len)
  {
    hide Content;
    assert forall a, b :: CutsAcross(Take(inner, limit), len, a, b) <==> CutsAcross(inner, len, a, b);
  }

  /** The overflow in terms of the bytes. */
  lemma {:induction false} OverflowsIff(t: Buf, len: nat)
    requires Sane(t) && len <= USIZE_MAX
    ensures Overflows(t, len) <==> CutsTooMuch(t, len)
  {
    hide CutsTooMuch, Content;
    match t
    case Chain(a, b) =>
      RemainingIsLength(a);
      RemainingIsLength(b);
      OverflowsIff(a, len);
      OverflowsIff(b, len);
      ChainCuts(a, b, len);
    case Take(inner, limit) =>
      OverflowsIff(inner, len);
      TakeCuts(inner, limit, len);
    case _ => NoCuts(t, len);
  }

  lemma NoCuts(t: Buf, len: nat)
    requires t.Leaf? || t.Segs?
    ensures !CutsTooMuch(t, len)
  {
  }

  lemma {:induction false} FittingNeverOverflows(t: Buf, len: nat)
    requires Fits(t)
    ensures !Overflows(t, len)
  {
    match t
    case Chain(a, b) =>
      FittingNeverOverflows(a, len);
      FittingNeverOverflows(b, len);
      RemainingIsLength(a);
      RemainingIsLength(b);
    case Take(inner, _) => FittingNeverOverflows(inner, len);
    case _ =>
  }

  lemma {:induction false} NothingOverflows(t: Buf)
    ensures !Overflows(t, 0)
  {
    match t
    case Chain(a, _) => NothingOverflows(a);
    case Take(inner, _) => NothingOverflows(inner);
    case _ =>
  }

  /** Two bytes can be too many although both remain: one byte and a buffer without end, below a limit
      of two. */
  lemma OverflowIsReached()
    ensures exists t :: Sane(t) && Remaining(t) == |Content(t)| == 2 && Overflows(t, 2)
  {
    var long: seq<Byte> := seq(USIZE_MAX, _ => 0);
    var endless := Segs([long]);
    OneSegment(long);
    assert |long| == USIZE_MAX && Sane(endless) && Remaining(endless) == USIZE_MAX;
    ChainContent(Leaf([0]), endless);
    var both := Chain(Leaf([0]), endless);
    assert Remaining(both) == USIZE_MAX && Sane(both) && Overflows(both, 2);
    assert Overflows(Take(both, 2), 2);
  }

  lemma OneSegment(x: seq<Byte>)
    ensures Flat([x]) == x
  {
    assert [x][1..] == [];
    assert Flat([x]) == x + Flat([]);
    assert x + [] == x;
  }

  /** Handles outside `ids` show what they showed. */
  ghost predicate Elsewhere(v: map<nat, Value>, w: map<nat, Value>, ids: set<nat>) {
    forall k | k in v && k !in ids :: k in w && w[k] == v[k]
  }

  lemma {:induction false} ResolveElsewhere(v: map<nat, Value>, w: map<nat, Value>, src: Src, ids: set<nat>)
    requires Elsewhere(v, w, ids) && Handles(src) !! ids && Handles(src) <= v.Keys
    ensures Resolve(w, src) == Resolve(v, src) && Outlined(w, src) == Outlined(v, src)
  {
    match src
    case Chained(a, b) => ResolveElsewhere(v, w, a, ids); ResolveElsewhere(v, w, b, ids);
    case Taken(inner, _) => ResolveElsewhere(v, w, inner, ids);
    case _ =>
  }

  /** Only leaves of `src` show something else. */
  ghost predicate OnlyTouched(s: State, t: State, src: Src) {
    Inv(t) && Elsewhere(Views(s), Views(t), Handles(src)) && Views(t).Keys == Views(s).Keys
  }

  /** Only the leaves of `src` differ, and `r` has them now. */
  ghost predicate OnlyLeaves(s: State, t: State, src: Src, r: Src) {
    && OnlyTouched(s, t, src) && Handles(r) == Handles(src) && Size(r) == Size(src) && Sound(t.handles, r)
    && Outlined(Views(t), r) == Outlined(Views(s), src)
  }

  /** A cursor none of whose leaves changed reads the same. */
  lemma Beside(s: State, t: State, ids: set<nat>, src: Src)
    requires Inv(s) && Inv(t) && Elsewhere(Views(s), Views(t), ids)
    requires Sound(s.handles, src) && Handles(src) !! ids
    ensures Sound(t.handles, src) && Resolve(Views(t), src) == Resolve(Views(s), src)
    ensures Outlined(Views(t), src) == Outlined(Views(s), src)
  {
    hide Inv, Views;
    SoundKeys(s.handles, src);
    Fresh(s);
    forall k | k in Handles(src) ensures k in t.handles && !t.handles[k].Vec? { SameKind(s, t, k); }
    SoundElsewhere(s.handles, t.handles, src);
    ResolveElsewhere(Views(s), Views(t), src, ids);
  }

  lemma SameKind(s: State, t: State, k: nat)
    requires k in s.handles && !s.handles[k].Vec? && k in Views(t) && Views(t)[k] == Views(s)[k]
    ensures k in t.handles && !t.handles[k].Vec?
  {
  }

  lemma {:induction false} SoundKeys(hs: map<nat, Handle>, src: Src)
    requires Sound(hs, src)
    ensures Handles(src) <= hs.Keys && forall k | k in Handles(src) :: !hs[k].Vec?
  {
    match src
    case Chained(a, b) => SoundKeys(hs, a); SoundKeys(hs, b);
    case Taken(inner, _) => SoundKeys(hs, inner);
    case _ =>
  }

  lemma {:induction false} SoundElsewhere(hs: map<nat, Handle>, now: map<nat, Handle>, src: Src)
    requires Sound(hs, src) && forall k | k in Handles(src) :: k in now && !now[k].Vec?
    ensures Sound(now, src)
  {
    match src
    case Chained(a, b) => SoundElsewhere(hs, now, a); SoundElsewhere(hs, now, b);
    case Taken(inner, _) => SoundElsewhere(hs, now, inner);
    case _ =>
  }

  // ===== Reading cursors =====

  function SrcRemaining(hs: map<nat, Handle>, src: Src): nat
    requires Sound(hs, src)
  {
    match src
    case Slice(rest) => |rest|
    case Held(h) => hs[h].len
    case Pieces(parts) => |Flat(parts)|
    case Chained(a, b) => Min(SrcRemaining(hs, a) + SrcRemaining(hs, b), USIZE_MAX)
    case Taken(inner, limit) => Min(SrcRemaining(hs, inner), limit)
  }

  lemma {:induction false} SrcRemainingIs(s: State, src: Src)
    requires Inv(s) && Sound(s.handles, src) && Sane(Resolve(Views(s), src))
    ensures SrcRemaining(s.handles, src) == Min(|Content(Resolve(Views(s), src))|, USIZE_MAX)
  {
    hide Inv, Views;
    match src
    case Held(h) => Facts(s, h);
    case Chained(a, b) => SrcRemainingIs(s, a); SrcRemainingIs(s, b);
    case Taken(inner, _) => SrcRemainingIs(s, inner);
    case _ =>
  }

  /** `Sane`, by the lengths. */
  predicate SaneNow(hs: map<nat, Handle>, src: Src)
    requires Sound(hs, src)
  {
    match src
    case Slice(rest) => |rest| <= USIZE_MAX
    case Held(h) => hs[h].len <= USIZE_MAX
    case Pieces(parts) => |Flat(parts)| <= USIZE_MAX && forall i | 0 <= i < |parts| :: parts[i] != []
    case Chained(a, b) => SaneNow(hs, a) && SaneNow(hs, b)
    case Taken(inner, limit) => SaneNow(hs, inner) && limit <= USIZE_MAX
  }

  lemma {:induction false} SaneNowIs(s: State, src: Src)
    requires Inv(s) && Sound(s.handles, src)
    ensures SaneNow(s.handles, src) <==> Sane(Resolve(Views(s), src))
  {
    hide Inv, Views;
    match src
    case Held(h) => Facts(s, h);
    case Chained(a, b) => SaneNowIs(s, a); SaneNowIs(s, b);
    case Taken(inner, _) => SaneNowIs(s, inner);
    case _ =>
  }

  method SrcChunk(m: Memory, src: Src) returns (r: seq<Byte>)
    requires Inv(m.Now()) && Sound(m.handles, src) && Sane(Resolve(m.Seen(), src))
    ensures r == Chunk(Resolve(m.Seen(), src))
    decreases src
  {
    hide Inv, Views, Cells;
    match src {
      case Slice(rest) => r := rest;
      case Held(h) =>
        Facts(m.Now(), h);
        r := [];
        if m.handles[h].len > 0 { r := m.Read(m.handles[h].ptr, m.handles[h].len); }
      case Pieces(parts) => r := if parts == [] then [] else parts[0];
      case Chained(a, b) =>
        SrcRemainingIs(m.Now(), a);
        RemainingIsLength(Resolve(m.Seen(), a));
        if SrcRemaining(m.handles, a) > 0 { r := SrcChunk(m, a); } else { r := SrcChunk(m, b); }
      case Taken(inner, limit) =>
        r := SrcChunk(m, inner);
        r := r[..Min(|r|, limit)];
    }
  }

  /** Handles outside `ids` keep their records. */
  ghost predicate RecordsElsewhere(hs: map<nat, Handle>, now: map<nat, Handle>, ids: set<nat>) {
    forall k | k in hs && k !in ids :: k in now && now[k] == hs[k]
  }

  lemma RecordsWider(a: map<nat, Handle>, b: map<nat, Handle>, c: map<nat, Handle>, i: set<nat>, j: set<nat>)
    requires RecordsElsewhere(a, b, i) && (RecordsElsewhere(b, c, j) || c == b)
    ensures RecordsElsewhere(a, c, i + j)
  {
  }

  /** `advance` of a cursor over memory; `None` is the panic, before which some leaves may have
      moved. */
  method SrcAdvance(m: Memory, src: Src, cnt: nat) returns (r: Option<Src>)
    requires Inv(m.Now()) && Sound(m.handles, src) && Sane(Resolve(m.Seen(), src)) && cnt <= USIZE_MAX
    modifies m`handles
    ensures r.Some? <==> cnt <= |Content(Resolve(old(m.Seen()), src))|
    ensures OnlyTouched(old(m.Now()), m.Now(), src)
    ensures RecordsElsewhere(old(m.handles), m.handles, Handles(src))
    ensures r.Some? ==> && OnlyLeaves(old(m.Now()), m.Now(), src, r.value)
                        && Resolve(m.Seen(), r.value) == Moved(Resolve(old(m.Seen()), src), cnt)
    decreases src, 1
  {
    hide Inv, Views, Cells;
    match src {
      case Slice(rest) =>
        if cnt > |rest| { return None; }
        r := Some(Slice(rest[cnt..]));
      case Held(h) =>
        Facts(m.Now(), h);
        var ok;
        if m.handles[h].Bytes? {
          ok := m.AdvanceBytes(h, cnt);
        } else {
          ok := m.AdvanceMut(h, cnt);
        }
        Fresh(m.Now());
        r := if ok then Some(src) else None;
      case Pieces(parts) =>
        if cnt > |Flat(parts)| { return None; }
        var tail := AdvanceSegs(parts, cnt);
        r := Some(Pieces(tail));
      case Chained(a, b) =>
        r := ChainedAdvance(m, a, b, cnt);
      case Taken(inner, limit) =>
        if cnt > limit { return None; }
        var moved := SrcAdvance(m, inner, cnt);
        if moved.None? { return None; }
        r := Some(Taken(moved.value, limit - cnt));
    }
  }

  method ChainedAdvance(m: Memory, a: Src, b: Src, cnt: nat) returns (r: Option<Src>)
    requires Inv(m.Now()) && Sound(m.handles, Chained(a, b)) && Sane(Resolve(m.Seen(), Chained(a, b)))
    requires cnt <= USIZE_MAX
    modifies m`handles
    ensures r.Some? <==> cnt <= |Content(Resolve(old(m.Seen()), Chained(a, b)))|
    ensures OnlyTouched(old(m.Now()), m.Now(), Chained(a, b))
    ensures RecordsElsewhere(old(m.handles), m.handles, Handles(Chained(a, b)))
    ensures r.Some? ==> && OnlyLeaves(old(m.Now()), m.Now(), Chained(a, b), r.value)
                        && Resolve(m.Seen(), r.value) == Moved(Resolve(old(m.Seen()), Chained(a, b)), cnt)
    decreases Chained(a, b), 0
  {
    hide Inv, Views, Cells, Content, Sane, Moved, Elsewhere, RecordsElsewhere;
    ghost var s := m.Now();
    ghost var x, y := Resolve(Views(s), a), Resolve(Views(s), b);
    ChainContent(x, y);
    ChainSane(x, y);
    SrcRemainingIs(s, a);
    var aRem := SrcRemaining(m.handles, a);
    var n := Min(aRem, cnt);
    var k: nat := cnt - n;
    MovedZero(y);
    var a' := SrcAdvance(m, a, n);
    ghost var mid := m.Now();
    Beside(s, mid, Handles(a), b);
    var b' := Some(b);
    if cnt >= aRem {
      b' := SrcAdvance(m, b, k);
      Beside(mid, m.Now(), Handles(b), a'.value);
    }
    Wider(Views(s), m.Seen(), Views(mid), Handles(a), Handles(b));
    RecordsWider(s.handles, mid.handles, m.handles, Handles(a), Handles(b));
    if b'.None? { return None; }
    ChainSplit(x, y, cnt, n, k);
    r := Some(Chained(a'.value, b'.value));
  }

  lemma ChainSane(x: Buf, y: Buf)
    ensures Sane(Chain(x, y)) == (Sane(x) && Sane(y))
  {
  }

  lemma ChainSplit(x: Buf, y: Buf, cnt: nat, n: nat, k: nat)
    requires n == Min(|Content(x)|, cnt) && k == cnt - n && k <= |Content(y)|
    ensures cnt <= |Content(Chain(x, y))| && Moved(Chain(x, y), cnt) == Chain(Moved(x, n), Moved(y, k))
  {
  }

  lemma Wider(v: map<nat, Value>, w: map<nat, Value>, u: map<nat, Value>, a: set<nat>, b: set<nat>)
    requires Elsewhere(v, u, a) && (Elsewhere(u, w, b) || w == u)
    ensures Elsewhere(v, w, a + b)
  {
  }

  // ===== Copying out and putting in =====

  /** `n` took the first `len` bytes of `src`, and nothing else changed. */
  ghost predicate Copied(s: State, t: State, src: Src, r: Src, len: nat, n: nat) {
    var was := Resolve(Views(s), src);
    && len <= |Content(was)| && n == s.next && n !in s.handles
    && Inv(t) && Handles(r) == Handles(src) && Size(r) == Size(src) && Sound(t.handles, r)
    && Views(t).Keys == Views(s).Keys + {n} && Elsewhere(Views(s), Views(t), Handles(src))
    && Views(t)[n] == Frozen(Content(was)[..len]) && Resolve(Views(t), r) == Moved(was, len)
    && Outlined(Views(t), r) == Outlined(Views(s), src)
  }

  /** `h` gained the first `k` bytes of `src`, which moved on, and nothing else changed. */
  ghost predicate Gained(s: State, t: State, h: nat, src: Src, r: Src, k: nat) {
    var was := Resolve(Views(s), src);
    && k <= |Content(was)| && h in Views(s) && h !in Handles(src)
    && Inv(t) && Handles(r) == Handles(src) && Size(r) == Size(src) && Sound(t.handles, r)
    && Views(t).Keys == Views(s).Keys && Elsewhere(Views(s), Views(t), Handles(src) + {h})
    && Views(t)[h] == Mutable(Views(s)[h].bytes + Content(was)[..k]) && Resolve(Views(t), r) == Moved(was, k)
    && Outlined(Views(t), r) == Outlined(Views(s), src)
  }

  /** In `full`, `h` shows the first `k` bytes of `src` as well, `src` has moved past them, and nothing
      else differs. */
  ghost predicate Full(v: map<nat, Value>, full: map<nat, Value>, h: nat, src: Src, r: Src, k: nat) {
    var was := Resolve(v, src);
    && k <= |Content(was)|
    && h in v && h !in Handles(src) && full.Keys == v.Keys && Elsewhere(v, full, Handles(src) + {h})
    && full[h] == Mutable(v[h].bytes + Content(was)[..k])
    && Handles(r) == Handles(src) && Size(r) == Size(src) && Resolve(full, r) == Moved(was, k)
    && Outlined(full, r) == Outlined(v, src)
  }

  /** What `put` leaves: `full`, without the handles that were passed by value. */
  ghost predicate Drained(s: State, t: State, h: nat, src: Src, r: Src, owned: set<nat>, full: map<nat, Value>,
                          k: nat)
  {
    && Inv(t) && Full(Views(s), full, h, src, r, k) && Views(t) == full - owned
    && (owned == {} ==> Sound(t.handles, r))
  }

  lemma GainedFull(s: State, t: State, h: nat, src: Src, r: Src, k: nat)
    requires Gained(s, t, h, src, r, k)
    ensures Full(Views(s), Views(t), h, src, r, k) && Sound(t.handles, r) && Inv(t) && Handles(r) == Handles(src)
  {
    hide Inv, Views, Content, Moved, Resolve, Outlined, Elsewhere, Sound, Handles, Size;
  }

  lemma DrainedGained(s: State, t: State, h: nat, src: Src, r: Src, full: map<nat, Value>, k: nat)
    requires Drained(s, t, h, src, r, {}, full, k)
    ensures Gained(s, t, h, src, r, k)
  {
    hide Inv, Views, Content, Moved, Resolve, Outlined, Elsewhere, Sound, Handles, Size;
    assert full - {} == full;
  }

  /** `drop(src)`: the leaves passed by value go. */
  method DropSrc(m: Memory, src: Src, owned: set<nat>)
    requires Inv(m.Now()) && Sound(m.handles, src) && owned <= Handles(src)
    modifies m
    ensures Inv(m.Now()) && m.Seen() == old(m.Seen()) - owned
    ensures m.handles == old(m.handles) - owned && |m.mem| == |old(m.mem)|
    decreases src
  {
    hide Inv, Views, Cells;
    match src {
      case Held(h) =>
        if h in owned {
          assert owned == {h};
          Released(m.Now(), h);
          m.Drop(h);
        } else {
          assert owned == {};
        }
      case Chained(a, b) =>
        var ofA, ofB := owned * Handles(a), owned * Handles(b);
        DropSrc(m, a, ofA);
        Beside(old(m.Now()), m.Now(), Handles(a), b);
        DropSrc(m, b, ofB);
        assert ofA + ofB == owned;
        TwoGone(old(m.Seen()), ofA, ofB, owned);
        TwoGone(old(m.handles), ofA, ofB, owned);
      case Taken(inner, _) =>
        DropSrc(m, inner, owned);
      case _ =>
    }
  }

  lemma TwoGone<V>(v: map<nat, V>, a: set<nat>, b: set<nat>, c: set<nat>)
    requires a + b == c
    ensures v - a - b == v - c
  {
  }

  // ===== Private sequences =====

  /** The leaves are readable and distinct. */
  ghost predicate Readable(v: map<nat, Value>, src: Src) {
    match src
    case Held(h) => h in v && !v[h].Owned?
    case Chained(a, b) => Readable(v, a) && Readable(v, b) && Handles(a) !! Handles(b)
    case Taken(inner, _) => Readable(v, inner)
    case _ => true
  }

  /** What is left when the first `k` bytes of a cursor are taken from the leaves that hold them. */
  ghost function Spent(v: map<nat, Value>, src: Src, k: nat): map<nat, Value>
    decreases src
  {
    match src
    case Held(h) => if h in v && k <= |v[h].bytes| then v[h := Like(v[h], v[h].bytes[k..])] else v
    case Chained(a, b) =>
      var n := Min(|Content(Resolve(v, a))|, k);
      Spent(Spent(v, a, n), b, k - n)
    case Taken(inner, _) => Spent(v, inner, k)
    case _ => v
  }

  lemma {:induction false} SpentElsewhere(v: map<nat, Value>, src: Src, k: nat)
    requires Readable(v, src)
    ensures Spent(v, src, k).Keys == v.Keys && Elsewhere(v, Spent(v, src, k), Handles(src))
    decreases src
  {
    match src
    case Chained(a, b) =>
      var n := Min(|Content(Resolve(v, a))|, k);
      SpentElsewhere(v, a, n);
      ReadableElsewhere(v, Spent(v, a, n), b, Handles(a));
      SpentElsewhere(Spent(v, a, n), b, k - n);
    case Taken(inner, _) => SpentElsewhere(v, inner, k);
    case _ =>
  }

  lemma {:induction false} ReadableKeys(v: map<nat, Value>, src: Src)
    requires Readable(v, src)
    ensures Handles(src) <= v.Keys
  {
    match src
    case Chained(a, b) => ReadableKeys(v, a); ReadableKeys(v, b);
    case Taken(inner, _) => ReadableKeys(v, inner);
    case _ =>
  }

  lemma {:induction false} ReadableElsewhere(v: map<nat, Value>, w: map<nat, Value>, src: Src, ids: set<nat>)
    requires Readable(v, src) && Elsewhere(v, w, ids) && Handles(src) !! ids
    ensures Readable(w, src)
  {
    match src
    case Chained(a, b) => ReadableElsewhere(v, w, a, ids); ReadableElsewhere(v, w, b, ids);
    case Taken(inner, _) => ReadableElsewhere(v, w, inner, ids);
    case _ =>
  }

  /** What the cursor reads afterwards, its outline and the values elsewhere leave only one answer. */
  lemma {:induction false} SpentIs(v: map<nat, Value>, w: map<nat, Value>, src: Src, r: Src, k: nat)
    requires Readable(v, src) && k <= |Content(Resolve(v, src))|
    requires Outlined(w, r) == Outlined(v, src) && Resolve(w, r) == Moved(Resolve(v, src), k)
    requires w.Keys == v.Keys && Elsewhere(v, w, Handles(src))
    ensures w == Spent(v, src, k)
    decreases src, 1
  {
    match src
    case Held(h) =>
    case Chained(a, b) =>
      var n := Min(|Content(Resolve(v, a))|, k);
      SpentHalves(v, w, a, b, r, n, k - n);
    case Taken(inner, _) => SpentIs(v, w, inner, r.inner, k);
    case _ =>
  }

  lemma {:induction false} SpentHalves(v: map<nat, Value>, w: map<nat, Value>, a: Src, b: Src, r: Src, n: nat, k: nat)
    requires Readable(v, Chained(a, b)) && w.Keys == v.Keys && Elsewhere(v, w, Handles(Chained(a, b)))
    requires n <= |Content(Resolve(v, a))| && k <= |Content(Resolve(v, b))|
    requires Outlined(w, r) == Outlined(v, Chained(a, b))
    requires Resolve(w, r) == Chain(Moved(Resolve(v, a), n), Moved(Resolve(v, b), k))
    ensures w == Spent(Spent(v, a, n), b, k)
    decreases Chained(a, b), 0
  {
    hide Content, Moved;
    var mid := map h | h in v :: if h in Handles(a) then w[h] else v[h];
    SameHandles(w, r.a, v, a);
    ReadableKeys(v, a);
    ReadableKeys(v, b);
    ResolveElsewhere(w, mid, r.a, w.Keys - Handles(a));
    SpentIs(v, mid, a, r.a, n);
    ResolveElsewhere(v, mid, b, Handles(a));
    ReadableElsewhere(v, mid, b, Handles(a));
    SpentIs(mid, w, b, r.b, k);
  }

  /** Cursors with one outline have the same leaves. */
  lemma {:induction false} SameHandles(w: map<nat, Value>, r: Src, v: map<nat, Value>, src: Src)
    requires Outlined(w, r) == Outlined(v, src)
    ensures Handles(r) == Handles(src)
  {
    match src
    case Chained(a, b) => SameHandles(w, r.a, v, a); SameHandles(w, r.b, v, b);
    case Taken(inner, _) => SameHandles(w, r.inner, v, inner);
    case _ =>
  }

  /** A cursor is sound exactly if what its leaves show is readable. */
  lemma {:induction false} SoundReadable(s: State, src: Src)
    ensures Sound(s.handles, src) <==> Readable(Views(s), src)
  {
    match src
    case Chained(a, b) => SoundReadable(s, a); SoundReadable(s, b);
    case Taken(inner, _) => SoundReadable(s, inner);
    case _ =>
  }

  /** `copy_to_bytes` with private sequences. */
  lemma CopiedIs(s: State, t: State, src: Src, r: Src, len: nat, n: nat)
    requires Inv(s) && Sound(s.handles, src) && Copied(s, t, src, r, len, n)
    ensures Views(t) == Spent(Views(s), src, len)[n := Frozen(Content(Resolve(Views(s), src))[..len])]
  {
    hide Inv, Views, Content, Moved, Resolve, Outlined, Spent, Sound;
    Fresh(s);
    SoundReadable(s, src);
    ReadableKeys(Views(s), src);
    var w := Views(t) - {n};
    ResolveElsewhere(Views(t), w, r, {n});
    SpentIs(Views(s), w, src, r, len);
    assert Views(t) == w[n := Views(t)[n]];
  }

  /** `put` with private sequences. */
  lemma FullIs(v: map<nat, Value>, full: map<nat, Value>, h: nat, src: Src, r: Src, k: nat)
    requires Readable(v, src) && Full(v, full, h, src, r, k)
    ensures full == Spent(v, src, k)[h := Mutable(v[h].bytes + Content(Resolve(v, src))[..k])]
  {
    hide Content, Moved, Resolve, Outlined, Spent, Readable;
    ReadableKeys(v, src);
    var w := full[h := v[h]];
    ResolveElsewhere(full, w, r, {h});
    SpentIs(v, w, src, r, k);
    assert full == w[h := full[h]];
  }

  // ===== Which buffer changes hands =====

  /** The handle, if any, that `copy_to_bytes` takes `len` bytes from by splitting. */
  ghost function Giver(v: map<nat, Value>, src: Src, len: nat): Option<nat> {
    match src
    case Held(o) => Some(o)
    case Taken(inner, _) => Giver(v, inner, len)
    case Chained(a, b) =>
      if |Content(Resolve(v, a))| >= len then Giver(v, a, len)
      else if Content(Resolve(v, a)) == [] then Giver(v, b, len)
      else None
    case _ => None
  }

  /** The giver is the one leaf that all the bytes come from. */
  lemma {:induction false} GiverGives(v: map<nat, Value>, src: Src, len: nat, o: nat)
    requires Readable(v, src) && 0 < len <= |Content(Resolve(v, src))|
    ensures Giver(v, src, len) == Some(o) <==>
            o in Handles(src) && o in v && o in Spent(v, src, len)
            && |Spent(v, src, len)[o].bytes| + len == |v[o].bytes|
    decreases src, 1
  {
    match src
    case Held(h) =>
    case Chained(a, b) => ChainGives(v, a, b, len, o);
    case Taken(inner, _) => GiverGives(v, inner, len, o);
    case _ =>
  }

  lemma {:induction false} ChainGives(v: map<nat, Value>, a: Src, b: Src, len: nat, o: nat)
    requires Readable(v, Chained(a, b)) && 0 < len <= |Content(Resolve(v, Chained(a, b)))|
    ensures Giver(v, Chained(a, b), len) == Some(o) <==>
            var w := Spent(v, Chained(a, b), len);
            o in Handles(Chained(a, b)) && o in v && o in w && |w[o].bytes| + len == |v[o].bytes|
    decreases Chained(a, b), 0
  {
    var x, y := Resolve(v, a), Resolve(v, b);
    var n := Min(|Content(x)|, len);
    var k: nat := len - n;
    var mid := Spent(v, a, n);
    ChainContent(x, y);
    SpentElsewhere(v, a, n);
    ReadableKeys(v, a);
    ReadableKeys(v, b);
    ReadableElsewhere(v, mid, b, Handles(a));
    ResolveElsewhere(v, mid, b, Handles(a));
    SpentElsewhere(mid, b, k);
    SpentZero(mid, b);
    SpentZero(v, a);
    if o in v {
      TakesAtMost(v, a, n, o);
      TakesAtMost(mid, b, k, o);
    }
    GiverIsLeaf(v, a, len);
    GiverIsLeaf(v, b, len);
    hide Content, Resolve, Spent, Readable;
    if |Content(x)| >= len {
      GiverGives(v, a, len, o);
    } else if Content(x) == [] {
      GiverGives(v, b, len, o);
    }
  }

  lemma {:induction false} SpentZero(v: map<nat, Value>, src: Src)
    ensures Spent(v, src, 0) == v
  {
    match src
    case Held(h) => if h in v { assert v[h].bytes[0..] == v[h].bytes; }
    case Chained(a, b) => SpentZero(v, a); SpentZero(v, b);
    case Taken(inner, _) => SpentZero(v, inner);
    case _ =>
  }

  /** No leaf gives more than what is taken. */
  lemma {:induction false} TakesAtMost(v: map<nat, Value>, src: Src, k: nat, o: nat)
    requires Readable(v, src) && o in v
    ensures o in Spent(v, src, k) && |v[o].bytes| <= |Spent(v, src, k)[o].bytes| + k
    decreases src
  {
    match src
    case Held(h) =>
    case Chained(a, b) =>
      var n := Min(|Content(Resolve(v, a))|, k);
      SpentElsewhere(v, a, n);
      ReadableElsewhere(v, Spent(v, a, n), b, Handles(a));
      TakesAtMost(v, a, n, o);
      TakesAtMost(Spent(v, a, n), b, k - n, o);
    case Taken(inner, _) => TakesAtMost(v, inner, k, o);
    case _ =>
  }

  /** A `Bytes` that gives everything lets go of its buffer. */
  ghost predicate GivesAll(s: State, o: nat, len: nat)
    requires o in s.handles
  {
    s.handles[o].Bytes? && len == s.handles[o].len
  }

  /** `n` is where `o` was, on the same allocation, and no other record changed. */
  ghost predicate HandedOver(s: State, t: State, o: nat, n: nat, len: nat) {
    && o in s.handles && o in t.handles && n in t.handles && n != o && n !in s.handles
    && t.handles == s.handles[o := t.handles[o]][n := t.handles[n]] && |t.mem| == |s.mem|
    && t.handles[n].ptr == s.handles[o].ptr && t.handles[o].ptr.alloc == s.handles[o].ptr.alloc
    && t.handles[n].IsStatic() == s.handles[o].IsStatic()
    && t.handles[o].IsStatic() == (s.handles[o].IsStatic() || GivesAll(s, o, len))
  }

  ghost predicate Handover(s: State, t: State, src: Src, len: nat, n: nat) {
    match Giver(Views(s), src, len)
    case Some(o) => HandedOver(s, t, o, n, len)
    case None => true
  }

  /** Nobody but the giver, and the handles dropped with the source, keeps the giver's buffer. */
  ghost predicate Alone(s: State, o: nat, owned: set<nat>, len: nat)
    requires o in s.handles
  {
    && !s.handles[o].IsStatic()
    && Keepers(s, s.handles[o].ptr.alloc) - owned <= (if GivesAll(s, o, len) then {o} else {})
  }

  lemma HandedUnique(s: State, t: State, u: State, o: nat, n: nat, len: nat, owned: set<nat>)
    requires HandedOver(s, t, o, n, len) && n !in owned && u.handles == t.handles - owned && Inv(u)
    ensures n in u.handles && u.handles[n].ptr == s.handles[o].ptr
    ensures Unique(u, n) <==> Alone(s, o, owned, len)
  {
    hide Inv;
    if !s.handles[o].IsStatic() {
      var a := s.handles[o].ptr.alloc;
      UniqueIsAlone(u, n);
      var stays := if GivesAll(s, o, len) then {o} else {};
      var rest := Keepers(s, a) - owned - stays;
      assert Keepers(u, a) == {n} + rest && n !in rest;
      assert rest == {} <==> Keepers(s, a) - owned <= stays;
      if k :| k in rest { assert k in Keepers(u, a) && k != n; }
    }
  }

  /** `copy_to_bytes` of a single handle: `split_to`, frozen if need be. */
  method HeldToBytes(m: Memory, h: nat, len: nat) returns (r: Option<nat>)
    requires Inv(m.Now()) && Sound(m.handles, Held(h))
    modifies m
    ensures r.Some? <==> len <= |Content(Resolve(old(m.Seen()), Held(h)))|
    ensures r.None? ==> m.Now() == old(m.Now())
    ensures r.Some? ==> Copied(old(m.Now()), m.Now(), Held(h), Held(h), len, r.value)
    ensures r.Some? && len > 0 ==> HandedOver(old(m.Now()), m.Now(), h, r.value, len)
    ensures |m.mem| == |old(m.mem)|
  {
    hide Inv, Views, Cells;
    ghost var s := m.Now();
    Facts(s, h);
    Fresh(s);
    if m.handles[h].Bytes? {
      r := m.TrySplitToBytes(h, len);
    } else {
      r := m.TrySplitTo(h, len);
      if r.None? { return; }
      SplitRecords(s, h, len);
      m.Freeze(r.value);
      Mut(m.Now(), h);
    }
    Fresh(m.Now());
  }

  lemma SplitRecords(s: State, h: nat, len: nat)
    requires Inv(s) && h in s.handles && s.handles[h].BytesMut? && len <= s.handles[h].len <= s.handles[h].cap
    ensures var t := Split(s, h, Back(s, h, len, len), Front(s, h, len, len));
            && t.handles == s.handles[h := Back(s, h, len, len)][s.next := Front(s, h, len, len)]
            && |t.mem| == |s.mem| && !s.handles[h].IsStatic()
  {
    Facts(s, h);
    SharedRecords(s, h);
  }

  /** What a value says of the handle that shows it. */
  lemma Mut(s: State, h: nat)
    requires h in Views(s)
    ensures h in s.handles
    ensures Views(s)[h].Mutable? <==> s.handles[h].BytesMut?
    ensures Views(s)[h].Frozen? <==> s.handles[h].Bytes?
  {
  }

  /** `copy_to_bytes` of a slice: a vector of its own. */
  method SliceToBytes(m: Memory, rest: seq<Byte>, len: nat) returns (r: Option<(nat, Src)>)
    requires Inv(m.Now())
    modifies m
    ensures r.Some? <==> len <= |rest|
    ensures r.None? ==> m.Now() == old(m.Now())
    ensures r.Some? ==> Copied(old(m.Now()), m.Now(), Slice(rest), r.value.1, len, r.value.0)
    ensures r.Some? ==> |m.mem| == |old(m.mem)| + 1
  {
    hide Inv, Views, Cells;
    if len > |rest| { return None; }
    Fresh(m.Now());
    var n := m.ToVec(rest[..len]);
    Fresh(m.Now());
    m.BytesFromVec(n);
    r := Some((n, Slice(rest[len..])));
  }

  /** `copy_to_bytes`; `None` is the panic, that of an overflow included. */
  method CopyToBytes(m: Memory, src: Src, len: nat) returns (r: Option<(nat, Src)>)
    requires Inv(m.Now()) && Sound(m.handles, src) && Sane(Resolve(m.Seen(), src)) && len <= USIZE_MAX
    modifies m
    ensures r.Some? <==> var was := Resolve(old(m.Seen()), src); len <= |Content(was)| && !Overflows(was, len)
    ensures r.None? ==> m.Now() == old(m.Now())
    ensures r.Some? ==> Copied(old(m.Now()), m.Now(), src, r.value.1, len, r.value.0)
    ensures r.Some? && len > 0 ==> Handover(old(m.Now()), m.Now(), src, len, r.value.0)
    ensures |m.mem| <= |old(m.mem)| + 1
    decreases Size(src), 1, src, 2
  {
    hide Inv, Views, Cells, HandedOver;
    match src {
      case Slice(rest) =>
        r := SliceToBytes(m, rest, len);
      case Held(h) =>
        var n := HeldToBytes(m, h, len);
        if n.None? { return None; }
        r := Some((n.value, src));
      case Pieces(parts) =>
        r := PiecesToBytes(m, parts, len);
      case Chained(a, b) =>
        r := ChainedToBytes(m, a, b, len);
      case Taken(inner, limit) =>
        if len > limit { return None; }
        var moved := CopyToBytes(m, inner, len);
        if moved.None? { return None; }
        r := Some((moved.value.0, Taken(moved.value.1, limit - len)));
    }
  }

  /** The first `n` bytes of a cursor as a cursor of its own. */
  lemma FirstAsCursor(t: Buf, n: nat)
    requires Sane(t) && n <= |Content(t)| && n <= USIZE_MAX
    ensures Sane(Take(t, n)) && Content(Take(t, n)) == Content(t)[..n]
    ensures Moved(Take(t, n), n) == Take(Moved(t, n), 0)
  {
  }

  /** The default `copy_to_bytes`. */
  method PiecesToBytes(m: Memory, parts: seq<seq<Byte>>, len: nat) returns (r: Option<(nat, Src)>)
    requires Inv(m.Now()) && Sane(Segs(parts)) && len <= USIZE_MAX
    modifies m
    ensures r.Some? <==> len <= |Flat(parts)|
    ensures r.None? ==> m.Now() == old(m.Now())
    ensures r.Some? ==> Copied(old(m.Now()), m.Now(), Pieces(parts), r.value.1, len, r.value.0)
    ensures r.Some? ==> |m.mem| == |old(m.mem)| + 1
    decreases 1, 1, Pieces(parts), 1
  {
    hide Inv, Views, Cells, Sane, Moved;
    if len > |Flat(parts)| { return None; }
    Fresh(m.Now());
    var ret := m.MutWithCapacity(len);
    var left := PutFirst(m, ret, Pieces(parts), len);
    ghost var u := m.Now();
    Mut(u, ret);
    m.Freeze(ret);
    Beside(u, m.Now(), {ret}, left);
    assert [] + Flat(parts)[..len] == Flat(parts)[..len];
    r := Some((ret, left));
  }

  /** `put` of the first `len` bytes into a buffer with room. */
  method PutFirst(m: Memory, h: nat, src: Src, len: nat) returns (left: Src)
    requires Inv(m.Now()) && m.IsMut(h) && h !in Handles(src) && (m.handles[h].cap > 0 || len == 0)
    requires Sound(m.handles, src) && Sane(Resolve(m.Seen(), src))
    requires len <= |Content(Resolve(m.Seen(), src))| && len <= USIZE_MAX
    modifies m
    ensures Gained(old(m.Now()), m.Now(), h, src, left, len)
    ensures var x := old(m.handles)[h];
            len <= x.cap - x.len ==>
              h in m.handles && m.handles[h] == x.WithLen(x.len + len) && |m.mem| == |old(m.mem)|
    decreases 0, 3, src, 0
  {
    hide Inv, Views, Cells, Content, Sane, Moved, Elsewhere, Gained, Drained, Overflows, TakesOver, Room;
    ghost var t := m.Now();
    FirstAsCursor(Resolve(m.Seen(), src), len);
    NothingOverflows(Take(Resolve(m.Seen(), src), len));
    ghost var full: map<nat, Value> := map[];
    var got;
    got, full := Put(m, h, Taken(src, len), {});
    DrainedGained(t, m.Now(), h, Taken(src, len), got.value, full, len);
    GainedInner(t, m.Now(), h, src, got.value, len);
    left := got.value.inner;
  }

  lemma GainedInner(s: State, t: State, h: nat, src: Src, r: Src, len: nat)
    requires Gained(s, t, h, Taken(src, len), r, len) && len <= |Content(Resolve(Views(s), src))|
    ensures r.Taken? && Gained(s, t, h, src, r.inner, len)
  {
    FirstOf(Views(s), src, len);
    hide Inv, Views, Content, Elsewhere;
  }

  method ChainedToBytes(m: Memory, a: Src, b: Src, len: nat) returns (r: Option<(nat, Src)>)
    requires Inv(m.Now()) && Sound(m.handles, Chained(a, b)) && Sane(Resolve(m.Seen(), Chained(a, b)))
    requires len <= USIZE_MAX
    modifies m
    ensures r.Some? <==> var was := Resolve(old(m.Seen()), Chained(a, b));
                         len <= |Content(was)| && !Overflows(was, len)
    ensures r.None? ==> m.Now() == old(m.Now())
    ensures r.Some? ==> Copied(old(m.Now()), m.Now(), Chained(a, b), r.value.1, len, r.value.0)
    ensures r.Some? && len > 0 ==> Handover(old(m.Now()), m.Now(), Chained(a, b), len, r.value.0)
    ensures |m.mem| <= |old(m.mem)| + 1
    decreases Size(Chained(a, b)), 1, Chained(a, b), 1
  {
    hide Inv, Views, Cells, Content, Sane, Moved, Copied, HandedOver;
    ghost var s := m.Now();
    ghost var x, y := Resolve(m.Seen(), a), Resolve(m.Seen(), b);
    ChainSane(x, y);
    SrcRemainingIs(s, a);
    SrcRemainingIs(s, b);
    RemainingIsLength(x);
    RemainingIsLength(y);
    ChainContent(x, y);
    var aRem := SrcRemaining(m.handles, a);
    if aRem >= len {
      var got := CopyToBytes(m, a, len);
      if got.None? { return None; }
      CopiedLeft(s, m.Now(), a, got.value.1, b, len, got.value.0);
      return Some((got.value.0, Chained(got.value.1, b)));
    }
    if aRem == 0 {
      var got := CopyToBytes(m, b, len);
      if got.None? { return None; }
      CopiedRight(s, m.Now(), a, b, got.value.1, len, got.value.0);
      return Some((got.value.0, Chained(a, got.value.1)));
    }
    if aRem + SrcRemaining(m.handles, b) > USIZE_MAX { return None; }
    if len > aRem + SrcRemaining(m.handles, b) { return None; }
    r := BothToBytes(m, a, b, len, aRem);
  }

  lemma CopiedLeft(s: State, z: State, a: Src, a': Src, b: Src, len: nat, n: nat)
    requires Inv(s) && Copied(s, z, a, a', len, n) && Sound(s.handles, Chained(a, b))
    ensures Copied(s, z, Chained(a, b), Chained(a', b), len, n)
  {
    hide Inv, Views, Moved, Content;
    Beside(s, z, Handles(a), b);
    LeftMoved(Resolve(Views(s), a), Resolve(Views(s), b), len);
  }

  lemma LeftMoved(x: Buf, y: Buf, len: nat)
    requires len <= |Content(x)|
    ensures len <= |Content(Chain(x, y))| && Content(Chain(x, y))[..len] == Content(x)[..len]
    ensures Moved(Chain(x, y), len) == Chain(Moved(x, len), y)
  {
    MovedZero(y);
  }

  lemma CopiedRight(s: State, z: State, a: Src, b: Src, b': Src, len: nat, n: nat)
    requires Inv(s) && Copied(s, z, b, b', len, n) && Sound(s.handles, Chained(a, b))
    requires Content(Resolve(Views(s), a)) == []
    ensures Copied(s, z, Chained(a, b), Chained(a, b'), len, n)
  {
    hide Inv, Views, Moved, Content;
    Beside(s, z, Handles(b), a);
    RightMoved(Resolve(Views(s), a), Resolve(Views(s), b), len);
  }

  lemma RightMoved(x: Buf, y: Buf, len: nat)
    requires Content(x) == [] && len <= |Content(y)|
    ensures len <= |Content(Chain(x, y))| && Content(Chain(x, y))[..len] == Content(y)[..len]
    ensures Moved(Chain(x, y), len) == Chain(x, Moved(y, len))
  {
    MovedZero(x);
  }

  /** The first `k` bytes of the second half, after all of the first. */
  lemma BothMoved(v: map<nat, Value>, a: Src, b: Src, k: nat, len: nat)
    requires k <= |Content(Resolve(v, b))| && len == |Content(Resolve(v, a))| + k
    ensures var x, y, was := Resolve(v, a), Resolve(v, b), Resolve(v, Chained(a, b));
            && len <= |Content(was)| && Moved(was, len) == Chain(Moved(x, |Content(x)|), Moved(y, k))
            && Content(was)[..len] == Content(x) + Content(y)[..k]
  {
    assert Content(Resolve(v, Chained(a, b)))[..len] == Content(Resolve(v, a)) + Content(Resolve(v, b))[..k];
  }

  /** What two transfers into a new buffer add up to. */
  lemma BothCopied(s: State, z: State, n: nat, a: Src, a': Src, b: Src, b': Src, k: nat, len: nat)
    requires Sound(s.handles, Chained(a, b)) && n == s.next && n !in s.handles && Inv(z)
    requires k <= |Content(Resolve(Views(s), b))| && len == |Content(Resolve(Views(s), a))| + k
    requires Sound(z.handles, a') && Sound(z.handles, b')
    requires Handles(a') == Handles(a) && Size(a') == Size(a) && Handles(b') == Handles(b) && Size(b') == Size(b)
    requires Resolve(Views(z), a') == Moved(Resolve(Views(s), a), |Content(Resolve(Views(s), a))|)
    requires Resolve(Views(z), b') == Moved(Resolve(Views(s), b), k)
    requires Outlined(Views(z), a') == Outlined(Views(s), a) && Outlined(Views(z), b') == Outlined(Views(s), b)
    requires Views(z).Keys == Views(s).Keys + {n} && Elsewhere(Views(s), Views(z), Handles(a) + Handles(b))
    requires Views(z)[n] == Frozen(Content(Resolve(Views(s), a)) + Content(Resolve(Views(s), b))[..k])
    ensures Copied(s, z, Chained(a, b), Chained(a', b'), len, n)
  {
    hide Inv, Views, Content, Moved, Elsewhere, Resolve, Outlined, Sound, Handles, Size;
    OfChained(s, Views(s), a, b);
    OfChained(z, Views(z), a', b');
    BothMoved(Views(s), a, b, k, len);
  }

  lemma BothViews(s: State, t: State, u: State, w: State, z: State, n: nat, a: Src, a': Src, b: Src, left: Src, k: nat)
    requires n !in Views(s) && Views(t) == Views(s)[n := Mutable([])]
    requires Resolve(Views(t), a) == Resolve(Views(s), a) && Resolve(Views(u), b) == Resolve(Views(s), b)
    requires Gained(t, u, n, a, a', |Content(Resolve(Views(s), a))|)
    requires k <= |Content(Resolve(Views(s), b))| && Gained(u, w, n, b, left, k)
    requires Views(z) == Views(w)[n := Frozen(Views(w)[n].bytes)]
    ensures var x, y := Content(Resolve(Views(s), a)), Content(Resolve(Views(s), b));
            && Handles(a') == Handles(a) && Size(a') == Size(a) && Views(z).Keys == Views(s).Keys + {n}
            && Views(z)[n] == Frozen(x + y[..k]) && Resolve(Views(u), a') == Moved(Resolve(Views(s), a), |x|)
    ensures Elsewhere(Views(s), Views(z), Handles(a) + Handles(b))
  {
    hide Inv, Views, Content, Moved, Elsewhere, Resolve, Outlined, Sound, Size;
    var x, y := Content(Resolve(Views(s), a)), Content(Resolve(Views(s), b));
    Whole(x, y[..k]);
    FourSteps(Views(s), Views(t), Views(u), Views(w), Views(z), n, Handles(a), Handles(b));
  }

  lemma FirstOf(v: map<nat, Value>, b: Src, k: nat)
    requires k <= |Content(Resolve(v, b))|
    ensures Content(Resolve(v, Taken(b, k))) == Content(Resolve(v, b))[..k]
    ensures Content(Resolve(v, b))[..k][..k] == Content(Resolve(v, b))[..k]
  {
  }

  lemma OfChained(s: State, v: map<nat, Value>, a: Src, b: Src)
    ensures Resolve(v, Chained(a, b)) == Chain(Resolve(v, a), Resolve(v, b))
    ensures Outlined(v, Chained(a, b)) == Pair(Outlined(v, a), Outlined(v, b))
    ensures Sound(s.handles, Chained(a, b)) == (Sound(s.handles, a) && Sound(s.handles, b) && Handles(a) !! Handles(b))
    ensures Handles(Chained(a, b)) == Handles(a) + Handles(b) && Size(Chained(a, b)) == 1 + Size(a) + Size(b)
  {
  }

  lemma FourSteps(v0: map<nat, Value>, v1: map<nat, Value>, v2: map<nat, Value>, v3: map<nat, Value>,
                  v4: map<nat, Value>, n: nat, a: set<nat>, b: set<nat>)
    requires n !in v0 && n in v1 && n in v4 && v1 == v0[n := v1[n]] && v4 == v3[n := v4[n]]
    requires v2.Keys == v1.Keys && Elsewhere(v1, v2, a + {n})
    requires v3.Keys == v2.Keys && Elsewhere(v2, v3, b + {n})
    ensures v4.Keys == v0.Keys + {n} && Elsewhere(v0, v4, a + b)
  {
  }

  lemma Whole(x: seq<Byte>, y: seq<Byte>)
    ensures ([] + x[..|x|]) + y == x + y
  {
  }

  /** A chain cut inside its second half is copied through a new buffer. */
  method BothToBytes(m: Memory, a: Src, b: Src, len: nat, aRem: nat) returns (r: Option<(nat, Src)>)
    requires Inv(m.Now()) && Sound(m.handles, Chained(a, b)) && Sane(Resolve(m.Seen(), Chained(a, b)))
    requires len <= USIZE_MAX
    requires aRem == |Content(Resolve(m.Seen(), a))| < len <= |Content(Resolve(m.Seen(), Chained(a, b)))| && aRem > 0
    modifies m
    ensures r.Some? && Copied(old(m.Now()), m.Now(), Chained(a, b), r.value.1, len, r.value.0)
    ensures |m.mem| == |old(m.mem)| + 1
    decreases Size(Chained(a, b)), 1, Chained(a, b), 0
  {
    hide Inv, Views, Cells, Content, Sane, Moved, Copied, Elsewhere, Gained, Drained, Overflows,
         Outlined, TakesOver, Full, Room;
    ghost var s := m.Now();
    ghost var x, y := Resolve(m.Seen(), a), Resolve(m.Seen(), b);
    ChainContent(x, y);
    ChainSane(x, y);
    Fresh(s);
    SoundKeys(s.handles, Chained(a, b));
    var bufm := m.MutWithCapacity(len);
    ghost var t := m.Now();
    Grown(s, t, bufm);
    Beside(s, t, {bufm}, a);
    Beside(s, t, {bufm}, b);
    Mut(t, bufm);
    var got;
    ghost var full: map<nat, Value> := map[];
    got, full := Put(m, bufm, a, {});
    var a' := got.value;
    ghost var u := m.Now();
    DrainedGained(t, u, bufm, a, a', full, aRem);
    GainedBeside(t, u, bufm, a, a', aRem, b);
    var left := PutFirst(m, bufm, b, len - aRem);
    ghost var w := m.Now();
    GainedBeside(u, w, bufm, b, left, len - aRem, a');
    m.Freeze(bufm);
    Grown(w, m.Now(), bufm);
    Beside(w, m.Now(), {bufm}, a');
    Beside(w, m.Now(), {bufm}, left);
    BothViews(s, t, u, w, m.Now(), bufm, a, a', b, left, len - aRem);
    BothCopied(s, m.Now(), bufm, a, a', b, left, len - aRem, len);
    r := Some((bufm, Chained(a', left)));
  }

  /** A transfer into `h` leaves other cursors alone, and `h` in place. */
  lemma GainedBeside(s: State, t: State, h: nat, src: Src, r: Src, k: nat, b: Src)
    requires Inv(s) && Gained(s, t, h, src, r, k) && Sound(s.handles, b) && Handles(b) !! Handles(src) + {h}
    ensures Inv(t) && Sound(t.handles, b) && Resolve(Views(t), b) == Resolve(Views(s), b)
    ensures Sound(t.handles, r) && Handles(r) == Handles(src) && Size(r) == Size(src)
    ensures k <= |Content(Resolve(Views(s), src))| && Resolve(Views(t), r) == Moved(Resolve(Views(s), src), k)
    ensures Outlined(Views(t), r) == Outlined(Views(s), src) && Outlined(Views(t), b) == Outlined(Views(s), b)
    ensures h in t.handles && t.handles[h].BytesMut? && k <= t.handles[h].cap
  {
    hide Inv, Views, Moved, Content, Resolve;
    Beside(s, t, Handles(src) + {h}, b);
    Mut(t, h);
    Facts(t, h);
  }

  lemma Grown(s: State, t: State, n: nat)
    requires n in Views(t) && Views(t) == Views(s)[n := Views(t)[n]]
    ensures Elsewhere(Views(s), Views(t), {n})
  {
    hide Views;
  }

  /** When the source is offered to a buffer without capacity, the giver's buffer changes hands, in
      place and with no allocation, exactly if nobody else keeps it. */
  ghost predicate TakesOver(s: State, t: State, h: nat, src: Src, owned: set<nat>) {
    var len := Min(|Content(Resolve(Views(s), src))|, USIZE_MAX);
    h in s.handles && s.handles[h].BytesMut? && s.handles[h].cap == 0 && len > 0 ==>
      match Giver(Views(s), src, len)
      case Some(o) =>
        && o in s.handles && h in t.handles
        && (Alone(s, o, owned, len) <==> t.handles[h].ptr.alloc == s.handles[o].ptr.alloc)
        && (Alone(s, o, owned, len) ==> t.handles[h].ptr == s.handles[o].ptr && |t.mem| == |s.mem|)
      case None => true
  }

  /** How many bytes `put` takes: all there are, but a buffer without capacity asks for what
      `remaining` says, which is saturated. */
  ghost function Asked(cap: nat, t: Buf): nat {
    if cap == 0 then Min(|Content(t)|, USIZE_MAX) else |Content(t)|
  }

  /** `put`; the handles in `owned` are passed by value, the other leaves by reference.  `full` is
      what would be seen if nothing were dropped.  `None` is the panic of an overflow, which drops
      what was passed by value. */
  method Put(m: Memory, h: nat, src: Src, owned: set<nat>) returns (r: Option<Src>, ghost full: map<nat, Value>)
    requires Inv(m.Now()) && m.IsMut(h) && h !in Handles(src) && owned <= Handles(src)
    requires Sound(m.handles, src) && Sane(Resolve(m.Seen(), src))
    modifies m
    ensures r.None? <==> var was := Resolve(old(m.Seen()), src);
                         old(m.handles)[h].cap == 0 && Overflows(was, Asked(0, was))
    ensures r.None? ==> Inv(m.Now()) && m.Seen() == old(m.Seen()) - owned
    ensures r.Some? ==> Drained(old(m.Now()), m.Now(), h, src, r.value, owned, full,
                                Asked(old(m.handles)[h].cap, Resolve(old(m.Seen()), src)))
    ensures r.Some? ==> TakesOver(old(m.Now()), m.Now(), h, src, owned)
    ensures r.Some? ==> var all := Content(Resolve(old(m.Seen()), src));
                        |all| <= USIZE_MAX ==>
                          h in old(m.Seen()) && h in full && full[h] == Mutable(old(m.Seen())[h].bytes + all)
    ensures r.Some? ==> var x, all := old(m.handles)[h], |Content(Resolve(old(m.Seen()), src))|;
                        all <= USIZE_MAX && (x.cap > 0 || all == 0) ==>
                          && h in m.handles
                          && (all <= x.cap - x.len ==> m.handles[h] == x.WithLen(x.len + all))
                          && |m.mem| == |old(m.mem)|
                                        + if all <= x.cap - x.len || Room(old(m.Now()), h, all) then 0 else 1
    decreases if m.handles[h].cap == 0 && Content(Resolve(m.Seen(), src)) != [] then Size(src) else 0, 2, src, 0
  {
    hide Inv, Views, Cells, Content, Moved, Gained, Elsewhere, HandedOver, Alone, Full, Overflows, Room;
    ghost var s := m.Now();
    ghost var k := Asked(m.handles[h].cap, Resolve(Views(s), src));
    Facts(s, h);
    SrcRemainingIs(s, src);
    full := m.Seen();
    var rem := SrcRemaining(m.handles, src);
    var left := src;
    if rem == 0 {
      NothingOverflows(Resolve(Views(s), src));
      Unmoved(s, s, h, src);
    } else if m.handles[h].cap == 0 {
      var copied := CopyToBytes(m, src, rem);
      if copied.None? {
        DropSrc(m, src, owned);
        return None, full;
      }
      left, full := PutCopied(m, s, h, src, copied.value.1, owned, copied.value.0, rem);
      AllPut(Views(s), full, h, src, left, k);
      return Some(left), full;
    } else {
      left := PutChunks(m, h, src, rem);
    }
    full := m.Seen();
    GainedFull(s, m.Now(), h, src, left, k);
    AllPut(Views(s), full, h, src, left, k);
    NoneGone(m.handles);
    DropSrc(m, left, owned);
    r := Some(left);
  }

  lemma AllPut(v: map<nat, Value>, full: map<nat, Value>, h: nat, src: Src, r: Src, k: nat)
    requires Full(v, full, h, src, r, k)
    ensures h in v && h in full
    ensures var all := Content(Resolve(v, src)); k == |all| ==> full[h] == Mutable(v[h].bytes + all)
  {
    var all := Content(Resolve(v, src));
    assert all[..|all|] == all;
  }

  lemma NoneGone<V>(v: map<nat, V>)
    ensures v - {} == v
  {
  }

  /** The rest of `put` once the whole source is copied out as `n`. */
  method PutCopied(m: Memory, ghost s: State, h: nat, src: Src, left: Src, owned: set<nat>, n: nat, ghost len: nat)
      returns (r: Src, ghost full: map<nat, Value>)
    requires Inv(s) && h in s.handles && s.handles[h].BytesMut? && s.handles[h].cap == 0
    requires h !in Handles(src) && Sound(s.handles, src) && owned <= Handles(src)
    requires len == Asked(0, Resolve(Views(s), src)) > 0 && Copied(s, m.Now(), src, left, len, n)
    requires Handover(s, m.Now(), src, len, n)
    modifies m
    ensures Drained(s, m.Now(), h, src, r, owned, full, len) && TakesOver(s, m.Now(), h, src, owned)
  {
    hide Inv, Views, Cells, Content, Moved, Elsewhere, HandedOver, Alone, Full;
    r := left;
    ghost var t := m.Now();
    assert owned <= Handles(left);
    DropSrc(m, left, owned);
    ghost var u := m.Now();
    CopyLeft(s, t, u, h, src, r, n, len, owned);
    ghost var g := Giver(Views(s), src, len);
    if g.Some? {
      GiverIsLeaf(Views(s), src, len);
      Untouched(s, t, h, g.value, n, len);
      HandedUnique(s, t, u, g.value, n, len, owned);
    }
    Adopt(m, h, n);
    full := (Views(t) - {n})[h := Mutable(Views(t)[n].bytes)];
    AdoptDone(s, t, u, m.Now(), h, src, r, n, owned, full, len);
    if g.Some? { Lengths(s, t, g.value, n, len); }
  }

  lemma Lengths(s: State, t: State, o: nat, n: nat, len: nat)
    requires HandedOver(s, t, o, n, len)
    ensures |t.mem| == |s.mem| && o in s.handles
  {
  }

  lemma Untouched(s: State, t: State, h: nat, o: nat, n: nat, len: nat)
    requires HandedOver(s, t, o, n, len) && h in s.handles && h != o && h != n
    ensures h in t.handles && t.handles[h] == s.handles[h]
  {
  }

  lemma {:induction false} GiverIsLeaf(v: map<nat, Value>, src: Src, len: nat)
    ensures Giver(v, src, len).Some? ==> Giver(v, src, len).value in Handles(src)
  {
    match src
    case Chained(a, b) => GiverIsLeaf(v, a, len); GiverIsLeaf(v, b, len);
    case Taken(inner, _) => GiverIsLeaf(v, inner, len);
    case _ =>
  }

  lemma CopyLeft(s: State, t: State, u: State, h: nat, src: Src, r: Src, n: nat, len: nat, owned: set<nat>)
    requires Inv(s) && h in s.handles && s.handles[h].BytesMut? && h !in Handles(src) && Sound(s.handles, src)
    requires Copied(s, t, src, r, len, n) && s.handles[h].cap == 0 && len > 0 && Inv(u)
    requires owned <= Handles(src) && Views(u) == Views(t) - owned
    ensures n in Views(u) && n != h && n !in owned && h !in owned && n in Views(t)
    ensures h in u.handles && u.handles[h].BytesMut? && u.handles[h].len == 0
    ensures n in u.handles && u.handles[n].Bytes? && u.handles[n].len == len
  {
    hide Inv, Views, Content, Moved;
    SoundKeys(s.handles, src);
    Fresh(s);
    Facts(s, h);
    Mut(s, h);
    Mut(u, h);
    Mut(u, n);
    Facts(u, h);
    Facts(u, n);
  }

  lemma AdoptDone(s: State, t: State, u: State, w: State, h: nat, src: Src, r: Src, n: nat, owned: set<nat>,
                  full: map<nat, Value>, k: nat)
    requires Inv(s) && h in s.handles && s.handles[h].BytesMut? && s.handles[h].cap == 0
    requires h !in Handles(src) && Sound(s.handles, src) && owned <= Handles(src)
    requires Copied(s, t, src, r, k, n)
    requires n in Views(t) && full == (Views(t) - {n})[h := Mutable(Views(t)[n].bytes)]
    requires n != h && n !in owned && Views(u) == Views(t) - owned && n in Views(u)
    requires Views(w) == (Views(u) - {n})[h := Mutable(Views(u)[n].bytes)] && Inv(w)
    ensures Drained(s, w, h, src, r, owned, full, k)
  {
    hide Inv, Views, Content, Moved, Resolve, Full;
    AdoptFull(s, t, h, src, r, n, full, k);
    assert Views(w) == full - owned;
    SoundKeys(s.handles, src);
    if owned == {} {
      assert Views(u) == Views(t);
      Beside(t, w, {h, n}, r);
    }
  }

  lemma AdoptFull(s: State, t: State, h: nat, src: Src, r: Src, n: nat, full: map<nat, Value>, k: nat)
    requires Inv(s) && h in s.handles && s.handles[h].BytesMut? && s.handles[h].cap == 0
    requires h !in Handles(src) && Sound(s.handles, src) && n != h
    requires Copied(s, t, src, r, k, n)
    requires n in Views(t) && full == (Views(t) - {n})[h := Mutable(Views(t)[n].bytes)]
    ensures Full(Views(s), full, h, src, r, k)
  {
    hide Inv, Views, Content, Moved, Resolve;
    SoundKeys(s.handles, src);
    Fresh(s);
    Facts(s, h);
    var first := Content(Resolve(Views(s), src))[..k];
    assert Views(s)[h].bytes + first == first;
    ResolveElsewhere(Views(t), full, r, {h, n});
  }

  /** `put` once the source is copied to `n`: take its allocation over, or copy again. */
  method Adopt(m: Memory, h: nat, n: nat)
    requires Inv(m.Now()) && m.IsMut(h) && m.IsBytes(n) && m.handles[n].len > 0 && m.handles[h].len == 0
    modifies m
    ensures Inv(m.Now()) && m.IsMut(h)
    ensures m.Seen() == (old(m.Seen()) - {n})[h := Mutable(old(m.Seen())[n].bytes)]
    ensures Unique(old(m.Now()), n) ==> m.handles[h].ptr == old(m.handles)[n].ptr && |m.mem| == |old(m.mem)|
    ensures !Unique(old(m.Now()), n) && old(m.handles)[h].cap == 0 ==>
              m.handles[h].ptr.alloc != old(m.handles)[n].ptr.alloc
  {
    hide Inv, Views, Cells;
    Facts(m.Now(), h);
    Facts(m.Now(), n);
    var unique := m.IsUnique(n);
    if !m.handles[n].IsStatic() { UniqueIsAlone(m.Now(), n); }
    Mut(m.Now(), h);
    if unique {
      m.IntoMut(n);
      Mut(m.Now(), h);
      m.Assign(h, n);
      assert m.Seen() == (old(m.Seen()) - {n})[h := Mutable(old(m.Seen())[n].bytes)];
    } else {
      AppendCopy(m, h, n);
    }
  }

  /** The copy is appended and dropped; it was on another allocation than the one `h` ends on, if
      `h` had no room. */
  method AppendCopy(m: Memory, h: nat, n: nat)
    requires Inv(m.Now()) && m.IsMut(h) && m.IsBytes(n) && m.handles[n].len > 0 && m.handles[h].len == 0
    requires n in m.Seen() && h in m.Seen()
    modifies m
    ensures Inv(m.Now()) && m.IsMut(h)
    ensures m.Seen() == (old(m.Seen()) - {n})[h := Mutable(old(m.Seen())[n].bytes)]
    ensures old(m.handles)[h].cap == 0 ==> m.handles[h].ptr.alloc != old(m.handles)[n].ptr.alloc
  {
    hide Inv, Views, Cells;
    Facts(m.Now(), h);
    Facts(m.Now(), n);
    var bytes := m.Read(m.handles[n].ptr, m.handles[n].len);
    m.ExtendFromSlice(h, bytes);
    assert [] + bytes == bytes;
    if old(m.handles)[h].cap == 0 { OffBuffer(m.Now(), h, n); }
    Released(m.Now(), n);
    m.Drop(n);
    assert m.Seen() == (old(m.Seen()) - {n})[h := Mutable(old(m.Seen())[n].bytes)];
  }

  /** A mutable handle that is alone on its buffer shares it with no other view. */
  lemma OffBuffer(s: State, h: nat, n: nat)
    requires Inv(s) && h in s.handles && n in s.handles && h != n && s.handles[h].BytesMut? && Unique(s, h)
    requires s.handles[n].Bytes? && s.handles[n].len > 0
    ensures s.handles[h].ptr.alloc != s.handles[n].ptr.alloc
  {
    Facts(s, h);
    Facts(s, n);
    UniqueIsAlone(s, h);
    if !s.handles[n].IsStatic() { assert n in Keepers(s, s.handles[n].ptr.alloc); }
  }

  /** What the next chunk is. */
  lemma NextChunk(was: Buf, k: nat, chunk: seq<Byte>)
    requires Sane(was) && k <= |Content(was)| && chunk == Chunk(Moved(was, k))
    ensures k + |chunk| <= |Content(was)| && |chunk| <= |Content(Moved(was, k))| && |chunk| <= USIZE_MAX
    ensures k < |Content(was)| ==> |chunk| > 0
    ensures Moved(Moved(was, k), |chunk|) == Moved(was, k + |chunk|)
    ensures Content(was)[..k + |chunk|] == Content(was)[..k] + chunk
  {
    hide Moved, Content, Sane;
    MovedContent(was, k);
    ChunkIsPrefix(Moved(was, k));
    MovedTwice(was, k, |chunk|);
  }

  /** One more chunk. */
  lemma GainMore(s: State, t: State, u: State, w: State, h: nat, src: Src, q: Src, r: Src, k: nat, chunk: seq<Byte>)
    requires Gained(s, t, h, src, q, k) && Sane(Resolve(Views(s), src))
    requires chunk == Chunk(Resolve(Views(t), q)) && |chunk| <= |Content(Resolve(Views(t), q))|
    requires Views(u) == Views(t)[h := Mutable(Views(t)[h].bytes + chunk)]
    requires Resolve(Views(u), q) == Resolve(Views(t), q) && Outlined(Views(u), q) == Outlined(Views(t), q)
    requires OnlyLeaves(u, w, q, r) && Resolve(Views(w), r) == Moved(Resolve(Views(u), q), |chunk|)
    ensures Gained(s, w, h, src, r, k + |chunk|)
  {
    hide Inv, Views, Content, Moved, Sane, Resolve, Chunk, Sound, Handles, Size;
    NextChunk(Resolve(Views(s), src), k, chunk);
  }

  /** What holds on the way. */
  lemma GainedFacts(s: State, t: State, h: nat, src: Src, r: Src, k: nat)
    requires Gained(s, t, h, src, r, k) && Sane(Resolve(Views(s), src))
    ensures Inv(t) && Sound(t.handles, r) && h in t.handles && t.handles[h].BytesMut? && h !in Handles(r)
    ensures k <= |Content(Resolve(Views(s), src))| && h in Views(t) && Views(t)[h].Mutable?
    ensures Resolve(Views(t), r) == Moved(Resolve(Views(s), src), k) && Sane(Resolve(Views(t), r))
    ensures SrcRemaining(t.handles, r) == Min(|Content(Resolve(Views(s), src))| - k, USIZE_MAX)
  {
    hide Inv, Views, Content, Moved, Resolve, Outlined, Elsewhere;
    Mut(t, h);
    MovedContent(Resolve(Views(s), src), k);
    SrcRemainingIs(t, r);
  }

  /** The copying loop of `put`. */
  method PutChunks(m: Memory, h: nat, src: Src, rem: nat) returns (r: Src)
    requires Inv(m.Now()) && m.IsMut(h) && h !in Handles(src)
    requires Sound(m.handles, src) && Sane(Resolve(m.Seen(), src)) && rem == SrcRemaining(m.handles, src)
    modifies m
    ensures Gained(old(m.Now()), m.Now(), h, src, r, |Content(Resolve(old(m.Seen()), src))|)
    ensures InPlace(old(m.Now()), m.Now(), h, |Content(Resolve(old(m.Seen()), src))|)
  {
    hide Inv, Views, Cells, Content, Moved, Resolve, Chunk, Sound, Handles, Sane, Gained, SrcRemaining;
    hide Room, Keepers, RecordsElsewhere;
    ghost var s := m.Now();
    ghost var was := Resolve(m.Seen(), src);
    SrcRemainingIs(s, src);
    Facts(s, h);
    m.Reserve(h, rem);
    r := src;
    ghost var k, x, size := 0, m.handles[h], |m.mem|;
    Unmoved(s, m.Now(), h, src);
    GainedFacts(s, m.Now(), h, src, r, k);
    while SrcRemaining(m.handles, r) > 0
      invariant Gained(s, m.Now(), h, src, r, k) && Sound(m.handles, r)
      invariant k <= |Content(was)| && SrcRemaining(m.handles, r) == Min(|Content(was)| - k, USIZE_MAX)
      invariant |Content(was)| <= USIZE_MAX ==>
                  h in m.handles && m.handles[h] == x.WithLen(x.len + k) && |m.mem| == size
      decreases |Content(was)| - k
    {
      ghost var t := m.Now();
      GainedFacts(s, t, h, src, r, k);
      var chunk := SrcChunk(m, r);
      NextChunk(was, k, chunk);
      m.ExtendFromSlice(h, chunk);
      ghost var u := m.Now();
      Beside(t, u, {h}, r);
      ghost var before := r;
      var moved := SrcAdvance(m, r, |chunk|);
      KeptRecord(u.handles, m.handles, Handles(before), h);
      r := moved.value;
      GainMore(s, t, u, m.Now(), h, src, before, r, k, chunk);
      k := k + |chunk|;
      GainedFacts(s, m.Now(), h, src, r, k);
    }
  }

  lemma KeptRecord(hs: map<nat, Handle>, now: map<nat, Handle>, ids: set<nat>, h: nat)
    requires RecordsElsewhere(hs, now, ids) && h in hs && h !in ids
    ensures h in now && now[h] == hs[h]
  {
  }

  /** `h` took `len` more bytes where it was if they fit; memory was allocated, once, exactly if there
      was no room to be had. */
  ghost predicate InPlace(s: State, t: State, h: nat, len: nat) {
    h in s.handles && s.handles[h].BytesMut? && len <= USIZE_MAX ==>
      var x := s.handles[h];
      && h in t.handles && (len <= x.cap - x.len ==> t.handles[h] == x.WithLen(x.len + len))
      && |t.mem| == |s.mem| + if len <= x.cap - x.len || Room(s, h, len) then 0 else 1
  }

  /** Nothing gained yet. */
  lemma Unmoved(s: State, t: State, h: nat, src: Src)
    requires Inv(s) && Inv(t) && Views(t) == Views(s) && h !in Handles(src) && Sound(s.handles, src)
    requires h in s.handles && s.handles[h].BytesMut?
    ensures Gained(s, t, h, src, src, 0)
  {
    hide Inv, Views, Content, Moved, Resolve;
    MovedZero(Resolve(Views(s), src));
    Beside(s, t, {}, src);
    Facts(s, h);
    Mut(s, h);
    assert Views(s)[h].bytes + Content(Resolve(Views(s), src))[..0] == Views(s)[h].bytes;
  }
}
