/** Many threads clone, split, convert and drop handles on one buffer.  Every atomic access is a step;
    any number of threads interleave.

    The buffer starts as an unpromoted `BytesMut`, the handle `0`; freezing it gives the `Bytes` that
    threads may clone at the same time.  A handle that some thread is cloning is borrowed: it cannot
    be dropped or used through `&mut`.  A conversion of the last handle takes the buffer over, and it
    may be promoted once more.

    Sizes are not part of the steps.  A handle that takes the buffer over, or reclaims it, at count 1
    is taken to write over all that it takes back, the bytes under every pending copy included;
    `Streams.OverwrittenFront` and `Streams.OverwrittenByBytes` do. */
module Promotion {

  datatype Word = Unpromoted | Promoted(block: nat)

  /** Where a thread stands inside `clone_inner`, `promote_ref`, `release` or `into_vec`. */
  datatype Pc =
    | AtLoad(handle: nat)                              // about to load the `data` word
    | AtAllocate(handle: nat)                          // saw it unpromoted
    | AtExchange(handle: nat, own: nat)                // holds a fresh block counted 2
    | AtRelease(handle: nat, own: nat, winner: nat)    // lost the exchange
    | AtIncrement(handle: nat, winner: nat)            // about to count itself
    | AtFree                                           // took the last count: the buffer is its to free
    | AtVec                                            // has the buffer as a vector
    | AtCopy                                           // a conversion gave its count back, bytes not yet copied
  {
    predicate Borrows(h: nat) {
      (AtLoad? || AtAllocate? || AtExchange? || AtRelease? || AtIncrement?) && handle == h
    }

    /** Has the buffer, with no handle left. */
    predicate Ends() { AtFree? || AtVec? }

    predicate Holds(b: nat) { (AtExchange? || AtRelease?) && own == b }
  }

  /** `blocks[b]` is the count of control block `b`.  `installs` has the blocks that a `data` word came
      to point to, and `lost` counts the failed exchanges.  The handles in `muts` are
      `BytesMut`s.  The threads in `spoiled` are about to copy bytes that have been overwritten. */
  datatype State = State(handles: map<nat, Word>, next: nat, blocks: seq<nat>, threads: map<nat, Pc>,
                         frees: nat, installs: set<nat>, lost: nat, muts: set<nat>, spoiled: set<nat>)

  const START := State(map[0 := Unpromoted], 1, [], map[], 0, {}, 0, {0}, {})

  datatype Action =
    | Begin(thread: nat, handle: nat)
    | Load(thread: nat)
    | Allocate(thread: nat)
    | Exchange(thread: nat)
    | Release(thread: nat)
    | Increment(thread: nat)
    | Drop(thread: nat, handle: nat)
    | IntoVec(thread: nat, handle: nat)
    | IntoMut(thread: nat, handle: nat)
    | FromVec(thread: nat)                             // a vector becomes a `BytesMut`
    | Free(thread: nat)
    | Copy(thread: nat)
    | Split(thread: nat, handle: nat)                  // `split_to`, `split_off`, `truncate`: through `&mut self`
    | Freeze(thread: nat, handle: nat, slack: bool)    // `slack`: the vector has spare room
    | Reclaim(thread: nat, handle: nat)                // `reserve` or `try_reclaim` at count 1

  predicate Borrowed(s: State, h: nat) {
    exists t | t in s.threads :: s.threads[t].Borrows(h)
  }

  predicate Enabled(s: State, a: Action) {
    match a
    case Begin(t, h) => t !in s.threads && h in s.handles && h !in s.muts
    case Load(t) => t in s.threads && s.threads[t].AtLoad? && s.threads[t].handle in s.handles
    case Allocate(t) => t in s.threads && s.threads[t].AtAllocate?
    case Exchange(t) => t in s.threads && s.threads[t].AtExchange? && s.threads[t].handle in s.handles
    case Release(t) => t in s.threads && s.threads[t].AtRelease? && s.threads[t].own < |s.blocks|
    case Increment(t) => t in s.threads && s.threads[t].AtIncrement? && s.threads[t].winner < |s.blocks|
    case Drop(t, h) => Held(s, t, h)
    case IntoVec(t, h) => Held(s, t, h) && h !in s.muts
    case IntoMut(t, h) => Held(s, t, h) && h !in s.muts
    case FromVec(t) => t in s.threads && s.threads[t].AtVec?
    case Free(t) => t in s.threads && s.threads[t].Ends()
    case Copy(t) => t in s.threads && s.threads[t].AtCopy?
    case Split(t, h) => Held(s, t, h)
    case Freeze(t, h, _) => Held(s, t, h) && h in s.muts
    case Reclaim(t, h) => Held(s, t, h) && h in s.muts && s.handles[h].Promoted? && s.blocks[s.handles[h].block] == 1
  }

  /** An idle thread holds `h` by value or through `&mut`. */
  predicate Held(s: State, t: nat, h: nat) {
    t !in s.threads && h in s.handles && !Borrowed(s, h) && InRange(s, s.handles[h])
  }

  predicate InRange(s: State, w: Word) { w.Promoted? ==> w.block < |s.blocks| }

  /** `fetch_sub(1)`; a count never goes below zero in a run, so saturation does not matter. */
  function Decremented(blocks: seq<nat>, b: nat): seq<nat>
    requires b < |blocks|
  {
    blocks[b := if blocks[b] == 0 then 0 else blocks[b] - 1]
  }

  function Next(s: State, a: Action): State
    requires Enabled(s, a)
  {
    match a
    case Begin(t, h) => s.(threads := s.threads[t := AtLoad(h)])
    case Load(t) =>
      var h := s.threads[t].handle;
      (match s.handles[h]
       case Unpromoted => s.(threads := s.threads[t := AtAllocate(h)])
       case Promoted(b) => s.(threads := s.threads[t := AtIncrement(h, b)]))
    case Allocate(t) =>
      s.(blocks := s.blocks + [2], threads := s.threads[t := AtExchange(s.threads[t].handle, |s.blocks|)])
    case Exchange(t) =>
      var h, own := s.threads[t].handle, s.threads[t].own;
      (match s.handles[h]
       case Unpromoted =>
         s.(handles := s.handles[h := Promoted(own)][s.next := Promoted(own)], next := s.next + 1,
            installs := s.installs + {own}, threads := s.threads - {t})
       case Promoted(b) => s.(threads := s.threads[t := AtRelease(h, own, b)], lost := s.lost + 1))
    case Release(t) =>
      var pc := s.threads[t];
      s.(blocks := Decremented(s.blocks, pc.own),
         frees := if s.blocks[pc.own] == 1 then s.frees + 1 else s.frees,
         threads := s.threads[t := AtIncrement(pc.handle, pc.winner)])
    case Increment(t) =>
      var b := s.threads[t].winner;
      s.(blocks := s.blocks[b := s.blocks[b] + 1],
         handles := s.handles[s.next := Promoted(b)], next := s.next + 1, threads := s.threads - {t})
    case Drop(t, h) =>
      var u := s.(handles := s.handles - {h});
      (match s.handles[h]
       case Unpromoted => u.(frees := s.frees + 1)
       case Promoted(b) =>
         u.(blocks := Decremented(s.blocks, b),
            threads := if s.blocks[b] == 1 then s.threads[t := AtFree] else s.threads))
    case IntoVec(t, h) =>
      var u := s.(handles := s.handles - {h});
      (match s.handles[h]
       case Unpromoted => u.(threads := s.threads[t := AtVec])
       case Promoted(b) =>
         var v := u.(blocks := Decremented(s.blocks, b));
         if s.blocks[b] == 1 then v.(threads := s.threads[t := AtVec], spoiled := s.spoiled + Copying(s.threads))
         else v.(threads := s.threads[t := AtCopy]))
    case IntoMut(t, h) =>
      (match s.handles[h]
       case Unpromoted => s.(muts := s.muts + {h})
       case Promoted(b) =>
         var v := s.(blocks := Decremented(s.blocks, b));
         if s.blocks[b] == 1 then
           v.(handles := s.handles[h := Unpromoted], muts := s.muts + {h}, spoiled := s.spoiled + Copying(s.threads))
         else v.(handles := s.handles - {h}, threads := s.threads[t := AtCopy]))
    case FromVec(t) =>
      s.(handles := s.handles[s.next := Unpromoted], next := s.next + 1, muts := s.muts + {s.next},
         threads := s.threads - {t})
    case Free(t) => s.(frees := s.frees + 1, threads := s.threads - {t})
    case Copy(t) => s.(threads := s.threads - {t}, spoiled := s.spoiled - {t})
    case Split(t, h) =>
      var u := s.(next := s.next + 1, muts := if h in s.muts then s.muts + {s.next} else s.muts);
      (match s.handles[h]
       case Unpromoted =>
         var n := |s.blocks|;
         u.(blocks := s.blocks + [2], installs := s.installs + {n},
            handles := s.handles[h := Promoted(n)][s.next := Promoted(n)])
       case Promoted(b) =>
         u.(blocks := s.blocks[b := s.blocks[b] + 1], handles := s.handles[s.next := Promoted(b)]))
    case Freeze(t, h, slack) =>
      var u := s.(muts := s.muts - {h});
      if s.handles[h] == Unpromoted && slack then
        var n := |s.blocks|;
        u.(blocks := s.blocks + [1], installs := s.installs + {n}, handles := s.handles[h := Promoted(n)])
      else u
    case Reclaim(t, h) => s.(spoiled := s.spoiled + Copying(s.threads))
  }

  function Copying(threads: map<nat, Pc>): set<nat> { set t | t in threads && threads[t].AtCopy? }

  // ===== Runs =====

  predicate Legal(run: seq<Action>)
    decreases |run|, 0
  {
    run == [] || (Legal(run[..|run| - 1]) && Enabled(After(run[..|run| - 1]), run[|run| - 1]))
  }

  function After(run: seq<Action>): State
    requires Legal(run)
    decreases |run|, 1
  {
    if run == [] then START else Next(After(run[..|run| - 1]), run[|run| - 1])
  }

  // ===== The invariant =====

  ghost function Freeing(threads: map<nat, Pc>): set<nat> { set t | t in threads && threads[t].Ends() }

  ghost function Losing(threads: map<nat, Pc>): set<nat> { set t | t in threads && threads[t].AtRelease? }

  /** Blocks that were never installed and that no thread holds any more. */
  ghost function Stranded(s: State): set<nat> {
    set b: nat | b < |s.blocks| && b !in s.installs && s.blocks[b] != 2
  }

  ghost predicate PcOk(s: State, pc: Pc) {
    match pc
    case AtLoad(h) => h in s.handles
    case AtAllocate(h) => h in s.handles
    case AtExchange(h, own) => h in s.handles && own < |s.blocks| && s.blocks[own] == 2 && own !in s.installs
    case AtRelease(h, own, w) =>
      && h in s.handles && s.handles[h] == Promoted(w)
      && own < |s.blocks| && s.blocks[own] == 2 && own !in s.installs
    case AtIncrement(h, w) => h in s.handles && s.handles[h] == Promoted(w)
    case _ => true
  }

  ghost predicate Holders(s: State) {
    forall t, u | t in s.threads && u in s.threads && t != u ::
      !((s.threads[t].AtExchange? || s.threads[t].AtRelease?) && s.threads[u].Holds(s.threads[t].own))
  }

  /** An unpromoted handle is alone; a block counted above zero is carried by all handles, and counts
      them; every other block that was installed is at zero. */
  ghost predicate HandlesOk(s: State) {
    && (forall h | h in s.handles :: h < s.next && WordOk(s, s.handles[h]))
    && (forall b | b in s.installs :: InstalledOk(s, b))
  }

  ghost predicate WordOk(s: State, w: Word) {
    match w
    case Unpromoted => |s.handles| == 1
    case Promoted(b) => b in s.installs && b < |s.blocks| && s.blocks[b] == |s.handles|
  }

  ghost predicate InstalledOk(s: State, b: nat) {
    && b < |s.blocks|
    && (s.blocks[b] == 0 || (s.handles != map[] && forall h | h in s.handles :: s.handles[h] == Promoted(b)))
  }

  ghost predicate BlockOk(s: State, b: nat)
    requires b < |s.blocks|
  {
    b in s.installs || s.blocks[b] == 1
    || (s.blocks[b] == 2 && exists t :: t in s.threads && s.threads[t].Holds(b))
  }

  ghost predicate Inv(s: State) {
    && HandlesOk(s)
    && (forall t | t in s.threads :: PcOk(s, s.threads[t]))
    && Holders(s)
    && (forall b: nat | b < |s.blocks| :: BlockOk(s, b))
    && |Stranded(s)| + |Losing(s.threads)| == s.lost
    && s.frees + |Freeing(s.threads)| == (if |s.handles| == 0 then 1 else 0)
  }

  lemma CountFreeing(m: map<nat, Pc>, t: nat, pc: Pc)
    ensures |Freeing(m - {t})| == |Freeing(m)| - (if t in m && m[t].Ends() then 1 else 0)
    ensures |Freeing(m[t := pc])| == |Freeing(m - {t})| + (if pc.Ends() then 1 else 0)
  {
    FreeingWithout(m, t);
    FreeingWithout(m[t := pc], t);
    assert m[t := pc] - {t} == m - {t};
  }

  lemma FreeingWithout(m: map<nat, Pc>, t: nat)
    ensures |Freeing(m - {t})| == |Freeing(m)| - (if t in m && m[t].Ends() then 1 else 0)
  {
    assert Freeing(m - {t}) == Freeing(m) - {t};
  }

  lemma CountLosing(m: map<nat, Pc>, t: nat, pc: Pc)
    ensures |Losing(m - {t})| == |Losing(m)| - (if t in m && m[t].AtRelease? then 1 else 0)
    ensures |Losing(m[t := pc])| == |Losing(m - {t})| + (if pc.AtRelease? then 1 else 0)
  {
    LosingWithout(m, t);
    LosingWithout(m[t := pc], t);
    assert m[t := pc] - {t} == m - {t};
  }

  lemma LosingWithout(m: map<nat, Pc>, t: nat)
    ensures |Losing(m - {t})| == |Losing(m)| - (if t in m && m[t].AtRelease? then 1 else 0)
  {
    assert Losing(m - {t}) == Losing(m) - {t};
  }

  lemma StartOk()
    ensures Inv(START)
  {
    assert Stranded(START) == {} && Losing(START.threads) == {} && Freeing(START.threads) == {};
    assert START.handles.Keys == {0};
  }

  /** The witnesses that other threads give for the blocks they hold. */
  lemma StillHeld(s: State, u: State, t: nat)
    requires (forall b: nat | b < |s.blocks| :: BlockOk(s, b)) && |s.blocks| <= |u.blocks|
    requires u.threads - {t} == s.threads - {t}
    ensures forall b: nat | b < |s.blocks| && u.blocks[b] == s.blocks[b] && (b in s.installs ==> b in u.installs)
              && (t in s.threads && s.threads[t].Holds(b) ==> t in u.threads && u.threads[t].Holds(b)) ::
              BlockOk(u, b)
  {
    forall b: nat | b < |s.blocks| && u.blocks[b] == s.blocks[b] && (b in s.installs ==> b in u.installs)
      && (t in s.threads && s.threads[t].Holds(b) ==> t in u.threads && u.threads[t].Holds(b))
      ensures BlockOk(u, b)
    {
      assert BlockOk(s, b);
      if b !in s.installs && s.blocks[b] != 1 {
        var v :| v in s.threads && s.threads[v].Holds(b);
        assert v != t ==> v in (u.threads - {t}) && (u.threads - {t})[v] == (s.threads - {t})[v];
        assert v in u.threads && u.threads[v].Holds(b);
      }
    }
  }

  /** Steps that leave the handles and the counts of installed blocks alone. */
  lemma SameTable(s: State, u: State)
    requires HandlesOk(s) && u.handles == s.handles && u.next == s.next && u.installs == s.installs
    requires |s.blocks| <= |u.blocks| && forall b: nat | b < |s.blocks| && b in s.installs :: u.blocks[b] == s.blocks[b]
    ensures HandlesOk(u)
  {
    forall b | b in u.installs ensures InstalledOk(u, b) { assert InstalledOk(s, b); }
  }

  /** A step that only moves thread `t` to a place where it holds nothing new. */
  lemma MoveOk(s: State, t: nat, pc: Pc)
    requires Inv(s)
    requires t in s.threads ==> !s.threads[t].AtExchange? && !s.threads[t].AtRelease? && !s.threads[t].Ends()
    requires PcOk(s, pc) && !pc.AtExchange? && !pc.AtRelease? && !pc.Ends()
    ensures Inv(s.(threads := s.threads[t := pc]))
  {
    var u := s.(threads := s.threads[t := pc]);
    MoveThreads(s, t, pc);
    SameTable(s, u);
    hide PcOk, Holders, BlockOk, HandlesOk;
    CountFreeing(s.threads, t, pc);
    CountLosing(s.threads, t, pc);
    assert Stranded(u) == Stranded(s);
  }

  lemma MoveThreads(s: State, t: nat, pc: Pc)
    requires Inv(s) && PcOk(s, pc) && !pc.AtExchange? && !pc.AtRelease?
    requires t in s.threads ==> !s.threads[t].AtExchange? && !s.threads[t].AtRelease?
    ensures var u := s.(threads := s.threads[t := pc]);
            && Holders(u) && (forall v | v in u.threads :: PcOk(u, u.threads[v]))
            && forall b: nat | b < |u.blocks| :: BlockOk(u, b)
  {
    var u := s.(threads := s.threads[t := pc]);
    assert u.threads - {t} == s.threads - {t};
    StillHeld(s, u, t);
    forall v | v in u.threads ensures PcOk(u, u.threads[v]) { if v != t { assert PcOk(s, s.threads[v]); } }
  }

  lemma BeginOk(s: State, t: nat, h: nat)
    requires Inv(s) && Enabled(s, Begin(t, h))
    ensures Inv(Next(s, Begin(t, h)))
  {
    MoveOk(s, t, AtLoad(h));
  }

  lemma LoadOk(s: State, t: nat)
    requires Inv(s) && Enabled(s, Load(t))
    ensures Inv(Next(s, Load(t)))
  {
    var h := s.threads[t].handle;
    match s.handles[h]
    case Unpromoted => MoveOk(s, t, AtAllocate(h));
    case Promoted(b) => MoveOk(s, t, AtIncrement(h, b));
  }

  lemma AllocateOk(s: State, t: nat)
    requires Inv(s) && Enabled(s, Allocate(t))
    ensures Inv(Next(s, Allocate(t)))
  {
    var u := Next(s, Allocate(t));
    var pc := u.threads[t];
    AllocateThreads(s, t);
    AllocateBlocks(s, t);
    SameTable(s, u);
    hide PcOk, Holders, BlockOk, HandlesOk;
    CountFreeing(s.threads, t, pc);
    CountLosing(s.threads, t, pc);
    assert Stranded(u) == Stranded(s);
  }

  lemma AllocateThreads(s: State, t: nat)
    requires Inv(s) && Enabled(s, Allocate(t))
    ensures var u := Next(s, Allocate(t)); Holders(u) && forall v | v in u.threads :: PcOk(u, u.threads[v])
  {
    var u := Next(s, Allocate(t));
    assert PcOk(s, s.threads[t]);
    forall v | v in u.threads ensures PcOk(u, u.threads[v]) { if v != t { assert PcOk(s, s.threads[v]); } }
  }

  lemma AllocateBlocks(s: State, t: nat)
    requires Inv(s) && Enabled(s, Allocate(t))
    ensures var u := Next(s, Allocate(t)); forall b: nat | b < |u.blocks| :: BlockOk(u, b)
  {
    var u := Next(s, Allocate(t));
    assert u.threads - {t} == s.threads - {t};
    StillHeld(s, u, t);
    assert BlockOk(u, |s.blocks|) by { assert u.threads[t].Holds(|s.blocks|); }
  }

  lemma WinOk(s: State, t: nat)
    requires Inv(s) && Enabled(s, Exchange(t)) && s.handles[s.threads[t].handle] == Unpromoted
    ensures Inv(Next(s, Exchange(t)))
  {
    var u := Next(s, Exchange(t));
    var own := s.threads[t].own;
    WinHandles(s, t);
    WinThreads(s, t);
    assert PcOk(s, s.threads[t]);
    hide PcOk, Holders, BlockOk, HandlesOk;
    CountFreeing(s.threads, t, AtFree);
    CountLosing(s.threads, t, AtFree);
    assert Stranded(u) == Stranded(s);
  }

  lemma WinHandles(s: State, t: nat)
    requires Inv(s) && Enabled(s, Exchange(t)) && s.handles[s.threads[t].handle] == Unpromoted
    ensures var u := Next(s, Exchange(t)); HandlesOk(u) && |u.handles| == 2 && |s.handles| == 1
  {
    assert PcOk(s, s.threads[t]);
    TwoHandles(s, Next(s, Exchange(t)), s.threads[t].handle, s.threads[t].own);
  }

  /** The only handle `h` and its first copy, on the block `n` that has just been installed. */
  lemma TwoHandles(s: State, u: State, h: nat, n: nat)
    requires Inv(s) && h in s.handles && s.handles[h] == Unpromoted
    requires u.handles == s.handles[h := Promoted(n)][s.next := Promoted(n)] && u.next == s.next + 1
    requires u.installs == s.installs + {n} && n !in s.installs && n < |u.blocks| && u.blocks[n] == 2
    requires |s.blocks| <= |u.blocks| && forall b: nat | b < |s.blocks| :: u.blocks[b] == s.blocks[b]
    ensures HandlesOk(u) && |u.handles| == 2 && |s.handles| == 1
  {
    OnlyOne(s, h);
    NoneInstalled(s, h);
    hide PcOk, Holders, BlockOk, Freeing, Losing, Stranded;
    assert u.handles.Keys == {h, s.next} && |u.handles| == |u.handles.Keys|;
  }

  lemma WinThreads(s: State, t: nat)
    requires Inv(s) && Enabled(s, Exchange(t)) && s.handles[s.threads[t].handle] == Unpromoted
    ensures var u := Next(s, Exchange(t));
            && Holders(u) && (forall v | v in u.threads :: PcOk(u, u.threads[v]))
            && forall b: nat | b < |u.blocks| :: BlockOk(u, b)
  {
    var u, h, own := Next(s, Exchange(t)), s.threads[t].handle, s.threads[t].own;
    OnlyOne(s, h);
    assert PcOk(s, s.threads[t]);
    assert u.threads - {t} == s.threads - {t};
    StillHeld(s, u, t);
    forall v | v in u.threads ensures PcOk(u, u.threads[v]) {
      assert PcOk(s, s.threads[v]) && !s.threads[v].Holds(own);
    }
  }

  lemma LoseOk(s: State, t: nat)
    requires Inv(s) && Enabled(s, Exchange(t)) && s.handles[s.threads[t].handle].Promoted?
    ensures Inv(Next(s, Exchange(t)))
  {
    var u := Next(s, Exchange(t));
    LoseThreads(s, t);
    SameTable(s, u);
    hide PcOk, Holders, BlockOk, HandlesOk;
    CountFreeing(s.threads, t, u.threads[t]);
    CountLosing(s.threads, t, u.threads[t]);
    assert Stranded(u) == Stranded(s);
  }

  lemma LoseThreads(s: State, t: nat)
    requires Inv(s) && Enabled(s, Exchange(t)) && s.handles[s.threads[t].handle].Promoted?
    ensures var u := Next(s, Exchange(t));
            && Holders(u) && (forall v | v in u.threads :: PcOk(u, u.threads[v]))
            && forall b: nat | b < |u.blocks| :: BlockOk(u, b)
  {
    var u := Next(s, Exchange(t));
    assert PcOk(s, s.threads[t]);
    assert u.threads - {t} == s.threads - {t};
    StillHeld(s, u, t);
    forall v | v in u.threads ensures PcOk(u, u.threads[v]) { if v != t { assert PcOk(s, s.threads[v]); } }
  }

  /** The losing block goes from two to one: it frees nothing, and nobody holds it any more. */
  lemma ReleaseOk(s: State, t: nat)
    requires Inv(s) && Enabled(s, Release(t))
    ensures Inv(Next(s, Release(t))) && Next(s, Release(t)).frees == s.frees
    ensures Next(s, Release(t)).blocks[s.threads[t].own] == 1
  {
    var u := Next(s, Release(t));
    assert PcOk(s, s.threads[t]);
    ReleaseThreads(s, t);
    SameTable(s, u);
    StrandedOne(s, u, s.threads[t].own);
    hide PcOk, Holders, BlockOk, HandlesOk, Stranded;
    CountFreeing(s.threads, t, u.threads[t]);
    CountLosing(s.threads, t, u.threads[t]);
  }

  lemma StrandedOne(s: State, u: State, own: nat)
    requires own < |s.blocks| && s.blocks[own] == 2 && own !in s.installs
    requires u.blocks == s.blocks[own := 1] && u.installs == s.installs
    ensures |Stranded(u)| == |Stranded(s)| + 1
  {
    assert Stranded(u) == Stranded(s) + {own} && own !in Stranded(s);
  }

  lemma ReleaseThreads(s: State, t: nat)
    requires Inv(s) && Enabled(s, Release(t))
    ensures var u := Next(s, Release(t));
            && Holders(u) && (forall v | v in u.threads :: PcOk(u, u.threads[v]))
            && (forall b: nat | b < |u.blocks| :: BlockOk(u, b))
  {
    var u := Next(s, Release(t));
    assert PcOk(s, s.threads[t]);
    assert u.threads - {t} == s.threads - {t};
    StillHeld(s, u, t);
    forall v | v in u.threads ensures PcOk(u, u.threads[v]) {
      if v != t { assert PcOk(s, s.threads[v]) && !s.threads[v].Holds(s.threads[t].own); }
    }
  }

  lemma IncrementOk(s: State, t: nat)
    requires Inv(s) && Enabled(s, Increment(t))
    ensures Inv(Next(s, Increment(t))) && s.blocks[s.threads[t].winner] > 0
  {
    var u := Next(s, Increment(t));
    IncrementThreads(s, t);
    assert PcOk(s, s.threads[t]);
    Installed(s, s.threads[t].handle);
    CountedUp(s, u, s.threads[t].handle);
    hide PcOk, Holders, BlockOk, HandlesOk;
    CountFreeing(s.threads, t, AtFree);
    CountLosing(s.threads, t, AtFree);
    assert Stranded(u) == Stranded(s);
  }

  /** One more handle like `h`. */
  lemma CountedUp(s: State, u: State, h: nat)
    requires Inv(s) && h in s.handles && s.handles[h].Promoted? && InRange(s, s.handles[h])
    requires var b := s.handles[h].block; u.blocks == s.blocks[b := s.blocks[b] + 1]
    requires u.handles == s.handles[s.next := s.handles[h]] && u.next == s.next + 1 && u.installs == s.installs
    ensures HandlesOk(u) && |u.handles| == |s.handles| + 1
  {
    Installed(s, h);
    assert s.next !in s.handles && |s.handles| == |s.handles.Keys|;
    assert u.handles.Keys == s.handles.Keys + {s.next} && |u.handles| == |u.handles.Keys|;
    forall b | b in u.installs ensures InstalledOk(u, b) { assert InstalledOk(s, b); }
  }

  lemma IncrementThreads(s: State, t: nat)
    requires Inv(s) && Enabled(s, Increment(t))
    ensures var u := Next(s, Increment(t));
            && Holders(u) && (forall v | v in u.threads :: PcOk(u, u.threads[v]))
            && forall b: nat | b < |u.blocks| :: BlockOk(u, b)
  {
    IncrementPcs(s, t);
    var u := Next(s, Increment(t));
    assert PcOk(s, s.threads[t]);
    assert u.threads - {t} == s.threads - {t};
    StillHeld(s, u, t);
  }

  lemma IncrementPcs(s: State, t: nat)
    requires Inv(s) && Enabled(s, Increment(t))
    ensures var u := Next(s, Increment(t)); forall v | v in u.threads :: PcOk(u, u.threads[v])
  {
    var u := Next(s, Increment(t));
    assert PcOk(s, s.threads[t]);
    assert s.next !in s.handles;
    forall v | v in u.threads ensures PcOk(u, u.threads[v]) { assert PcOk(s, s.threads[v]); }
  }

  predicate Converts(a: Action) { a.IntoVec? || a.IntoMut? }

  /** `is_unique`, which a caller may ask before the call. */
  predicate IsUnique(s: State, h: nat)
    requires h in s.handles && InRange(s, s.handles[h])
  {
    match s.handles[h]
    case Unpromoted => true
    case Promoted(b) => s.blocks[b] == 1
  }

  /** The step gives a handle away. */
  predicate LetsGo(s: State, a: Action)
    requires Enabled(s, a)
  {
    a.Drop? || a.IntoVec? || (a.IntoMut? && !IsUnique(s, a.handle))
  }

  /** A handle goes while nobody borrows it. */
  lemma LetGoOk(s: State, a: Action)
    requires Inv(s) && Enabled(s, a) && LetsGo(s, a)
    ensures Inv(Next(s, a))
  {
    var u := Next(s, a);
    LetGoThreads(s, a);
    hide Inv, Enabled, LetsGo, Next;
    if s.handles[a.handle] == Unpromoted { LetGoSole(s, a, u); } else { LetGoCounted(s, a, u); }
  }

  lemma LetGoThreads(s: State, a: Action)
    requires Enabled(s, a) && LetsGo(s, a)
    ensures Next(s, a).threads - {a.thread} == s.threads && a.handle in s.handles
  {
  }

  /** `u` is `s` without handle `h`, thread `t` being now at rest, at the end or copying. */
  ghost predicate Gone(s: State, u: State, t: nat, h: nat) {
    && h in s.handles && !Borrowed(s, h) && t !in s.threads
    && u.handles == s.handles - {h} && u.installs == s.installs && u.next == s.next && u.lost == s.lost
    && u.threads - {t} == s.threads
    && (t in u.threads ==> u.threads[t].Ends() || u.threads[t].AtCopy?)
    && |u.blocks| == |s.blocks|
    && forall b: nat | b < |s.blocks| && s.handles[h] != Promoted(b) :: u.blocks[b] == s.blocks[b]
  }

  lemma LetGoSole(s: State, a: Action, u: State)
    requires Inv(s) && Enabled(s, a) && LetsGo(s, a) && s.handles[a.handle] == Unpromoted
    requires u == Next(s, a) && u.threads - {a.thread} == s.threads
    ensures Inv(u)
  {
    GoneSole(s, a);
    GoneOk(s, u, a.thread, a.handle);
    CountFreeing(u.threads, a.thread, AtCopy);
  }

  lemma GoneSole(s: State, a: Action)
    requires Inv(s) && Enabled(s, a) && LetsGo(s, a) && s.handles[a.handle] == Unpromoted
    requires Next(s, a).threads - {a.thread} == s.threads
    ensures var u := Next(s, a);
            && Gone(s, u, a.thread, a.handle) && u.blocks == s.blocks && |s.handles| == 1
            && u.frees == s.frees + (if a.Drop? then 1 else 0)
            && (a.thread in u.threads && u.threads[a.thread].Ends() <==> a.IntoVec?)
  {
  }

  lemma LetGoCounted(s: State, a: Action, u: State)
    requires Inv(s) && Enabled(s, a) && LetsGo(s, a) && s.handles[a.handle].Promoted?
    requires u == Next(s, a) && u.threads - {a.thread} == s.threads
    ensures Inv(u)
  {
    GoneCounted(s, a);
    LastCounted(s, a);
    GoneOk(s, u, a.thread, a.handle);
    CountFreeing(u.threads, a.thread, AtCopy);
  }

  lemma GoneCounted(s: State, a: Action)
    requires Inv(s) && Enabled(s, a) && LetsGo(s, a) && s.handles[a.handle].Promoted?
    requires Next(s, a).threads - {a.thread} == s.threads
    ensures Gone(s, Next(s, a), a.thread, a.handle)
  {
    hide Inv, Gone;
    if a.Drop? { GoneDrop(s, a.thread, a.handle); }
    else if a.IntoVec? { GoneIntoVec(s, a.thread, a.handle); }
    else { GoneIntoMut(s, a.thread, a.handle); }
  }

  lemma GoneDrop(s: State, t: nat, h: nat)
    requires Enabled(s, Drop(t, h)) && s.handles[h].Promoted? && Next(s, Drop(t, h)).threads - {t} == s.threads
    ensures Gone(s, Next(s, Drop(t, h)), t, h)
  {
    hide Borrowed;
  }

  lemma GoneIntoVec(s: State, t: nat, h: nat)
    requires Enabled(s, IntoVec(t, h)) && s.handles[h].Promoted? && Next(s, IntoVec(t, h)).threads - {t} == s.threads
    ensures Gone(s, Next(s, IntoVec(t, h)), t, h)
  {
    hide Borrowed;
  }

  lemma GoneIntoMut(s: State, t: nat, h: nat)
    requires Enabled(s, IntoMut(t, h)) && s.handles[h].Promoted? && Next(s, IntoMut(t, h)).threads - {t} == s.threads
    requires !IsUnique(s, h)
    ensures Gone(s, Next(s, IntoMut(t, h)), t, h)
  {
    hide Borrowed;
  }

  lemma Installed(s: State, h: nat)
    requires Inv(s) && h in s.handles && s.handles[h].Promoted?
    ensures var b := s.handles[h].block;
            && b in s.installs && b < |s.blocks| && s.blocks[b] == |s.handles| > 0
            && forall k | k in s.handles :: s.handles[k] == s.handles[h]
  {
    assert h in s.handles.Keys && |s.handles| == |s.handles.Keys|;
    assert InstalledOk(s, s.handles[h].block);
  }

  lemma LastCounted(s: State, a: Action)
    requires Inv(s) && Enabled(s, a) && LetsGo(s, a) && s.handles[a.handle].Promoted?
    ensures var u := Next(s, a);
            && u.frees == s.frees && u.blocks[s.handles[a.handle].block] == |s.handles| - 1
            && (a.thread in u.threads && u.threads[a.thread].Ends() <==> |s.handles| == 1)
  {
    Installed(s, a.handle);
    LessOne(s.handles, a.handle);
  }

  lemma GoneOk(s: State, u: State, t: nat, h: nat)
    requires Inv(s) && Gone(s, u, t, h)
    requires s.handles[h].Promoted? ==> u.blocks[s.handles[h].block] == |s.handles| - 1
    ensures HandlesOk(u) && Holders(u) && (forall v | v in u.threads :: PcOk(u, u.threads[v]))
    ensures forall b: nat | b < |u.blocks| :: BlockOk(u, b)
    ensures |Stranded(u)| + |Losing(u.threads)| == u.lost && |u.handles| == |s.handles| - 1
  {
    GoneHandles(s, u, t, h);
    GoneThreads(s, u, t, h);
    GoneBlocks(s, u, t, h);
    if s.handles[h].Promoted? { Installed(s, h); }
    SameStranded(s, u);
    hide HandlesOk, PcOk, Holders, BlockOk, Borrowed, Stranded;
    CountLosing(u.threads, t, AtCopy);
    LessOne(s.handles, h);
  }

  lemma SameStranded(s: State, u: State)
    requires u.installs == s.installs && |u.blocks| == |s.blocks|
    requires forall b: nat | b < |s.blocks| && b !in s.installs :: u.blocks[b] == s.blocks[b]
    ensures Stranded(u) == Stranded(s)
  {
  }

  lemma GoneHandles(s: State, u: State, t: nat, h: nat)
    requires Inv(s) && Gone(s, u, t, h)
    requires s.handles[h].Promoted? ==> u.blocks[s.handles[h].block] == |s.handles| - 1
    ensures HandlesOk(u)
  {
    LessOne(s.handles, h);
    if s.handles[h].Promoted? { Installed(s, h); } else { assert u.handles == map[]; }
    forall b | b in u.installs ensures InstalledOk(u, b) { StillInstalled(s, u, t, h, b); }
  }

  lemma StillInstalled(s: State, u: State, t: nat, h: nat, b: nat)
    requires Inv(s) && Gone(s, u, t, h) && b in s.installs
    requires s.handles[h].Promoted? ==> u.blocks[s.handles[h].block] == |u.handles|
    ensures InstalledOk(u, b)
  {
    assert InstalledOk(s, b);
    if s.handles[h].Promoted? { Installed(s, h); }
    hide Inv, Borrowed;
  }

  lemma GoneBlocks(s: State, u: State, t: nat, h: nat)
    requires Inv(s) && Gone(s, u, t, h)
    ensures forall b: nat | b < |u.blocks| :: BlockOk(u, b)
  {
    if s.handles[h].Promoted? { Installed(s, h); }
    assert s.threads - {t} == s.threads;
    StillHeld(s, u, t);
    forall b: nat | b < |u.blocks| ensures BlockOk(u, b) { assert b in s.installs || u.blocks[b] == s.blocks[b]; }
  }

  lemma GoneThreads(s: State, u: State, t: nat, h: nat)
    requires Inv(s) && Gone(s, u, t, h)
    ensures Holders(u) && (forall v | v in u.threads :: PcOk(u, u.threads[v]))
  {
    forall v | v in u.threads && v != t ensures v in s.threads && u.threads[v] == s.threads[v] {
      assert v in u.threads - {t};
    }
    forall v | v in u.threads ensures PcOk(u, u.threads[v]) {
      if v != t { assert PcOk(s, s.threads[v]) && !s.threads[v].Borrows(h); }
    }
  }

  lemma LessOne(m: map<nat, Word>, h: nat)
    requires h in m
    ensures |m - {h}| == |m| - 1
  {
    assert (m - {h}).Keys == m.Keys - {h};
    assert |m - {h}| == |(m - {h}).Keys| && |m| == |m.Keys|;
  }

  lemma FinishOk(s: State, a: Action)
    requires Inv(s) && (a.Free? || a.Copy?) && Enabled(s, a)
    ensures Inv(Next(s, a))
  {
    var u := Next(s, a);
    FinishRecords(s, a);
    FinishThreads(s, u, a.thread);
    FinishBlocks(s, u, a.thread);
    hide PcOk, Holders, BlockOk, Next, Enabled;
    SameTable(s, u);
    SameStranded(s, u);
    hide HandlesOk, Stranded;
    CountFreeing(s.threads, a.thread, AtCopy);
    CountLosing(s.threads, a.thread, AtCopy);
  }

  lemma FinishRecords(s: State, a: Action)
    requires (a.Free? || a.Copy?) && Enabled(s, a)
    ensures var u, t := Next(s, a), a.thread;
            && t in s.threads && u.handles == s.handles && u.next == s.next && u.lost == s.lost
            && u.frees == s.frees + (if s.threads[t].Ends() then 1 else 0)
            && !s.threads[t].AtRelease? && Finished(s, u, t)
  {
  }

  /** Thread `t` has finished and let nothing go. */
  ghost predicate Finished(s: State, u: State, t: nat) {
    && t in s.threads && (s.threads[t].Ends() || s.threads[t].AtCopy?) && u.threads == s.threads - {t}
    && (forall h | h in s.handles :: h in u.handles && u.handles[h] == s.handles[h])
    && u.blocks == s.blocks && u.installs == s.installs
  }

  lemma FinishThreads(s: State, u: State, t: nat)
    requires Inv(s) && Finished(s, u, t)
    ensures Holders(u) && forall v | v in u.threads :: PcOk(u, u.threads[v])
  {
    forall v | v in u.threads ensures PcOk(u, u.threads[v]) { assert PcOk(s, s.threads[v]); }
  }

  lemma FinishBlocks(s: State, u: State, t: nat)
    requires Inv(s) && Finished(s, u, t)
    ensures forall b: nat | b < |u.blocks| :: BlockOk(u, b)
  {
    forall b: nat | b < |u.blocks| ensures BlockOk(u, b) { FinishBlock(s, u, t, b); }
  }

  lemma FinishBlock(s: State, u: State, t: nat, b: nat)
    requires Finished(s, u, t) && b < |s.blocks| && BlockOk(s, b)
    ensures BlockOk(u, b)
  {
    if b !in s.installs && s.blocks[b] != 1 {
      var v :| v in s.threads && s.threads[v].Holds(b);
      assert v in u.threads && u.threads[v].Holds(b);
    }
  }

  /** Nobody else is about when the only handle is held: all that is under way is copies made too
      late. */
  lemma Quiet(s: State, t: nat, h: nat)
    requires Inv(s) && Held(s, t, h) && |s.handles| == 1
    ensures s.handles.Keys == {h} && s.frees == 0 && forall v | v in s.threads :: s.threads[v].AtCopy?
  {
    OnlyOne(s, h);
    assert Freeing(s.threads) == {};
    forall v | v in s.threads ensures v in Freeing(s.threads) || s.threads[v].AtCopy? || s.threads[v].Borrows(h) {
      assert PcOk(s, s.threads[v]);
    }
  }

  /** A step between quiet states: blocks change only once they are installed. */
  lemma QuietStep(s: State, u: State)
    requires Inv(s) && s.frees == 0 && (forall v | v in s.threads :: s.threads[v].AtCopy?)
    requires HandlesOk(u) && u.threads == s.threads && u.frees == 0 && u.lost == s.lost && |u.handles| > 0
    requires s.installs <= u.installs && |s.blocks| <= |u.blocks|
    requires forall b: nat | b < |u.blocks| && b !in u.installs :: b < |s.blocks| && u.blocks[b] == s.blocks[b]
    requires forall b | b in u.installs :: b in s.installs || b >= |s.blocks|
    ensures Inv(u)
  {
    assert Losing(u.threads) == {} && Freeing(u.threads) == {};
    assert Stranded(u) == Stranded(s);
    forall b: nat | b < |u.blocks| && b !in u.installs ensures u.blocks[b] == 1 { assert BlockOk(s, b); }
  }

  lemma OnlyOne(s: State, h: nat)
    requires h in s.handles && |s.handles| == 1
    ensures s.handles.Keys == {h}
  {
    LessOne(s.handles, h);
    assert s.handles - {h} == map[];
    forall k | k in s.handles ensures k == h { assert k !in s.handles - {h}; }
  }

  /** One more handle of the same type on the same block, whatever there was before. */
  lemma SplitOk(s: State, t: nat, h: nat)
    requires Inv(s) && Enabled(s, Split(t, h))
    ensures Inv(Next(s, Split(t, h)))
    ensures var u := Next(s, Split(t, h));
            && |u.handles| == |s.handles| + 1 && (forall k | k in s.handles :: k in u.handles)
            && s.next in u.handles && u.handles[h].Promoted? && u.handles[s.next] == u.handles[h]
            && (h in s.muts ==> s.next in u.muts)
  {
    Grown(s, Next(s, Split(t, h)), h);
    if s.handles[h] == Unpromoted { SplitSole(s, t, h); } else { SplitCounted(s, t, h); }
  }

  lemma Grown(s: State, u: State, h: nat)
    requires Inv(s) && h in s.handles && h in u.handles && s.next in u.handles
    requires u.handles == s.handles[h := u.handles[h]][s.next := u.handles[s.next]]
    ensures |u.handles| == |s.handles| + 1
  {
    assert s.next !in s.handles && h in s.handles.Keys && |s.handles| == |s.handles.Keys|;
    assert u.handles.Keys == s.handles.Keys + {s.next} && |u.handles| == |u.handles.Keys|;
  }

  lemma SplitSole(s: State, t: nat, h: nat)
    requires Inv(s) && Enabled(s, Split(t, h)) && s.handles[h] == Unpromoted
    ensures Inv(Next(s, Split(t, h)))
  {
    Quiet(s, t, h);
    var u := Next(s, Split(t, h));
    TwoHandles(s, u, h, |s.blocks|);
    hide HandlesOk;
    QuietStep(s, u);
  }

  /** While a handle is unpromoted every block that was installed is at zero. */
  lemma NoneInstalled(s: State, h: nat)
    requires Inv(s) && h in s.handles && s.handles[h] == Unpromoted
    ensures forall b | b in s.installs :: b < |s.blocks| && s.blocks[b] == 0
  {
    forall b | b in s.installs ensures b < |s.blocks| && s.blocks[b] == 0 { assert InstalledOk(s, b); }
  }

  /** The conversion of the last handle leaves it unpromoted, with its block gone. */
  lemma TakeOverOk(s: State, t: nat, h: nat)
    requires Inv(s) && Enabled(s, IntoMut(t, h)) && IsUnique(s, h) && s.handles[h].Promoted?
    ensures Inv(Next(s, IntoMut(t, h)))
    ensures var u := Next(s, IntoMut(t, h));
            && u.handles.Keys == {h} && u.handles[h] == Unpromoted && h in u.muts
            && forall b | b in u.installs :: b < |u.blocks| && u.blocks[b] == 0
  {
    Installed(s, h);
    Quiet(s, t, h);
    var u := Next(s, IntoMut(t, h));
    assert u.handles.Keys == {h} && |u.handles| == |u.handles.Keys|;
    forall b | b in u.installs ensures InstalledOk(u, b) { assert InstalledOk(s, b); }
    QuietStep(s, u);
  }

  /** A vector becomes the only handle. */
  lemma FromVecOk(s: State, t: nat)
    requires Inv(s) && Enabled(s, FromVec(t))
    ensures Inv(Next(s, FromVec(t)))
    ensures var u := Next(s, FromVec(t));
            u.handles.Keys == {s.next} && u.handles[s.next] == Unpromoted && s.next in u.muts && t !in u.threads
  {
    var u := Next(s, FromVec(t));
    CountFreeing(s.threads, t, AtCopy);
    CountLosing(s.threads, t, AtCopy);
    assert s.handles == map[] by { assert |s.handles| == 0; }
    assert u.handles.Keys == {s.next} && |u.handles| == |u.handles.Keys|;
    forall b | b in u.installs ensures InstalledOk(u, b) { assert InstalledOk(s, b); }
    FinishThreads(s, u, t);
    FinishBlocks(s, u, t);
    assert Stranded(u) == Stranded(s);
  }

  lemma SplitCounted(s: State, t: nat, h: nat)
    requires Inv(s) && Enabled(s, Split(t, h)) && s.handles[h].Promoted?
    ensures Inv(Next(s, Split(t, h)))
  {
    var u := Next(s, Split(t, h));
    Installed(s, h);
    SplitThreads(s, t, h);
    CountedUp(s, u, h);
    hide PcOk, Holders, BlockOk, HandlesOk;
    assert Stranded(u) == Stranded(s);
  }

  lemma SplitThreads(s: State, t: nat, h: nat)
    requires Inv(s) && Enabled(s, Split(t, h)) && s.handles[h].Promoted?
    ensures var u := Next(s, Split(t, h));
            && Holders(u) && (forall v | v in u.threads :: PcOk(u, u.threads[v]))
            && forall b: nat | b < |u.blocks| :: BlockOk(u, b)
  {
    var u := Next(s, Split(t, h));
    Installed(s, h);
    forall v | v in u.threads ensures PcOk(u, u.threads[v]) { assert PcOk(s, s.threads[v]); }
    forall b: nat | b < |u.blocks| ensures BlockOk(u, b) { SameBlock(s, u, b); }
  }

  lemma SameBlock(s: State, u: State, b: nat)
    requires b < |s.blocks| == |u.blocks| && BlockOk(s, b) && u.threads == s.threads && u.installs == s.installs
    requires b in s.installs || u.blocks[b] == s.blocks[b]
    ensures BlockOk(u, b)
  {
  }

  lemma FreezeOk(s: State, t: nat, h: nat, slack: bool)
    requires Inv(s) && Enabled(s, Freeze(t, h, slack))
    ensures Inv(Next(s, Freeze(t, h, slack)))
    ensures var u := Next(s, Freeze(t, h, slack));
            && u.handles.Keys == s.handles.Keys && h !in u.muts
            && (u.handles[h].Promoted? <==> slack || s.handles[h].Promoted?)
            && (|u.blocks| > |s.blocks| <==> slack && s.handles[h] == Unpromoted)
  {
    var u := Next(s, Freeze(t, h, slack));
    if s.handles[h] == Unpromoted && slack {
      Quiet(s, t, h);
      assert u.handles.Keys == {h} && |u.handles| == |u.handles.Keys|;
      NoneInstalled(s, h);
      QuietStep(s, u);
    } else {
      SameCore(s, u);
    }
  }

  /** The kinds of handles and the spoiled copies are on top of everything else. */
  lemma SameCore(s: State, u: State)
    requires Inv(s) && u.handles == s.handles && u.next == s.next && u.blocks == s.blocks
    requires u.threads == s.threads && u.frees == s.frees && u.installs == s.installs && u.lost == s.lost
    ensures Inv(u)
  {
    forall v | v in u.threads ensures PcOk(u, u.threads[v]) { assert PcOk(s, s.threads[v]); }
    forall b: nat | b < |u.blocks| ensures BlockOk(u, b) { SameBlock(s, u, b); }
    assert Stranded(u) == Stranded(s);
  }

  lemma StepOk(s: State, a: Action)
    requires Inv(s) && Enabled(s, a)
    ensures Inv(Next(s, a))
  {
    match a
    case Begin(t, h) => BeginOk(s, t, h);
    case Load(t) => LoadOk(s, t);
    case Allocate(t) => AllocateOk(s, t);
    case Exchange(t) => if s.handles[s.threads[t].handle] == Unpromoted { WinOk(s, t); } else { LoseOk(s, t); }
    case Release(t) => ReleaseOk(s, t);
    case Increment(t) => IncrementOk(s, t);
    case Drop(_, _) => LetGoOk(s, a);
    case IntoVec(_, _) => LetGoOk(s, a);
    case IntoMut(t, h) =>
      if !IsUnique(s, h) { LetGoOk(s, a); }
      else if s.handles[h].Promoted? { TakeOverOk(s, t, h); }
      else { SameCore(s, Next(s, a)); }
    case FromVec(t) => FromVecOk(s, t);
    case Free(_) => FinishOk(s, a);
    case Copy(_) => FinishOk(s, a);
    case Split(t, h) => SplitOk(s, t, h);
    case Freeze(t, h, slack) => FreezeOk(s, t, h, slack);
    case Reclaim(_, _) => SameCore(s, Next(s, a));
  }

  /** Names are not used twice; only a pending copy can be spoiled, and once the buffer is taken over
      all of them are. */
  ghost predicate KindsOk(s: State) {
    && (forall h | h in s.muts :: h < s.next)
    && s.spoiled <= Copying(s.threads)
    && (TakenOver(s) ==> Copying(s.threads) <= s.spoiled)
  }

  /** Somebody has the buffer without a control block. */
  ghost predicate TakenOver(s: State) {
    (exists h :: h in s.handles && s.handles[h] == Unpromoted) || exists t :: t in s.threads && s.threads[t].AtVec?
  }

  lemma KindsStep(s: State, a: Action)
    requires Inv(s) && KindsOk(s) && Enabled(s, a)
    ensures KindsOk(Next(s, a))
  {
    NamesStep(s, a);
    SpoiledStep(s, a);
    if TakenOver(Next(s, a)) { TakenStep(s, a); }
    hide Inv, Next, Enabled, TakenOver;
  }

  lemma NamesStep(s: State, a: Action)
    requires Inv(s) && KindsOk(s) && Enabled(s, a)
    ensures var u := Next(s, a); forall h | h in u.muts :: h < u.next
  {
    NewNames(s, a);
    if a.IntoMut? { assert a.handle < s.next; }
    hide Inv, Next, Enabled;
  }

  lemma NewNames(s: State, a: Action)
    requires Enabled(s, a)
    ensures var u := Next(s, a);
            && s.next <= u.next
            && forall h | h in u.muts :: h in s.muts || h < u.next || (a.IntoMut? && h == a.handle)
  {
  }

  lemma SpoiledStep(s: State, a: Action)
    requires KindsOk(s) && Enabled(s, a)
    ensures Next(s, a).spoiled <= Copying(Next(s, a).threads)
  {
    var u := Next(s, a);
    forall t | t in u.spoiled ensures t in u.threads && u.threads[t].AtCopy? {
      assert t in Copying(s.threads) && t != a.thread;
    }
  }

  /** Whoever takes the buffer over spoils every pending copy, and no copy is left for later while
      somebody has it. */
  lemma TakenStep(s: State, a: Action)
    requires Inv(s) && KindsOk(s) && Enabled(s, a) && TakenOver(Next(s, a))
    ensures Copying(Next(s, a).threads) <= Next(s, a).spoiled
  {
    TakenAgain(s, a);
    if Converts(a) && s.handles[a.handle].Promoted? { NotTaken(s, a.handle); }
    hide Inv, TakenOver;
    SpoilsAll(s, a);
  }

  /** No copy is left for later: the step spoils all, or all were spoiled before. */
  lemma SpoilsAll(s: State, a: Action)
    requires Enabled(s, a) && !(Converts(a) && !IsUnique(s, a.handle))
    requires Copying(s.threads) <= s.spoiled || (Converts(a) && s.handles[a.handle].Promoted?)
    ensures Copying(Next(s, a).threads) <= Next(s, a).spoiled
  {
    forall t | t in Copying(Next(s, a).threads) ensures t in Next(s, a).spoiled {
      assert t in s.threads && s.threads[t].AtCopy?;
      assert t in Copying(s.threads);
    }
  }

  lemma TakenAgain(s: State, a: Action)
    requires Enabled(s, a) && TakenOver(Next(s, a))
    ensures TakenOver(s) || (Converts(a) && IsUnique(s, a.handle) && s.handles[a.handle].Promoted?)
  {
    var u := Next(s, a);
    if h :| h in u.handles && u.handles[h] == Unpromoted {
      assert (h in s.handles && s.handles[h] == Unpromoted) || a.IntoMut? || a.FromVec?;
    } else {
      var t :| t in u.threads && u.threads[t].AtVec?;
      assert (t in s.threads && s.threads[t].AtVec?) || a.IntoVec?;
    }
  }

  lemma NotTaken(s: State, h: nat)
    requires Inv(s) && h in s.handles && s.handles[h].Promoted?
    ensures !TakenOver(s)
  {
    Installed(s, h);
    assert Freeing(s.threads) == {};
    forall t | t in s.threads ensures !s.threads[t].AtVec? { assert t !in Freeing(s.threads); }
  }

  lemma {:induction false} RunOk(run: seq<Action>)
    requires Legal(run)
    ensures Inv(After(run)) && KindsOk(After(run))
  {
    if run == [] {
      StartOk();
    } else {
      var k := |run| - 1;
      RunOk(run[..k]);
      StepOk(After(run[..k]), run[k]);
      KindsStep(After(run[..k]), run[k]);
    }
  }

  // ===== What holds in every run =====

  /** However often the buffer is taken over and promoted again: an unpromoted handle is alone;
      promoted handles all carry one installed block, which counts them; every other block that was
      ever installed is at zero. */
  lemma OneInstalled(run: seq<Action>)
    requires Legal(run)
    ensures var s := After(run);
            && (forall h | h in s.handles && s.handles[h] == Unpromoted :: s.handles.Keys == {h})
            && (forall h, k | h in s.handles && k in s.handles :: s.handles[h] == s.handles[k])
            && (forall h | h in s.handles && s.handles[h].Promoted? ::
                  var w := s.handles[h].block; w in s.installs && w < |s.blocks| && s.blocks[w] == |s.handles|)
            && (forall b | b in s.installs ::
                  b < |s.blocks| && (s.blocks[b] > 0 <==> exists h :: h in s.handles && s.handles[h] == Promoted(b)))
  {
    RunOk(run);
    OneCounted(After(run));
  }

  lemma OneCounted(s: State)
    requires Inv(s)
    ensures forall h | h in s.handles && s.handles[h] == Unpromoted :: s.handles.Keys == {h}
    ensures forall h, k | h in s.handles && k in s.handles :: s.handles[h] == s.handles[k]
    ensures forall b | b in s.installs ::
              b < |s.blocks| && (s.blocks[b] > 0 <==> exists h :: h in s.handles && s.handles[h] == Promoted(b))
  {
    forall h, k | h in s.handles && k in s.handles
      ensures s.handles[h] == s.handles[k] && (s.handles[h] == Unpromoted ==> s.handles.Keys == {h})
    {
      if s.handles[h].Promoted? { Installed(s, h); } else { OnlyOne(s, h); }
    }
    forall b | b in s.installs
      ensures b < |s.blocks| && (s.blocks[b] > 0 <==> exists h :: h in s.handles && s.handles[h] == Promoted(b))
    {
      assert InstalledOk(s, b);
      if h :| h in s.handles && s.handles[h] == Promoted(b) { Installed(s, h); }
      if s.blocks[b] > 0 { var h :| h in s.handles; }
    }
  }

  /** No increment ever starts from zero, and giving up a losing block frees nothing. */
  lemma StepsAreSafe(run: seq<Action>, a: Action)
    requires Legal(run) && Enabled(After(run), a)
    ensures a.Increment? ==> After(run).blocks[After(run).threads[a.thread].winner] > 0
    ensures a.Release? ==> Next(After(run), a).frees == After(run).frees
  {
    RunOk(run);
    if a.Increment? { IncrementOk(After(run), a.thread); }
    if a.Release? { ReleaseOk(After(run), a.thread); }
  }

  /** The buffer is given up at most once, and exactly when no handle is left: until then no thread
      frees it, and from then on it is freed or about to be. */
  lemma FreedOnce(run: seq<Action>)
    requires Legal(run)
    ensures var s := After(run);
            && s.frees <= 1
            && (s.handles != map[] <==> s.frees == 0 && Freeing(s.threads) == {})
            && (s.frees == 1 ==> Freeing(s.threads) == {})
  {
    RunOk(run);
    var s := After(run);
    assert |s.handles| == 0 <==> s.handles == map[];
  }

  /** While a clone is under way the buffer is not freed. */
  lemma NoFreeDuringClone(run: seq<Action>, t: nat, h: nat)
    requires Legal(run) && t in After(run).threads && After(run).threads[t].Borrows(h)
    ensures After(run).frees == 0 && h in After(run).handles
  {
    RunOk(run);
    FreedOnce(run);
    assert PcOk(After(run), After(run).threads[t]);
  }

  /** When everything has come to rest the buffer was freed once and every installed count is zero;
      each lost exchange left one control block behind, with a count of one that nobody will ever
      give back. */
  lemma AtRest(run: seq<Action>)
    requires Legal(run) && After(run).handles == map[] && After(run).threads == map[]
    ensures var s := After(run);
            && s.frees == 1
            && (forall b: nat | b < |s.blocks| :: s.blocks[b] == if b in s.installs then 0 else 1)
            && |s.blocks| == |s.installs| + s.lost
  {
    hide After, Legal, Inv;
    RunOk(run);
    Resting(After(run));
    BlocksAtRest(After(run));
  }

  lemma Resting(s: State)
    requires Inv(s) && s.handles == map[] && s.threads == map[]
    ensures s.frees == 1 && |Stranded(s)| == s.lost && forall b | b in s.installs :: b < |s.blocks|
    ensures forall b: nat | b < |s.blocks| :: s.blocks[b] == if b in s.installs then 0 else 1
  {
    assert Freeing(s.threads) == {} && Losing(s.threads) == {};
    forall b: nat | b < |s.blocks| ensures s.blocks[b] == if b in s.installs then 0 else 1 {
      assert BlockOk(s, b);
      if b in s.installs { assert InstalledOk(s, b); }
    }
    forall b | b in s.installs ensures b < |s.blocks| { assert InstalledOk(s, b); }
  }

  lemma BlocksAtRest(s: State)
    requires forall b | b in s.installs :: b < |s.blocks|
    requires forall b: nat | b < |s.blocks| && b !in s.installs :: s.blocks[b] == 1
    ensures |s.blocks| == |s.installs| + |Stranded(s)|
  {
    hide Below;
    CountBelow(|s.blocks|);
    BelowMembers(|s.blocks|);
    assert Below(|s.blocks|) == Stranded(s) + s.installs;
  }

  lemma {:induction false} CountBelow(n: nat)
    ensures |Below(n)| == n
  {
    if n > 0 {
      CountBelow(n - 1);
      BelowMembers(n - 1);
    }
  }

  lemma {:induction false} BelowMembers(n: nat)
    ensures forall b: nat :: b in Below(n) <==> b < n
  {
    if n > 0 { BelowMembers(n - 1); }
  }

  ghost function Below(n: nat): set<nat> {
    if n == 0 then {} else Below(n - 1) + {n - 1}
  }

  // ===== The copy that a conversion makes after giving its count back =====

  /** `into_vec` and `into_mut` leave their copy for later exactly when the count is not 1, that is
      when the handle has company. */
  lemma CopiesIffShared(run: seq<Action>, a: Action)
    requires Legal(run) && Enabled(After(run), a) && Converts(a)
    ensures !IsUnique(After(run), a.handle) <==> |After(run).handles| > 1
    ensures var u := Next(After(run), a);
            (a.thread in u.threads && u.threads[a.thread] == AtCopy) <==> |After(run).handles| > 1
  {
    RunOk(run);
    var s := After(run);
    if s.handles[a.handle].Promoted? { Installed(s, a.handle); }
    hide Inv, KindsOk;
  }

  /** `more` goes on from `run` while thread `t` does nothing. */
  ghost predicate Waits(run: seq<Action>, more: seq<Action>, t: nat) {
    run <= more && forall i | |run| <= i < |more| :: more[i].thread != t
  }

  lemma {:induction false} Waited(run: seq<Action>, more: seq<Action>, t: nat)
    requires Legal(more) && Waits(run, more, t)
    ensures Legal(run)
    ensures t in After(more).threads <==> t in After(run).threads
    ensures t in After(run).threads ==> After(more).threads[t] == After(run).threads[t]
    decreases |more|
  {
    if more == run {
    } else {
      var k := |more| - 1;
      assert run <= more[..k];
      Waited(run, more[..k], t);
      assert more[k].thread != t;
    }
  }

  lemma WaitsOn(run: seq<Action>, mid: seq<Action>, more: seq<Action>, t: nat)
    requires Waits(run, mid, t) && Waits(mid, more, t)
    ensures Waits(run, more, t)
  {
    forall i | |run| <= i < |more| ensures more[i].thread != t { if i < |mid| { assert more[i] == mid[i]; } }
  }

  predicate Cloning(pc: Pc) { !pc.Ends() && !pc.AtCopy? }

  /** How many steps a clone may still take. */
  function Rank(pc: Pc): nat {
    match pc
    case AtLoad(_) => 5
    case AtAllocate(_) => 4
    case AtExchange(_, _) => 3
    case AtRelease(_, _, _) => 2
    case AtIncrement(_, _) => 1
    case _ => 0
  }

  function StepOf(t: nat, pc: Pc): Action
    requires Cloning(pc)
  {
    match pc
    case AtLoad(_) => Load(t)
    case AtAllocate(_) => Allocate(t)
    case AtExchange(_, _) => Exchange(t)
    case AtRelease(_, _, _) => Release(t)
    case AtIncrement(_, _) => Increment(t)
  }

  /** A clone is never stuck, and every step of it brings it closer to its end. */
  lemma CloneGoesOn(s: State, v: nat)
    requires Inv(s) && v in s.threads && Cloning(s.threads[v])
    ensures Enabled(s, StepOf(v, s.threads[v]))
    ensures var u := Next(s, StepOf(v, s.threads[v]));
            && u.muts == s.muts && s.handles.Keys <= u.handles.Keys
            && if v in u.threads then
                 u.threads == s.threads[v := u.threads[v]] && Cloning(u.threads[v])
                 && Rank(u.threads[v]) < Rank(s.threads[v])
               else u.threads == s.threads - {v}
  {
    assert PcOk(s, s.threads[v]);
  }

  predicate GivesUp(a: Action, k: nat) { (a.Drop? || Converts(a)) && a.handle == k }

  /** Nobody gives `k` away. */
  ghost predicate Keeps(run: seq<Action>, more: seq<Action>, k: nat) {
    run <= more && forall i | |run| <= i < |more| :: !GivesUp(more[i], k)
  }

  lemma KeepsOn(run: seq<Action>, mid: seq<Action>, more: seq<Action>, k: nat)
    requires Keeps(run, mid, k) && Keeps(mid, more, k)
    ensures Keeps(run, more, k)
  {
    forall i | |run| <= i < |more| ensures !GivesUp(more[i], k) { if i < |mid| { assert more[i] == mid[i]; } }
  }

  lemma CloneStep(run: seq<Action>, v: nat, t: nat, k: nat) returns (more: seq<Action>)
    requires Legal(run) && v in After(run).threads && Cloning(After(run).threads[v]) && v != t
    ensures Legal(more) && Waits(run, more, t) && Keeps(run, more, k) && After(more).muts == After(run).muts
    ensures After(run).handles.Keys <= After(more).handles.Keys
    ensures var was, now := After(run).threads, After(more).threads;
            && now - {v} == was - {v}
            && if v in now then Cloning(now[v]) && Rank(now[v]) < Rank(was[v]) else now == was - {v}
  {
    hide Legal, Inv, Enabled, Next;
    RunOk(run);
    var s := After(run);
    CloneGoesOn(s, v);
    Extend(run, StepOf(v, s.threads[v]));
    more := run + [StepOf(v, s.threads[v])];
    assert v in After(more).threads ==> s.threads[v := After(more).threads[v]] - {v} == s.threads - {v};
  }

  lemma {:induction false} FinishClone(run: seq<Action>, v: nat, t: nat, k: nat) returns (more: seq<Action>)
    requires Legal(run) && v in After(run).threads && Cloning(After(run).threads[v]) && v != t
    ensures Legal(more) && Waits(run, more, t) && After(more).threads == After(run).threads - {v}
    ensures Keeps(run, more, k) && After(more).muts == After(run).muts
    ensures After(run).handles.Keys <= After(more).handles.Keys
    decreases Rank(After(run).threads[v])
  {
    hide Legal, After, Cloning, Rank;
    more := CloneStep(run, v, t, k);
    if v in After(more).threads {
      var rest := FinishClone(more, v, t, k);
      WaitsOn(run, more, rest, t);
      KeepsOn(run, more, rest, k);
      more := rest;
    }
  }

  ghost function Cloners(threads: map<nat, Pc>): set<nat> { set v | v in threads && Cloning(threads[v]) }

  lemma {:induction false} FinishClones(run: seq<Action>, t: nat, k: nat) returns (more: seq<Action>)
    requires Legal(run) && t in After(run).threads && After(run).threads[t] == AtCopy
    ensures Legal(more) && Waits(run, more, t) && Cloners(After(more).threads) == {}
    ensures Keeps(run, more, k) && After(more).muts == After(run).muts
    ensures After(run).handles.Keys <= After(more).handles.Keys
    decreases |Cloners(After(run).threads)|
  {
    hide Legal, Inv, After;
    more := run;
    if v :| v in Cloners(After(run).threads) {
      var mid := FinishClone(run, v, t, k);
      assert Cloners(After(mid).threads) == Cloners(After(run).threads) - {v};
      Waited(run, mid, t);
      more := FinishClones(mid, t, k);
      WaitsOn(run, mid, more, t);
      KeepsOn(run, mid, more, k);
    }
  }

  lemma {:induction false} Beyond(ks: set<nat>) returns (b: nat)
    ensures forall k | k in ks :: k < b
  {
    b := 0;
    if k :| k in ks {
      var c := Beyond(ks - {k});
      b := if c <= k then k + 1 else c;
      forall j | j in ks ensures j < b { assert j == k || j in ks - {k}; }
    }
  }

  /** With no clone under way every handle can be dropped, and then the buffer is freed. */
  lemma {:induction false} DropTheRest(run: seq<Action>, t: nat) returns (more: seq<Action>)
    requires Legal(run) && t in After(run).threads && After(run).threads[t] == AtCopy
    requires Cloners(After(run).threads) == {}
    ensures Legal(more) && Waits(run, more, t) && After(more).frees == 1
    decreases |After(run).handles|
  {
    hide Legal, After, Inv;
    more := run;
    var s := After(run);
    FreedOnce(run);
    if s.handles != map[] {
      var h :| h in s.handles;
      var v := Beyond(s.threads.Keys);
      assert v !in s.threads.Keys && t in s.threads.Keys;
      MayDrop(run, v, h);
      Extend(run, Drop(v, h));
      var mid := run + [Drop(v, h)];
      LessOne(s.handles, h);
      more := DropTheRest(mid, t);
      WaitsOn(run, mid, more, t);
    } else if s.frees == 0 {
      var v :| v in Freeing(s.threads);
      Extend(run, Free(v));
      more := run + [Free(v)];
    }
  }

  lemma MayDrop(run: seq<Action>, v: nat, h: nat)
    requires Legal(run) && h in After(run).handles && v !in After(run).threads
    requires Cloners(After(run).threads) == {}
    ensures Enabled(After(run), Drop(v, h))
    ensures var u := Next(After(run), Drop(v, h));
            && u.handles == After(run).handles - {h} && Cloners(u.threads) == {} && u.muts == After(run).muts
            && forall w | w in After(run).threads :: w in u.threads && u.threads[w] == After(run).threads[w]
  {
    RunOk(run);
    var s := After(run);
    forall w | w in s.threads ensures !s.threads[w].Borrows(h) { assert w !in Cloners(s.threads); }
    if s.handles[h].Promoted? { Installed(s, h); }
    forall w | w in Next(s, Drop(v, h)).threads ensures !Cloning(Next(s, Drop(v, h)).threads[w]) {
      if w in s.threads { assert w !in Cloners(s.threads); }
    }
  }

  /** All handles but `k` can be dropped. */
  lemma {:induction false} DropAllBut(run: seq<Action>, t: nat, k: nat) returns (more: seq<Action>)
    requires Legal(run) && t in After(run).threads && After(run).threads[t] == AtCopy
    requires Cloners(After(run).threads) == {} && k in After(run).handles
    ensures Legal(more) && Waits(run, more, t) && Keeps(run, more, k) && Cloners(After(more).threads) == {}
    ensures After(more).handles.Keys == {k} && After(more).muts == After(run).muts
    decreases |After(run).handles|
  {
    hide Legal, After, Inv;
    more := run;
    var s := After(run);
    if h :| h in s.handles && h != k {
      var v := Beyond(s.threads.Keys);
      assert v !in s.threads.Keys && t in s.threads.Keys;
      MayDrop(run, v, h);
      Extend(run, Drop(v, h));
      var mid := run + [Drop(v, h)];
      LessOne(s.handles, h);
      more := DropAllBut(mid, t, k);
      WaitsOn(run, mid, more, t);
      KeepsOn(run, mid, more, k);
    } else {
      assert s.handles.Keys == {k};
    }
  }

  ghost predicate FreedUnderCopy(run: seq<Action>, t: nat) {
    Legal(run) && t in After(run).threads && After(run).threads[t] == AtCopy && After(run).frees == 1
  }

  /** Somebody reclaimed the buffer, or took it over, before the copy. */
  ghost predicate OverwrittenUnderCopy(run: seq<Action>, t: nat) {
    Legal(run) && t in After(run).threads && After(run).threads[t] == AtCopy && t in After(run).spoiled
  }

  /** The buffer may be freed under the copy, while the call is still under way, if and only if the
      handle was not unique when it was converted. */
  lemma LateIffShared(run: seq<Action>, a: Action)
    requires Legal(run) && Enabled(After(run), a) && Converts(a)
    ensures (exists more :: Waits(run + [a], more, a.thread) && FreedUnderCopy(more, a.thread))
            <==> !IsUnique(After(run), a.handle)
  {
    hide After, Legal, Next, Enabled, IsUnique;
    var call, t := run + [a], a.thread;
    CopiesIffShared(run, a);
    Extend(run, a);
    if |After(run).handles| > 1 {
      var mid := FinishClones(call, t, a.handle);
      Waited(call, mid, t);
      var more := DropTheRest(mid, t);
      Waited(mid, more, t);
      WaitsOn(call, mid, more, t);
      assert FreedUnderCopy(more, t);
    } else {
      forall more | Waits(call, more, t) && FreedUnderCopy(more, t) ensures false { Waited(call, more, t); }
    }
  }

  /** Everything but `k` goes, with the copy still to be made. */
  lemma LeftAlone(run: seq<Action>, t: nat, k: nat) returns (more: seq<Action>, v: nat)
    requires Legal(run) && t in After(run).threads && After(run).threads[t] == AtCopy
    requires k in After(run).handles
    ensures Legal(more) && Waits(run, more, t) && Keeps(run, more, k)
    ensures t in After(more).threads && After(more).threads[t] == AtCopy && After(more).muts == After(run).muts
    ensures After(more).handles.Keys == {k} && Cloners(After(more).threads) == {} && v !in After(more).threads
  {
    hide Legal, After, Next;
    var one := FinishClones(run, t, k);
    Waited(run, one, t);
    more := DropAllBut(one, t, k);
    Waited(one, more, t);
    WaitsOn(run, one, more, t);
    KeepsOn(run, one, more, k);
    v := Beyond(After(more).threads.Keys);
    assert v !in After(more).threads.Keys && t in After(more).threads.Keys;
  }

  /** The handle that is left has the buffer to itself already, or may take it. */
  lemma MayTake(s: State, v: nat, k: nat, t: nat)
    requires Inv(s) && KindsOk(s) && Cloners(s.threads) == {} && v !in s.threads
    requires s.handles.Keys == {k} && t in s.threads && s.threads[t] == AtCopy
    ensures if s.handles[k] == Unpromoted then t in s.spoiled else TakingSpoils(s, v, k, t)
  {
    OneLeft(s, k);
    forall w | w in s.threads ensures !s.threads[w].Borrows(k) { assert w !in Cloners(s.threads); }
    assert t in Copying(s.threads) && !Borrowed(s, k);
    hide Inv, Borrowed;
  }

  lemma OneLeft(s: State, k: nat)
    requires Inv(s) && s.handles.Keys == {k}
    ensures s.handles[k].Promoted? ==> s.handles[k].block < |s.blocks| && s.blocks[s.handles[k].block] == 1
  {
    assert |s.handles| == |s.handles.Keys| == 1 && k in s.handles.Keys;
    if s.handles[k].Promoted? { Installed(s, k); }
  }

  ghost predicate TakingSpoils(s: State, v: nat, k: nat, t: nat) {
    && Enabled(s, Taking(s, v, k))
    && var u := Next(s, Taking(s, v, k)); t in u.spoiled && t in u.threads && u.threads[t] == AtCopy
  }

  /** How a handle takes what it has to itself. */
  function Taking(s: State, v: nat, k: nat): Action { if k in s.muts then Reclaim(v, k) else IntoVec(v, k) }

  /** Whatever handle is left can overwrite the bytes under the copy; a `BytesMut` is still there
      afterwards. */
  lemma Overwrites(run: seq<Action>, t: nat, k: nat) returns (more: seq<Action>)
    requires Legal(run) && t in After(run).threads && After(run).threads[t] == AtCopy
    requires k in After(run).handles
    ensures Waits(run, more, t) && OverwrittenUnderCopy(more, t) && (k in After(run).muts ==> Keeps(run, more, k))
  {
    hide Legal, After, Next, Enabled, Inv, KindsOk;
    var left, v := LeftAlone(run, t, k);
    assert k in After(left).handles.Keys && t in After(left).threads.Keys;
    RunOk(left);
    MayTake(After(left), v, k, t);
    more := left;
    if t !in After(left).spoiled {
      var a := Taking(After(left), v, k);
      Extend(left, a);
      more := left + [a];
      WaitsOn(run, left, more, t);
      if k in After(run).muts { KeepsOn(run, left, more, k); }
    }
  }

  /** The bytes may be overwritten under the copy, while the call is still under way, if and only if
      the handle was not unique when it was converted. */
  lemma OverwrittenIffShared(run: seq<Action>, a: Action)
    requires Legal(run) && Enabled(After(run), a) && Converts(a)
    ensures (exists more :: Waits(run + [a], more, a.thread) && OverwrittenUnderCopy(more, a.thread))
            <==> !IsUnique(After(run), a.handle)
  {
    hide After, Legal, Next, Enabled, IsUnique;
    var call, t := run + [a], a.thread;
    CopiesIffShared(run, a);
    Extend(run, a);
    if |After(run).handles| > 1 {
      var k := Other(run, a);
      CallIsLate(run, a, k);
      var more := Overwrites(call, t, k);
    } else {
      forall more | Waits(call, more, t) && OverwrittenUnderCopy(more, t) ensures false { Waited(call, more, t); }
    }
  }

  lemma Other(run: seq<Action>, a: Action) returns (k: nat)
    requires Legal(run) && Enabled(After(run), a) && Converts(a) && |After(run).handles| > 1
    ensures k in After(run).handles && k != a.handle
  {
    LessOne(After(run).handles, a.handle);
    assert After(run).handles - {a.handle} != map[];
    k :| k in After(run).handles - {a.handle};
  }

  /** The bytes may be freed or overwritten under the copy if and only if the handle was not unique
      when it was converted. */
  lemma DisturbedIffShared(run: seq<Action>, a: Action)
    requires Legal(run) && Enabled(After(run), a) && Converts(a)
    ensures (exists more :: Waits(run + [a], more, a.thread)
                            && (FreedUnderCopy(more, a.thread) || OverwrittenUnderCopy(more, a.thread)))
            <==> !IsUnique(After(run), a.handle)
  {
    LateIffShared(run, a);
    OverwrittenIffShared(run, a);
  }

  /** With another handle about, the call leaves its copy for later, and nothing has spoiled it yet. */
  lemma CallIsLate(run: seq<Action>, a: Action, k: nat)
    requires Legal(run) && Enabled(After(run), a) && Converts(a) && k in After(run).handles && k != a.handle
    ensures var call, t := run + [a], a.thread;
            && Legal(call) && t in After(call).threads && After(call).threads[t] == AtCopy
            && k in After(call).handles && t !in After(call).spoiled && After(call).muts == After(run).muts
  {
    Extend(run, a);
    RunOk(run);
    CopiesIffShared(run, a);
    LessOne(After(run).handles, a.handle);
    assert k in After(run).handles - {a.handle};
    CalledLate(After(run), a);
  }

  lemma CalledLate(s: State, a: Action)
    requires KindsOk(s) && Enabled(s, a) && Converts(a)
    requires a.thread in Next(s, a).threads && Next(s, a).threads[a.thread] == AtCopy
    ensures var u := Next(s, a);
            u.handles == s.handles - {a.handle} && a.thread !in u.spoiled && u.muts == s.muts
  {
  }

  /** A count of one leaves room for one handle. */
  lemma OnlyHandle(s: State, h: nat, k: nat)
    requires Inv(s) && h in s.handles && k in s.handles && s.handles[h].Promoted? && InRange(s, s.handles[h])
    requires s.blocks[s.handles[h].block] == 1
    ensures h == k
  {
    Installed(s, h);
    LessOne(s.handles, h);
    assert s.handles - {h} == map[];
    assert k !in s.handles - {h};
  }

  /** As long as `k` is kept it lives, and stays of its kind or becomes a `Bytes`; only its own
      `reserve` can spoil a copy. */
  lemma KeptStep(s: State, a: Action, k: nat, t: nat)
    requires Inv(s) && Enabled(s, a) && k in s.handles && k < s.next && !GivesUp(a, k)
    ensures var u := Next(s, a);
            && k in u.handles && k < u.next && (k in u.muts ==> k in s.muts)
            && (t in u.spoiled ==> t in s.spoiled || (a.Reclaim? && a.handle == k && k in s.muts))
  {
    if a.Reclaim? { OnlyHandle(s, a.handle, k); }
    if Converts(a) && IsUnique(s, a.handle) {
      if s.handles[a.handle].Promoted? { OnlyHandle(s, a.handle, k); } else { OnlyOne(s, a.handle); }
    }
    hide Inv;
    StillThere(s, a, k);
    SpoiledBy(s, a, t);
    hide Next, Enabled;
  }

  lemma StillThere(s: State, a: Action, k: nat)
    requires Enabled(s, a) && k in s.handles && k < s.next && !GivesUp(a, k)
    ensures var u := Next(s, a); k in u.handles && k < u.next && (k in u.muts ==> k in s.muts)
  {
  }

  lemma SpoiledBy(s: State, a: Action, t: nat)
    requires Enabled(s, a)
    ensures t in Next(s, a).spoiled ==>
              t in s.spoiled || (a.Reclaim? && a.handle in s.muts) || (Converts(a) && IsUnique(s, a.handle))
  {
  }

  lemma Unfold(run: seq<Action>)
    requires Legal(run) && run != []
    ensures var n := |run| - 1;
            && Legal(run[..n]) && Enabled(After(run[..n]), run[n])
            && After(run) == Next(After(run[..n]), run[n])
  {
  }

  lemma {:induction false} Prefix(run: seq<Action>, more: seq<Action>)
    requires Legal(more) && run <= more
    ensures Legal(run)
    decreases |more|
  {
    if more != run {
      assert run <= more[..|more| - 1];
      Prefix(run, more[..|more| - 1]);
    }
  }

  lemma {:induction false} Kept(run: seq<Action>, more: seq<Action>, k: nat, t: nat)
    requires Legal(run) && Legal(more) && Keeps(run, more, k)
    requires k in After(run).handles && t !in After(run).spoiled
    requires k !in After(run).muts || NeverReclaims(run, more, k)
    ensures k in After(more).handles && k < After(more).next && t !in After(more).spoiled
    ensures k in After(more).muts ==> k in After(run).muts
    decreases |more|
  {
    RunOk(run);
    if more != run {
      var n := |more| - 1;
      Unfold(more);
      KeptShorter(run, more, k);
      hide Legal, After, Enabled, Next, Inv, KindsOk;
      Kept(run, more[..n], k, t);
      RunOk(more[..n]);
      KeptStep(After(more[..n]), more[n], k, t);
    }
  }

  lemma KeptShorter(run: seq<Action>, more: seq<Action>, k: nat)
    requires Keeps(run, more, k) && more != run
    ensures var n := |more| - 1;
            && Keeps(run, more[..n], k) && !GivesUp(more[n], k)
            && (NeverReclaims(run, more, k) ==>
                  NeverReclaims(run, more[..n], k) && !(more[n].Reclaim? && more[n].handle == k))
  {
  }

  ghost predicate NeverReclaims(run: seq<Action>, more: seq<Action>, k: nat) {
    forall i | |run| <= i < |more| :: !(more[i].Reclaim? && more[i].handle == k)
  }

  /** What `t` is about to copy is what its handle showed. */
  ghost predicate Undisturbed(run: seq<Action>, t: nat)
    requires Legal(run)
  {
    After(run).frees == 0 && Freeing(After(run).threads) == {} && t !in After(run).spoiled
  }

  /** As long as a second handle is kept, and it is a `Bytes` or does not reclaim, nothing frees the
      buffer, takes it over or overwrites the bytes before the copy. */
  lemma KeptCopyIsSafe(run: seq<Action>, a: Action, more: seq<Action>, k: nat)
    requires Legal(run) && Enabled(After(run), a) && Converts(a) && k in After(run).handles && k != a.handle
    requires Legal(more) && Waits(run + [a], more, a.thread) && Keeps(run + [a], more, k)
    requires k !in After(run).muts || NeverReclaims(run + [a], more, k)
    ensures Undisturbed(more, a.thread) && Enabled(After(more), Copy(a.thread))
  {
    var call := run + [a];
    CallIsLate(run, a, k);
    Waited(call, more, a.thread);
    Kept(call, more, k, a.thread);
    FreedOnce(more);
  }

  /** Keeping a second handle until the copy is done is enough if and only if it is a `Bytes`: a
      `BytesMut` may reclaim the buffer under the copy. */
  lemma KeptIffBytes(run: seq<Action>, a: Action, k: nat)
    requires Legal(run) && Enabled(After(run), a) && Converts(a) && k in After(run).handles && k != a.handle
    ensures (forall more | Waits(run + [a], more, a.thread) && Keeps(run + [a], more, k)
                           && Legal(more) :: Undisturbed(more, a.thread))
            <==> k !in After(run).muts
  {
    var call, t := run + [a], a.thread;
    CallIsLate(run, a, k);
    hide After, Legal, Next, Enabled;
    if k !in After(run).muts {
      forall more | Waits(call, more, t) && Keeps(call, more, k) && Legal(more) ensures Undisturbed(more, t) {
        KeptCopyIsSafe(run, a, more, k);
      }
    } else {
      var more := Overwrites(call, t, k);
      assert !Undisturbed(more, t);
    }
  }

  // ===== When a clone allocates =====

  /** Every clone begins when no other is under way. */
  ghost predicate NoOverlap(run: seq<Action>) {
    forall i | 0 <= i < |run| && run[i].Begin? && Legal(run[..i]) :: Cloners(After(run[..i]).threads) == {}
  }

  /** An exchange is lost only in a race: if no two clones overlap, no exchange is lost, and every
      block that was ever allocated was installed. */
  lemma LostOnlyInRaces(run: seq<Action>)
    requires Legal(run) && NoOverlap(run)
    ensures After(run).lost == 0
    ensures Cloners(After(run).threads) == {} ==> |After(run).blocks| == |After(run).installs|
  {
    RunOk(run);
    SoloRun(run);
    var s := After(run);
    if Cloners(s.threads) == {} {
      forall b: nat | b < |s.blocks| ensures b in s.installs { SoloBlock(s, b); }
      forall b | b in s.installs ensures b < |s.blocks| { assert InstalledOk(s, b); }
      CountBelow(|s.blocks|);
      BelowMembers(|s.blocks|);
      assert Below(|s.blocks|) == s.installs;
    }
  }

  /** One clone at most is under way, and nothing has changed since it looked. */
  ghost predicate Solo(s: State) {
    && s.lost == 0
    && (forall t, u | t in Cloners(s.threads) && u in Cloners(s.threads) :: t == u)
    && (forall t | t in s.threads :: SoloPc(s, s.threads[t]))
    && (forall b: nat | b < |s.blocks| && b !in s.installs :: Exchanging(s, b))
  }

  ghost predicate SoloPc(s: State, pc: Pc) {
    && !pc.AtRelease?
    && (pc.AtAllocate? || pc.AtExchange? ==> pc.handle in s.handles && s.handles[pc.handle] == Unpromoted)
  }

  ghost predicate Exchanging(s: State, b: nat) {
    exists t :: t in s.threads && s.threads[t].AtExchange? && s.threads[t].own == b
  }

  lemma SoloBlock(s: State, b: nat)
    requires Solo(s) && Cloners(s.threads) == {} && b < |s.blocks|
    ensures b in s.installs
  {
    forall t | t in s.threads ensures !s.threads[t].AtExchange? { assert t !in Cloners(s.threads); }
  }

  lemma {:induction false} SoloRun(run: seq<Action>)
    requires Legal(run) && NoOverlap(run)
    ensures Solo(After(run))
  {
    if run == [] {
      assert Solo(START);
    } else {
      var n := |run| - 1;
      forall i | 0 <= i < n && run[..n][i].Begin? && Legal(run[..n][..i])
        ensures Cloners(After(run[..n][..i]).threads) == {}
      {
        assert run[..n][..i] == run[..i];
      }
      SoloRun(run[..n]);
      RunOk(run[..n]);
      SoloStep(After(run[..n]), run[n]);
    }
  }

  lemma SoloStep(s: State, a: Action)
    requires Inv(s) && Solo(s) && Enabled(s, a) && (a.Begin? ==> Cloners(s.threads) == {})
    ensures Solo(Next(s, a))
  {
    SoloLost(s, a);
    SoloCloners(s, a);
    SoloPcs(s, a);
    SoloBlocks(s, a);
  }

  lemma SoloLost(s: State, a: Action)
    requires Solo(s) && Enabled(s, a)
    ensures Next(s, a).lost == 0
  {
    if a.Exchange? { assert SoloPc(s, s.threads[a.thread]); }
  }

  /** Who clones after a step did so before, or begins. */
  lemma StillCloning(s: State, a: Action, t: nat)
    requires Enabled(s, a) && t in Cloners(Next(s, a).threads)
    ensures t in Cloners(s.threads) || (a.Begin? && t == a.thread)
  {
  }

  lemma SoloCloners(s: State, a: Action)
    requires Solo(s) && Enabled(s, a) && (a.Begin? ==> Cloners(s.threads) == {})
    ensures var u := Next(s, a); forall t, v | t in Cloners(u.threads) && v in Cloners(u.threads) :: t == v
  {
    forall t, v | t in Cloners(Next(s, a).threads) && v in Cloners(Next(s, a).threads) ensures t == v {
      StillCloning(s, a, t);
      StillCloning(s, a, v);
    }
  }

  lemma SoloPcs(s: State, a: Action)
    requires Inv(s) && Solo(s) && Enabled(s, a) && (a.Begin? ==> Cloners(s.threads) == {})
    ensures var u := Next(s, a); forall t | t in u.threads :: SoloPc(u, u.threads[t])
  {
    var u := Next(s, a);
    forall t | t in u.threads ensures SoloPc(u, u.threads[t]) {
      if t == a.thread {
        SoloOwnPc(s, a);
      } else {
        assert t in s.threads && u.threads[t] == s.threads[t];
        SoloOtherPc(s, a, t);
      }
    }
  }

  lemma SoloOwnPc(s: State, a: Action)
    requires Solo(s) && Enabled(s, a) && a.thread in Next(s, a).threads
    ensures SoloPc(Next(s, a), Next(s, a).threads[a.thread])
  {
    if a.thread in s.threads { assert SoloPc(s, s.threads[a.thread]); }
  }

  /** A thread that saw its handle unpromoted is not disturbed by anyone but another clone. */
  lemma SoloOtherPc(s: State, a: Action, t: nat)
    requires Inv(s) && Solo(s) && Enabled(s, a) && t in s.threads && t != a.thread
    ensures SoloPc(Next(s, a), s.threads[t])
  {
    var pc := s.threads[t];
    assert SoloPc(s, pc);
    if pc.AtAllocate? || pc.AtExchange? {
      assert t in Cloners(s.threads);
      assert a.Exchange? ==> a.thread in Cloners(s.threads);
      OthersWait(s, a, t, pc.handle);
    }
  }

  /** A borrowed handle that is unpromoted stays as it is, except for a clone that wins. */
  lemma OthersWait(s: State, a: Action, t: nat, h: nat)
    requires Inv(s) && Enabled(s, a) && t in s.threads && t != a.thread && s.threads[t].Borrows(h)
    requires h in s.handles && s.handles[h] == Unpromoted && !a.Exchange?
    ensures h in Next(s, a).handles && Next(s, a).handles[h] == Unpromoted
  {
    OnlyOne(s, h);
    assert Freeing(s.threads) == {} && a.thread !in Freeing(s.threads);
    hide Inv;
    assert Borrowed(s, h);
  }

  lemma SoloBlocks(s: State, a: Action)
    requires Solo(s) && Enabled(s, a)
    ensures var u := Next(s, a); forall b: nat | b < |u.blocks| && b !in u.installs :: Exchanging(u, b)
  {
    var u := Next(s, a);
    forall b: nat | b < |u.blocks| && b !in u.installs ensures Exchanging(u, b) {
      if b < |s.blocks| { SoloOldBlock(s, a, b); } else { NewBlock(s, a, b); }
    }
  }

  /** A block is installed at once or held by the thread that allocated it. */
  lemma NewBlock(s: State, a: Action, b: nat)
    requires Enabled(s, a) && |s.blocks| <= b < |Next(s, a).blocks| && b !in Next(s, a).installs
    ensures Exchanging(Next(s, a), b)
  {
    assert Next(s, a).threads[a.thread].own == b;
  }

  lemma SoloOldBlock(s: State, a: Action, b: nat)
    requires Solo(s) && Enabled(s, a) && b < |s.blocks| && b !in Next(s, a).installs
    ensures Exchanging(Next(s, a), b)
  {
    assert b !in s.installs && Exchanging(s, b);
    var t :| t in s.threads && s.threads[t].AtExchange? && s.threads[t].own == b;
    assert SoloPc(s, s.threads[t]);
    assert t != a.thread;
    assert t in Next(s, a).threads && Next(s, a).threads[t] == s.threads[t];
  }

  /** The step at `k` makes a `data` word point to block `b`. */
  ghost predicate InstalledAt(run: seq<Action>, k: nat, b: nat) {
    && k < |run| && Legal(run[..k]) && Legal(run[..k + 1])
    && b !in After(run[..k]).installs && b in After(run[..k + 1]).installs
  }

  /** Thread `t` loaded at `i` and has done nothing since but allocate. */
  ghost predicate LoadedAt(run: seq<Action>, t: nat, i: nat) {
    i < |run| && run[i] == Load(t) && forall j | i < j < |run| && run[j].thread == t :: run[j].Allocate?
  }

  /** Another thread's exchange came between. */
  ghost predicate BeatenAt(run: seq<Action>, t: nat, i: nat, k: nat, b: nat) {
    i < k < |run| && run[k].Exchange? && run[k].thread != t && InstalledAt(run, k, b)
  }

  /** A thread that loses its exchange loaded before the installation that beat it: the two clones
      were under way at the same time. */
  lemma LoserLoadedFirst(run: seq<Action>, t: nat)
    requires Legal(run + [Exchange(t)]) && Legal(run) && After(run + [Exchange(t)]).lost > After(run).lost
    ensures exists i, k, b :: LoadedAt(run, t, i) && BeatenAt(run, t, i, k, b)
  {
    Unfold(run + [Exchange(t)]);
    assert (run + [Exchange(t)])[..|run|] == run;
    var i, k := LoadedBefore(run, t);
    assert BeatenAt(run, t, i, k, After(run).handles[After(run).threads[t].handle].block);
  }

  lemma {:induction false} LoadedBefore(run: seq<Action>, t: nat) returns (i: nat, k: nat)
    requires Legal(run) && t in After(run).threads
    requires After(run).threads[t].AtAllocate? || After(run).threads[t].AtExchange?
    ensures LoadedAt(run, t, i)
    ensures var s := After(run);
            && s.threads[t].handle in s.handles
            && var w := s.handles[s.threads[t].handle]; w.Promoted? ==> BeatenAt(run, t, i, k, w.block)
  {
    var n := |run| - 1;
    RunOk(run);
    assert PcOk(After(run), After(run).threads[t]);
    Unfold(run);
    RunOk(run[..n]);
    var s, a := After(run[..n]), run[n];
    k := 0;
    if a == Load(t) {
      i := n;
    } else {
      LookedBefore(s, a, t);
      hide Inv, KindsOk;
      i, k := LoadedBefore(run[..n], t);
      LaterLoaded(run, t, i, k);
      var h := s.threads[t].handle;
      if s.handles[h] == Unpromoted && After(run).handles[h].Promoted? {
        k := n;
        assert run[..n + 1] == run;
      }
    }
  }

  /** What the last step did to a thread that has loaded, and to its handle. */
  lemma LookedBefore(s: State, a: Action, t: nat)
    requires Inv(s) && Enabled(s, a) && a != Load(t) && t in Next(s, a).threads
    requires Next(s, a).threads[t].AtAllocate? || Next(s, a).threads[t].AtExchange?
    ensures t in s.threads && (s.threads[t].AtAllocate? || s.threads[t].AtExchange?)
    ensures var h := s.threads[t].handle;
            && Next(s, a).threads[t].handle == h && (a.thread == t ==> a.Allocate?)
            && h in s.handles && h in Next(s, a).handles
            && (s.handles[h].Promoted? ==> Next(s, a).handles[h] == s.handles[h])
            && (s.handles[h] == Unpromoted && Next(s, a).handles[h].Promoted? ==>
                  && a.Exchange? && a.thread != t && Next(s, a).handles[h].block !in s.installs
                  && Next(s, a).handles[h].block in Next(s, a).installs)
  {
    LookedThread(s, a, t);
    assert PcOk(s, s.threads[t]);
    var h := s.threads[t].handle;
    if s.handles[h].Promoted? {
      StaysPromoted(s, a, t, h);
    } else if a.thread != t {
      if a.Exchange? { WinnerInstalls(s, a.thread, h); } else { OthersWait(s, a, t, h); }
    }
  }

  lemma LookedThread(s: State, a: Action, t: nat)
    requires Enabled(s, a) && a != Load(t) && t in Next(s, a).threads
    requires Next(s, a).threads[t].AtAllocate? || Next(s, a).threads[t].AtExchange?
    ensures t in s.threads && (s.threads[t].AtAllocate? || s.threads[t].AtExchange?)
    ensures Next(s, a).threads[t].handle == s.threads[t].handle && (a.thread == t ==> a.Allocate?)
  {
  }

  /** A borrowed handle keeps its block. */
  lemma StaysPromoted(s: State, a: Action, t: nat, h: nat)
    requires Inv(s) && Enabled(s, a) && t in s.threads && s.threads[t].Borrows(h)
    requires h in s.handles && s.handles[h].Promoted? && h < s.next
    ensures h in Next(s, a).handles && Next(s, a).handles[h] == s.handles[h]
  {
    assert Borrowed(s, h);
    hide Inv;
  }

  lemma WinnerInstalls(s: State, v: nat, h: nat)
    requires Inv(s) && Enabled(s, Exchange(v)) && h in s.handles && s.handles[h] == Unpromoted
    ensures var u := Next(s, Exchange(v));
            && h in u.handles && u.handles[h].Promoted? && u.handles[h].block !in s.installs
            && u.handles[h].block in u.installs
  {
    OnlyOne(s, h);
    assert PcOk(s, s.threads[v]);
  }

  lemma LaterLoaded(run: seq<Action>, t: nat, i: nat, k: nat)
    requires |run| > 0 && LoadedAt(run[..|run| - 1], t, i)
    requires run[|run| - 1].thread == t ==> run[|run| - 1].Allocate?
    ensures LoadedAt(run, t, i)
    ensures forall b | BeatenAt(run[..|run| - 1], t, i, k, b) :: BeatenAt(run, t, i, k, b)
  {
    var n := |run| - 1;
    forall j | i < j < |run| && run[j].thread == t ensures run[j].Allocate? {
      if j < n { assert run[..n][j] == run[j]; }
    }
    if k < n { assert run[..n][..k] == run[..k] && run[..n][..k + 1] == run[..k + 1] && run[..n][k] == run[k]; }
  }

  /** How many steps of a run are those of thread `t`. */
  function StepsOf(run: seq<Action>, t: nat): nat {
    if run == [] then 0
    else StepsOf(run[..|run| - 1], t) + if run[|run| - 1].thread == t then 1 else 0
  }

  /** The step at `i` allocates a block or loses an exchange. */
  ghost predicate CostsBlock(run: seq<Action>, i: nat) {
    && i < |run| && Legal(run[..i]) && Legal(run[..i + 1])
    && (|After(run[..i + 1]).blocks| != |After(run[..i]).blocks| || After(run[..i + 1]).lost != After(run[..i]).lost)
  }

  /** Where such a clone is after `k` steps of its own. */
  ghost predicate Quick(s: State, t: nat, h: nat, k: nat) {
    if k < 3 then
      && t in s.threads && h in s.handles && s.handles[h].Promoted? && h < s.next
      && if k == 1 then s.threads[t] == AtLoad(h) else s.threads[t] == AtIncrement(h, s.handles[h].block)
    else t !in s.threads
  }

  lemma QuickStep(s: State, a: Action, t: nat, h: nat, k: nat)
    requires Inv(s) && Enabled(s, a) && 1 <= k && Quick(s, t, h, k) && (a.thread == t ==> k < 3)
    ensures Quick(Next(s, a), t, h, if a.thread == t then k + 1 else k)
    ensures a.thread == t ==> |Next(s, a).blocks| == |s.blocks| && Next(s, a).lost == s.lost
  {
    if a.thread == t {
      hide Inv;
    } else if k < 3 {
      StaysPromoted(s, a, t, h);
      NextGrows(s, a);
      hide Inv;
    } else {
      hide Inv;
    }
  }

  lemma NextGrows(s: State, a: Action)
    requires Enabled(s, a)
    ensures s.next <= Next(s, a).next
    ensures forall t | t != a.thread :: t in Next(s, a).threads <==> t in s.threads
    ensures forall t | t != a.thread && t in s.threads :: Next(s, a).threads[t] == s.threads[t]
  {
  }

  lemma QuickBegin(s: State, t: nat, h: nat)
    requires Inv(s) && Enabled(s, Begin(t, h)) && s.handles[h].Promoted?
    ensures Quick(Next(s, Begin(t, h)), t, h, 1)
    ensures |Next(s, Begin(t, h)).blocks| == |s.blocks| && Next(s, Begin(t, h)).lost == s.lost
  {
  }

  lemma StepsGrow(more: seq<Action>, from: nat, t: nat)
    requires from < |more|
    ensures StepsOf(more[from..], t)
            == StepsOf(more[..|more| - 1][from..], t) + if more[|more| - 1].thread == t then 1 else 0
  {
    var tail := more[from..];
    assert tail[..|tail| - 1] == more[..|more| - 1][from..] && tail[|tail| - 1] == more[|more| - 1];
  }

  /** Steps before the last cost what they cost. */
  lemma SameCosts(more: seq<Action>, i: nat)
    requires i + 1 < |more|
    ensures CostsBlock(more, i) <==> CostsBlock(more[..|more| - 1], i)
  {
    var n := |more| - 1;
    assert more[..n][..i] == more[..i] && more[..n][..i + 1] == more[..i + 1];
  }

  lemma LastCost(more: seq<Action>)
    requires Legal(more) && more != []
    ensures var n := |more| - 1;
            && Legal(more[..n]) && Enabled(After(more[..n]), more[n])
            && var s, u := After(more[..n]), Next(After(more[..n]), more[n]);
               CostsBlock(more, n) <==> |u.blocks| != |s.blocks| || u.lost != s.lost
  {
    Unfold(more);
    assert more[..|more| - 1 + 1] == more;
  }

  /** A clone that begins on a promoted handle takes two more steps, whatever goes on beside it; none
      of its steps allocates a block or loses an exchange. */
  lemma {:induction false} PromotedClone(run: seq<Action>, more: seq<Action>, t: nat, h: nat)
    requires Legal(run) && Legal(more) && run < more && more[|run|] == Begin(t, h)
    requires h in After(run).handles && After(run).handles[h].Promoted?
    requires StepsOf(more[|run|..], t) <= 3
    ensures StepsOf(more[|run|..], t) >= 1 && (t in After(more).threads <==> StepsOf(more[|run|..], t) < 3)
    ensures forall i | |run| <= i < |more| && more[i].thread == t :: !CostsBlock(more, i)
    decreases |more|
  {
    QuickRun(run, more, t, h);
  }

  lemma {:induction false} QuickRun(run: seq<Action>, more: seq<Action>, t: nat, h: nat)
    requires Legal(run) && Legal(more) && run < more && more[|run|] == Begin(t, h)
    requires h in After(run).handles && After(run).handles[h].Promoted?
    requires StepsOf(more[|run|..], t) <= 3
    ensures StepsOf(more[|run|..], t) >= 1 && Quick(After(more), t, h, StepsOf(more[|run|..], t))
    ensures forall i | |run| <= i < |more| && more[i].thread == t :: !CostsBlock(more, i)
    decreases |more|
  {
    hide Legal, After, Enabled, Next, Inv, KindsOk, CostsBlock, Quick, StepsOf;
    var n := |more| - 1;
    Unfold(more);
    LastCost(more);
    RunOk(more[..n]);
    StepsGrow(more, |run|, t);
    if n == |run| {
      assert more[..n] == run;
      QuickBegin(After(run), t, h);
      NoSteps(more[..n][|run|..], t);
    } else {
      assert run < more[..n] && more[..n][|run|] == more[|run|];
      QuickRun(run, more[..n], t, h);
      forall i | |run| <= i < n && more[i].thread == t ensures !CostsBlock(more, i) {
        SameCosts(more, i);
        assert more[..n][i] == more[i];
      }
      QuickStep(After(more[..n]), more[n], t, h, StepsOf(more[..n][|run|..], t));
    }
  }

  lemma NoSteps(none: seq<Action>, t: nat)
    requires |none| == 0
    ensures StepsOf(none, t) == 0
  {
  }

  // ===== Two schedules =====

  lemma Extend(run: seq<Action>, a: Action)
    requires Legal(run) && Enabled(After(run), a)
    ensures Legal(run + [a]) && After(run + [a]) == Next(After(run), a)
  {
    assert (run + [a])[..|run|] == run;
  }

  /** One undisturbed clone of the original. */
  lemma OneClone() returns (run: seq<Action>)
    ensures Legal(run)
    ensures After(run) == State(map[0 := Promoted(0), 1 := Promoted(0)], 2, [2], map[], 0, {0}, 0, {}, {})
  {
    run := [];
    Extend(run, Freeze(1, 0, false));
    run := run + [Freeze(1, 0, false)];
    assert {0} - {0} == {};
    Extend(run, Begin(1, 0));
    run := run + [Begin(1, 0)];
    Extend(run, Load(1));
    run := run + [Load(1)];
    Extend(run, Allocate(1));
    run := run + [Allocate(1)];
    Extend(run, Exchange(1));
    run := run + [Exchange(1)];
  }

  /** A clone, and the original turned into a vector: the bytes are still to be copied. */
  lemma Called() returns (run: seq<Action>)
    ensures Legal(run)
    ensures After(run) == State(map[1 := Promoted(0)], 2, [1], map[1 := AtCopy], 0, {0}, 0, {}, {})
  {
    run := OneClone();
    Extend(run, IntoVec(1, 0));
    run := run + [IntoVec(1, 0)];
    assert map[0 := Promoted(0), 1 := Promoted(0)] - {0} == map[1 := Promoted(0)];
  }

  /** The copy in `into_vec` can come too late: the other handle may be dropped, and the buffer
      freed, between the decrement and the copy. */
  lemma LateCopy()
    ensures exists run :: && Legal(run) && After(run).frees == 1
                          && 1 in After(run).threads && After(run).threads[1] == AtCopy
  {
    var run := Called();
    Extend(run, Drop(2, 1));
    run := run + [Drop(2, 1)];
    Extend(run, Free(2));
    run := run + [Free(2)];
  }

  /** Two clones of the original that both found it unpromoted. */
  lemma Race() returns (run: seq<Action>)
    ensures Legal(run)
    ensures After(run) == State(map[0 := Unpromoted], 1, [2, 2],
                                map[1 := AtExchange(0, 0), 2 := AtExchange(0, 1)], 0, {}, 0, {}, {})
  {
    run := [];
    Extend(run, Freeze(1, 0, false));
    run := run + [Freeze(1, 0, false)];
    Extend(run, Begin(1, 0));
    run := run + [Begin(1, 0)];
    Extend(run, Begin(2, 0));
    run := run + [Begin(2, 0)];
    Extend(run, Load(1));
    run := run + [Load(1)];
    Extend(run, Load(2));
    run := run + [Load(2)];
    Extend(run, Allocate(1));
    run := run + [Allocate(1)];
    Extend(run, Allocate(2));
    run := run + [Allocate(2)];
  }

  /** A lost exchange does strand its control block: two clones racing, everything dropped. */
  lemma LostExchangeStrands()
    ensures exists run :: Legal(run) && After(run).lost == 1 && 1 in Stranded(After(run)) && After(run).blocks[1] == 1
  {
    var run := Race();
    Extend(run, Exchange(1));
    run := run + [Exchange(1)];
    Extend(run, Exchange(2));
    run := run + [Exchange(2)];
    Extend(run, Release(2));
    run := run + [Release(2)];
  }
}
