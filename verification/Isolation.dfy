/**
 Whole runs of a machine whose events are program loads and address-space creations by the kernel
 and byte stores by ring-3 tasks, each store going through the page tables that lie in the same
 memory.
 */
module Isolation {
  import opened Bytes
  import opened Paging
  import opened Vmm

  datatype Space = Space(cr3: nat, base: u64)

  datatype World = World(m: seq<byte>, bump: nat, spaces: seq<Space>)

  datatype Event =
    | Create(base: u64)
    | Load(at: nat, bytes: seq<byte>)
    | Store(task: nat, va: u64, v: byte)

  /** The bytes of the two pages that a window at base opens. */
  predicate InWindow(base: u64, a: nat)
  {
    a < 0x4000_0000 && UserPage(base, a / BIG_PAGE)
  }

  /** The window stays clear of every page that holds a page table. */
  ghost predicate Safe(base: u64, boot: nat)
  {
    forall a: nat {:trigger InWindow(base, a)} :: InWindow(base, a) ==>
      !(POOL_BASE <= a < POOL_END) && !(boot <= a < boot + 6 * TABLE)
  }

  ghost predicate Step(boot: nat, w: World, e: Event, w': World)
  {
    match e
    case Create(base) =>
      exists p: nat :: Created(w.m, w.bump, boot, base, w'.m, w'.bump, p)
                       && w'.spaces == if p == 0 then w.spaces else w.spaces + [Space(p, base)]
    case Load(at, bytes) =>
      at + |bytes| <= |w.m| && w' == w.(m := Put(w.m, at, bytes))
    case Store(t, va, v) =>
      w' == if t < |w.spaces| then w.(m := UserStore(w.m, w.spaces[t].cr3, va, v)) else w
  }

  /** Tables as built, in their own pages of the used part of the pool, out of reach of every window. */
  ghost predicate Inv(boot: nat, w: World)
  {
    && BootPlaced(boot) && BootTables(w.m, boot)
    && POOL_BASE <= w.bump <= POOL_END && w.bump % TABLE == 0
    && (forall i | 0 <= i < |w.spaces| ::
          POOL_BASE <= w.spaces[i].cr3 && w.spaces[i].cr3 + 3 * TABLE <= w.bump
          && Built(w.m, boot, w.spaces[i].cr3, w.spaces[i].base) && Safe(w.spaces[i].base, boot))
    && (forall i, j | 0 <= i < j < |w.spaces| :: w.spaces[i].cr3 + 3 * TABLE <= w.spaces[j].cr3)
  }

  /** Bytes [lo, hi) stay clear of the page-table pool and of the boot tables. */
  predicate ClearOfTables(boot: nat, lo: nat, hi: nat)
  {
    (hi <= POOL_BASE || POOL_END <= lo) && (hi <= boot || boot + 6 * TABLE <= lo)
  }

  /** New windows and loaded programs stay clear of the tables. */
  ghost predicate SafeEvent(boot: nat, e: Event)
  {
    match e
    case Create(base) => Safe(base, boot)
    case Load(at, bytes) => ClearOfTables(boot, at, at + |bytes|)
    case Store(_, _, _) => true
  }

  ghost predicate Run(boot: nat, ws: seq<World>, es: seq<Event>)
  {
    |ws| == |es| + 1 && forall i {:trigger es[i]} | 0 <= i < |es| :: SafeEvent(boot, es[i]) && Step(boot, ws[i], es[i], ws[i + 1])
  }

  /** Event k is a store by a task whose window contains byte a. */
  ghost predicate Writer(ws: seq<World>, es: seq<Event>, a: nat, k: nat)
    requires |ws| == |es| + 1
  {
    k < |es| && es[k].Store? && es[k].task < |ws[k].spaces| && InWindow(ws[k].spaces[es[k].task].base, a)
  }

  /** Event k loads program bytes over byte a. */
  ghost predicate Loader(es: seq<Event>, a: nat, k: nat)
  {
    k < |es| && es[k].Load? && es[k].at <= a < es[k].at + |es[k].bytes|
  }

  ghost predicate SameWalks(m: seq<byte>, r: seq<byte>, cr3: nat)
  {
    forall va: u64 :: Walk(r, cr3, va) == Walk(m, cr3, va)
  }

  // ---- One store ------------------------------------------------------------

  /** Hardware permission is exactly membership in the window, and the byte changed is that one. */
  lemma StoreEffect(boot: nat, w: World, t: nat, va: u64, v: byte)
    requires Inv(boot, w) && t < |w.spaces|
    ensures var s := w.spaces[t];
            UserStore(w.m, s.cr3, va, v) == if InWindow(s.base, va) then w.m[va := v] else w.m
  {
    WalkBuilt(w.m, boot, w.spaces[t].cr3, w.spaces[t].base, va);
  }

  lemma StoreKeepsInv(boot: nat, w: World, t: nat, va: u64, v: byte)
    requires Inv(boot, w) && t < |w.spaces|
    ensures Inv(boot, w.(m := UserStore(w.m, w.spaces[t].cr3, va, v)))
  {
    StoreEffect(boot, w, t, va, v);
    var r := UserStore(w.m, w.spaces[t].cr3, va, v);
    if InWindow(w.spaces[t].base, va) {
      assert SameOutside(w.m, r, va, va + 1);
      BootFrame(w.m, r, va, va + 1, boot);
      forall i | 0 <= i < |w.spaces| ensures Built(r, boot, w.spaces[i].cr3, w.spaces[i].base) {
        BuiltFrame(w.m, r, va, va + 1, boot, w.spaces[i].cr3, w.spaces[i].base);
      }
    }
  }

  // ---- One creation ---------------------------------------------------------

  lemma CreateKeepsInv(boot: nat, w: World, base: u64, w': World, p: nat)
    requires Inv(boot, w) && Safe(base, boot)
    requires Created(w.m, w.bump, boot, base, w'.m, w'.bump, p)
    requires w'.spaces == if p == 0 then w.spaces else w.spaces + [Space(p, base)]
    ensures Inv(boot, w')
  {
    BootFrame(w.m, w'.m, w.bump, w'.bump, boot);
    forall i | 0 <= i < |w.spaces| ensures Built(w'.m, boot, w.spaces[i].cr3, w.spaces[i].base) {
      BuiltFrame(w.m, w'.m, w.bump, w'.bump, boot, w.spaces[i].cr3, w.spaces[i].base);
    }
  }

  /** The kernel may load programs anywhere outside the pool and the boot tables. */
  lemma KernelWriteKeepsInv(boot: nat, w: World, m: seq<byte>, lo: nat, hi: nat)
    requires Inv(boot, w) && SameOutside(w.m, m, lo, hi)
    requires ClearOfTables(boot, lo, hi)
    ensures Inv(boot, w.(m := m))
  {
    BootFrame(w.m, m, lo, hi, boot);
    forall i | 0 <= i < |w.spaces| ensures Built(m, boot, w.spaces[i].cr3, w.spaces[i].base) {
      BuiltFrame(w.m, m, lo, hi, boot, w.spaces[i].cr3, w.spaces[i].base);
    }
  }

  // ---- Runs -----------------------------------------------------------------

  lemma StepKeepsInv(boot: nat, w: World, e: Event, w': World)
    requires Inv(boot, w) && SafeEvent(boot, e) && Step(boot, w, e, w')
    ensures Inv(boot, w') && w.spaces <= w'.spaces && w.bump <= w'.bump
  {
    match e
    case Create(base) =>
      var p: nat :| Created(w.m, w.bump, boot, base, w'.m, w'.bump, p)
                    && w'.spaces == if p == 0 then w.spaces else w.spaces + [Space(p, base)];
      CreateKeepsInv(boot, w, base, w', p);
    case Load(at, bytes) =>
      KernelWriteKeepsInv(boot, w, w'.m, at, at + |bytes|);
    case Store(t, va, v) =>
      if t < |w.spaces| { StoreKeepsInv(boot, w, t, va, v); }
  }

  lemma {:induction false} RunKeepsInv(boot: nat, ws: seq<World>, es: seq<Event>)
    requires Run(boot, ws, es) && Inv(boot, ws[0])
    ensures forall i | 0 <= i < |ws| :: Inv(boot, ws[i]) && ws[0].spaces <= ws[i].spaces && ws[0].bump <= ws[i].bump
  {
    hide Inv, Step;
    if es != [] {
      var n := |es| - 1;
      assert forall i | 0 <= i < n :: es[..n][i] == es[i];
      RunKeepsInv(boot, ws[..n + 1], es[..n]);
      assert ws[..n + 1][n] == ws[n];
      assert SafeEvent(boot, es[n]) && Step(boot, ws[n], es[n], ws[n + 1]);
      StepKeepsInv(boot, ws[n], es[n], ws[n + 1]);
      forall i | 0 <= i < |ws| ensures Inv(boot, ws[i]) && ws[0].spaces <= ws[i].spaces && ws[0].bump <= ws[i].bump {
        if i <= n { assert ws[..n + 1][i] == ws[i]; }
      }
    }
  }

  /**
   Isolation over whole runs: translations never change once a space exists, and a byte changes
   only if a task whose window contains it stored, or the kernel loaded a program there or took its
   page for a new table.
   */
  lemma {:induction false} RunIsolation(boot: nat, ws: seq<World>, es: seq<Event>, a: nat)
    requires Run(boot, ws, es) && Inv(boot, ws[0])
    ensures Inv(boot, ws[|es|]) && ws[0].spaces <= ws[|es|].spaces
    ensures forall i | 0 <= i < |ws[0].spaces| :: SameWalks(ws[0].m, ws[|es|].m, ws[0].spaces[i].cr3)
    ensures a < GIB4 && ws[|es|].m[a] != ws[0].m[a] ==>
              ws[0].bump <= a < ws[|es|].bump || exists k: nat :: Writer(ws, es, a, k) || Loader(es, a, k)
  {
    RunKeepsInv(boot, ws, es);
    forall i | 0 <= i < |ws[0].spaces| ensures SameWalks(ws[0].m, ws[|es|].m, ws[0].spaces[i].cr3) {
      var s := ws[0].spaces[i];
      assert ws[|es|].spaces[i] == s;
      forall va: u64 ensures Walk(ws[|es|].m, s.cr3, va) == Walk(ws[0].m, s.cr3, va) {
        WalkBuilt(ws[0].m, boot, s.cr3, s.base, va);
        WalkBuilt(ws[|es|].m, boot, s.cr3, s.base, va);
      }
    }
    if a < GIB4 && ws[|es|].m[a] != ws[0].m[a] {
      var k := FirstChange(ws, es, a);
      ChangedBy(boot, ws, es, a, k);
    }
  }

  /** Some step of the run changes the byte. */
  lemma {:induction false} FirstChange(ws: seq<World>, es: seq<Event>, a: nat) returns (k: nat)
    requires |ws| == |es| + 1
    requires a < GIB4 && (forall i | 0 <= i < |ws| :: |ws[i].m| == GIB4) && ws[|es|].m[a] != ws[0].m[a]
    ensures k < |es| && ws[k + 1].m[a] != ws[k].m[a]
  {
    k := 0;
    while ws[k + 1].m[a] == ws[k].m[a]
      invariant k < |es| && ws[k].m[a] == ws[0].m[a]
      decreases |es| - k
    {
      k := k + 1;
    }
  }

  lemma ChangedBy(boot: nat, ws: seq<World>, es: seq<Event>, a: nat, k: nat)
    requires Run(boot, ws, es) && forall i | 0 <= i < |ws| :: Inv(boot, ws[i]) && ws[0].bump <= ws[i].bump
    requires a < GIB4 && k < |es| && |ws[k].m| == |ws[k + 1].m| == GIB4 && ws[k + 1].m[a] != ws[k].m[a]
    ensures ws[0].bump <= a < ws[|es|].bump || Writer(ws, es, a, k) || Loader(es, a, k)
  {
    assert SafeEvent(boot, es[k]) && Step(boot, ws[k], es[k], ws[k + 1]);
    match es[k]
    case Create(base) =>
      assert ws[k].bump <= a < ws[k + 1].bump;
      BumpGrows(boot, ws, es, k + 1);
    case Load(at, bytes) =>
    case Store(t, va, v) =>
      StoreEffect(boot, ws[k], t, va, v);
  }

  lemma BumpGrows(boot: nat, ws: seq<World>, es: seq<Event>, k: nat)
    requires Run(boot, ws, es) && k <= |es| && Inv(boot, ws[k])
    ensures ws[k].bump <= ws[|es|].bump
  {
    var xs, fs := ws[k..], es[k..];
    assert forall i {:trigger fs[i]} | 0 <= i < |fs| :: fs[i] == es[k + i];
    RunKeepsInv(boot, xs, fs);
    assert xs[|fs|] == ws[|es|];
  }

  /** A task that does not store keeps its bytes, whatever tasks with other windows do and the kernel loads elsewhere. */
  lemma IdleTaskUntouched(boot: nat, ws: seq<World>, es: seq<Event>, i: nat, a: nat)
    requires Run(boot, ws, es) && Inv(boot, ws[0]) && i < |ws[0].spaces|
    requires InWindow(ws[0].spaces[i].base, a)
    requires forall k: nat {:trigger es[k]} | k < |es| && es[k].Store? && es[k].task < |ws[k].spaces| ::
               es[k].task != i && !InWindow(ws[k].spaces[es[k].task].base, a)
    requires forall k: nat {:trigger Loader(es, a, k)} :: !Loader(es, a, k)
    ensures |ws[|es|].m| == |ws[0].m| == GIB4 && ws[|es|].m[a] == ws[0].m[a]
  {
    RunIsolation(boot, ws, es, a);
    assert forall k: nat :: !Writer(ws, es, a, k);
    assert !(POOL_BASE <= a < POOL_END);
  }

  // ---- How many spaces there can be -----------------------------------------

  function Creations(es: seq<Event>): nat
  {
    if es == [] then 0 else Creations(es[..|es| - 1]) + (if es[|es| - 1].Create? then 1 else 0)
  }

  /** From an empty pool exactly the first 341 creations succeed; each takes three fresh pages. */
  lemma {:induction false} PoolCapacity(boot: nat, ws: seq<World>, es: seq<Event>)
    requires Run(boot, ws, es) && Inv(boot, ws[0])
    requires ws[0].bump == POOL_BASE && ws[0].spaces == []
    ensures var n := Creations(es);
            && |ws[|es|].spaces| == (if n <= 341 then n else 341)
            && ws[|es|].bump == if n <= 341 then 0x1840_0000 + 0x3000 * n else 0x1880_0000
  {
    if es != [] {
      var n := |es| - 1;
      assert forall i | 0 <= i < n :: es[..n][i] == es[i];
      PoolCapacity(boot, ws[..n + 1], es[..n]);
      RunKeepsInv(boot, ws, es);
      assert SafeEvent(boot, es[n]) && Step(boot, ws[n], es[n], ws[n + 1]);
    }
  }

  // ---- The two resident tasks -----------------------------------------------

  /** The bases of sam_run_pair: the second is not 2 MiB aligned, so its two pages straddle its window. */
  lemma PairWindows(boot: nat, a: nat)
    requires BootPlaced(boot) && boot + 6 * TABLE <= POOL_BASE
    ensures Safe(0x1900_0000, boot) && Safe(0x1950_0000, boot)
    ensures InWindow(0x1900_0000, a) <==> 0x1900_0000 <= a < 0x1940_0000
    ensures InWindow(0x1950_0000, a) <==> 0x1940_0000 <= a < 0x1960_0000 || 0x1980_0000 <= a < 0x19A0_0000
  {
    forall x: nat ensures InWindow(0x1900_0000, x) <==> 0x1900_0000 <= x < 0x1940_0000 {
      assert UserPage(0x1900_0000, x / BIG_PAGE) <==> x / BIG_PAGE == 200 || x / BIG_PAGE == 201;
    }
    forall x: nat ensures InWindow(0x1950_0000, x) <==> 0x1940_0000 <= x < 0x1960_0000 || 0x1980_0000 <= x < 0x19A0_0000 {
      assert UserPage(0x1950_0000, x / BIG_PAGE) <==> x / BIG_PAGE == 202 || x / BIG_PAGE == 204;
    }
  }
}
