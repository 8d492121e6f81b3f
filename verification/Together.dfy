/** The paging code of src/vm.c and other callers of src/mm.c on one allocator, taking turns in any
    order. */
module Together {
  import opened Common
  import opened Sv39
  import opened Cow
  import opened Eager
  import opened VmKernel = Vm
  import opened Heap
  import Blocks
  import Buddy
  import Slab
  import Mm
  import PageSets
  import Lists
  import Tenants
  import History

  /** An operation of a process; or another part of the kernel calls kmalloc or alloc_pages, or calls
      kfree for the i-th address it holds. */
  datatype Act = User(op: Eager.Op) | Kmalloc(size: nat) | AllocPages(order: nat) | Kfree(i: nat)

  ghost function PagesHeld(st: Buddy.State, sizes: map<nat, nat>): map<nat, (Buddy.Tag, Buddy.Page)> {
    map f | f in (set a | a in sizes :: a / PAGE_SIZE) && f < |st.tags| && f < |st.pages| :: (st.tags[f], st.pages[f])
  }

  /** The page tables and the other callers know of their own pages and of none of the others'. */
  ghost predicate Separate(s: Vm, h: HeapState) {
    FramesHeld(s, h.st) && PagesApart(s, h.st, PagesHeld(h.st, h.sizes)) && AllServed(h)
  }

  lemma HeldIsUnused(s: Vm, h: HeapState, a: nat)
    requires Separate(s, h) && a in h.sizes
    ensures a / PAGE_SIZE < |s.space.role| && s.space.role[a / PAGE_SIZE] == Unused
  {
    HeldPage(h, a);
    assert a / PAGE_SIZE in PagesHeld(h.st, h.sizes);
  }

  /** Enough for separateness: frames in use are held, and no page in use is held by others. */
  lemma SeparateIf(s: Vm, h: HeapState)
    requires FramesHeld(s, h.st) && AllServed(h)
    requires forall a :: a in h.sizes && a / PAGE_SIZE < |s.space.role| ==> s.space.role[a / PAGE_SIZE] == Unused
    ensures Separate(s, h)
  {
    var o := PagesHeld(h.st, h.sizes);
    forall f | f in o
      ensures f < |h.st.pages| && s.space.role[f] == Unused && o[f].0.kind == Buddy.Allocated
    {
      var a :| a in h.sizes && a / PAGE_SIZE == f;
      HeldPage(h, a);
    }
  }

  // --- a step of the page tables

  /** While the page tables leave the others' pages and slots alone, what the others hold serves them. */
  lemma KernelStep(s: Vm, h: HeapState, r: Vm, h': HeapState)
    requires Separate(s, h) && Sound(h') && h'.live == h.live && h'.sizes == h.sizes && |h'.st.pages| == |h.st.pages|
    requires FramesHeld(r, h'.st) && PagesApart(r, h'.st, PagesHeld(h.st, h.sizes))
    ensures Separate(r, h') && PagesHeld(h'.st, h'.sizes) == PagesHeld(h.st, h.sizes)
  {
    forall a | a in h.sizes
      ensures Serves(h'.st, h'.live, a, h.sizes[a])
      ensures a / PAGE_SIZE < |r.space.role| && r.space.role[a / PAGE_SIZE] == Unused
    {
      KeptServes(s, h, r, h', a);
    }
    SeparateIf(r, h');
    SamePagesHeld(r, h, h');
  }

  lemma KeptServes(s: Vm, h: HeapState, r: Vm, h': HeapState, a: nat)
    requires Separate(s, h) && a in h.sizes && h'.live == h.live && |h'.st.pages| == |h.st.pages|
    requires FramesHeld(r, h'.st) && PagesApart(r, h'.st, PagesHeld(h.st, h.sizes))
    ensures Serves(h'.st, h'.live, a, h.sizes[a])
    ensures a / PAGE_SIZE < |r.space.role| && r.space.role[a / PAGE_SIZE] == Unused
  {
    HeldPage(h, a);
    assert a / PAGE_SIZE in PagesHeld(h.st, h.sizes);
    StillServes(h.st, h'.st, h.live, h'.live, a, h.sizes[a]);
  }

  lemma SamePagesHeld(r: Vm, h: HeapState, h': HeapState)
    requires |h.st.pages| == |h.st.tags| == |h'.st.pages| && h'.sizes == h.sizes
    requires FramesHeld(r, h'.st) && PagesApart(r, h'.st, PagesHeld(h.st, h.sizes))
    ensures PagesHeld(h'.st, h'.sizes) == PagesHeld(h.st, h.sizes)
  {
    assert forall f :: f in PagesHeld(h'.st, h'.sizes) ==> f in PagesHeld(h.st, h.sizes);
  }

  // --- a step of the others

  lemma MallocStep(s: Vm, h: HeapState, n: nat, res: Option<nat>, r: HeapState)
    requires Separate(s, h) && Mallocs(h, n, res, r)
    ensures Separate(s, r)
  {
    MallocServes(h, n, res, r);
    if n > 0 {
        var use := Tenants.KmallocIsUse(h.st, r.st, n, res.value);
      Tenants.OthersKeepFrames(s, h.st, use);
      forall a | a in r.sizes && a / PAGE_SIZE < |s.space.role|
        ensures s.space.role[a / PAGE_SIZE] == Unused
      {
        if a in h.sizes {
          HeldIsUnused(s, h, a);
        } else {
          NewIsUnused(s, h, n, a, r);
        }
      }
      SeparateIf(s, r);
    }
  }

  /** What kmalloc gives lies in a page that no page table uses. */
  lemma NewIsUnused(s: Vm, h: HeapState, n: nat, a: nat, r: HeapState)
    requires Separate(s, h) && n > 0 && Mallocs(h, n, Some(a), r) && FramesHeld(s, r.st)
    requires a / PAGE_SIZE < |s.space.role|
    ensures s.space.role[a / PAGE_SIZE] == Unused
  {
    if n > 2048 {
      var k: nat :| Mm.OrderFor(n, k) && k <= Buddy.MAX_ORDER && a % PAGE_SIZE == 0
                    && Buddy.Alloc(h.st, k) == (r.st, Some(a / PAGE_SIZE));
      RunGiven(h.st, h.cache, h.live, k, r.st, a / PAGE_SIZE);
    } else {
      SlotGiven(h, n, a, r);
    }
  }

  lemma FreeStep(s: Vm, h: HeapState, a: nat, r: HeapState)
    requires Separate(s, h) && Heap.Frees(h, a, r)
    ensures Separate(s, r)
  {
    FreeServes(h, a, r);
    HeldIsUnused(s, h, a);
    if a !in h.live {
      Tenants.FreeIsElsewhere(s, h.st, a / PAGE_SIZE);
    }
    forall b | b in r.sizes && b / PAGE_SIZE < |s.space.role|
      ensures s.space.role[b / PAGE_SIZE] == Unused
    {
      HeldIsUnused(s, h, b);
    }
    SeparateIf(s, r);
  }

  // --- how many free frames a step of the others takes

  lemma RunTakes(st: Buddy.State, r: Buddy.State, k: nat, p: nat)
    requires Buddy.Inv(st) && Buddy.Quiet(st) && Buddy.Alloc(st, k) == (r, Some(p))
    ensures FreeFrames(r) == FreeFrames(st) - Blocks.Pow2(k)
  {
    PageSets.AllocMoves(st, r, k, p);
    PageSets.RunSize(p, Blocks.Pow2(k));
  }

  /** A request of at most a page takes at most one frame. */
  lemma MallocTakes(h: HeapState, n: nat, res: Option<nat>, r: HeapState)
    requires Sound(h) && Mallocs(h, n, res, r) && n <= PAGE_SIZE
    ensures FreeFrames(r.st) >= FreeFrames(h.st) - 1
  {
    if n > 2048 {
      var k: nat :| Mm.OrderFor(n, k) && k <= Buddy.MAX_ORDER && Buddy.Alloc(h.st, k).0 == r.st
          && Buddy.Alloc(h.st, k).1.Some?;
      OnePageOrder(n, k);
      RunTakes(h.st, r.st, k, Buddy.Alloc(h.st, k).1.value);
    } else if n > 0 && r.st != h.st {
      var c: nat :| Mm.CacheGrown(h.st, r.st, c);
      var (m, page) := Buddy.Alloc(h.st, 0);
      RunTakes(h.st, m, 0, page.value);
      assert PageSets.PagesOf(r.st, Buddy.Free) == PageSets.PagesOf(m, Buddy.Free);
    }
  }

  lemma OnePageOrder(n: nat, k: nat)
    requires Mm.OrderFor(n, k) && n <= PAGE_SIZE
    ensures k == 0 && Blocks.Pow2(k) == 1
  {
  }

  lemma FreeTakesNothing(h: HeapState, a: nat, r: HeapState)
    requires AllServed(h) && Heap.Frees(h, a, r)
    ensures FreeFrames(r.st) >= FreeFrames(h.st)
  {
    if a !in h.live {
      var f := a / PAGE_SIZE;
      PageSets.FreeMoves(h.st, f, h.st.pages[f].order);
      MoreFrames(PageSets.PagesOf(h.st, Buddy.Free), PageSets.PagesOf(r.st, Buddy.Free));
    }
  }

  lemma MoreFrames(a: set<nat>, b: set<nat>)
    requires a <= b
    ensures |a| <= |b|
  {
    assert |b - a| == |b| - |a|;
  }

  // --- runs

  /** The operations of the processes among all others. */
  function Users(acts: seq<Act>): seq<Eager.Op> {
    if acts == [] then [] else (if acts[0].User? then [acts[0].op] else []) + Users(acts[1..])
  }

  /** What the abstract world looks like afterwards: the others leave it alone. */
  function After(backing: nat -> nat, w: seq<Process>, act: Act): seq<Process>
    requires act.User? ==> Exists(w, act.op)
  {
    if act.User? then Step(backing, w, act.op).0 else w
  }

  predicate ActOk(w: seq<Process>, act: Act) {
    match act
    case User(op) => Admissible(w, op)
    case Kmalloc(n) => n <= PAGE_SIZE
    case AllocPages(k) => k < 0x8000_0000
    case Kfree(_) => true
  }

  predicate ActsOk(backing: nat -> nat, w: seq<Process>, acts: seq<Act>)
    decreases |acts|
  {
    acts == [] || (ActOk(w, acts[0]) && ActsOk(backing, After(backing, w, acts[0]), acts[1..]))
  }

  function ActNeed(w: seq<Process>, act: Act): nat
    requires ActOk(w, act)
  {
    match act
    case User(op) => Need(w, op)
    case Kmalloc(_) => 1
    case AllocPages(k) => if k <= Buddy.MAX_ORDER then Blocks.Pow2(k) else 0
    case Kfree(_) => 0
  }

  function ActsNeed(backing: nat -> nat, w: seq<Process>, acts: seq<Act>): nat
    requires ActsOk(backing, w, acts)
    decreases |acts|
  {
    if acts == [] then 0 else ActNeed(w, acts[0]) + ActsNeed(backing, After(backing, w, acts[0]), acts[1..])
  }

  /** The first of the remaining acts, and the rest. */
  lemma ActsCons(backing: nat -> nat, w: seq<Process>, acts: seq<Act>, i: nat) returns (m: seq<Process>)
    requires i < |acts| && ActsOk(backing, w, acts[i..]) && RunOk(backing, w, Users(acts[i..]))
    ensures ActOk(w, acts[i]) && m == After(backing, w, acts[i])
    ensures ActsOk(backing, m, acts[i + 1..]) && RunOk(backing, m, Users(acts[i + 1..]))
    ensures ActsNeed(backing, w, acts[i..]) == ActNeed(w, acts[i]) + ActsNeed(backing, m, acts[i + 1..])
    ensures Eager.Run(backing, w, Users(acts[i..])).0 == Eager.Run(backing, m, Users(acts[i + 1..])).0
    ensures Eager.Run(backing, w, Users(acts[i..])).1 ==
              Outcomes(backing, w, acts[i]) + Eager.Run(backing, m, Users(acts[i + 1..])).1
  {
    assert acts[i..][1..] == acts[i + 1..];
    m := After(backing, w, acts[i]);
    var users, rest := Users(acts[i..]), Users(acts[i + 1..]);
    if acts[i].User? {
      assert users[0] == acts[i].op && users[1..] == rest;
    } else {
      assert users == rest;
    }
  }

  function Outcomes(backing: nat -> nat, w: seq<Process>, act: Act): seq<Outcome>
    requires act.User? ==> Exists(w, act.op)
  {
    if act.User? then [Step(backing, w, act.op).1] else []
  }

  lemma {:induction false} UsersOk(backing: nat -> nat, w: seq<Process>, acts: seq<Act>)
    requires ActsOk(backing, w, acts)
    ensures RunOk(backing, w, Users(acts))
    decreases |acts|
  {
    if acts != [] {
      UsersOk(backing, After(backing, w, acts[0]), acts[1..]);
      if acts[0].User? {
        assert Users(acts)[1..] == Users(acts[1..]);
      } else {
        assert Users(acts) == Users(acts[1..]);
      }
    }
  }

  // --- the code

  /** held has the addresses of sizes, once each. */
  ghost predicate Listed(held: seq<nat>, sizes: map<nat, nat>) {
    Lists.Distinct(held) && forall a :: a in held <==> a in sizes
  }

  lemma ListedPlus(held: seq<nat>, sizes: map<nat, nat>, a: nat, n: nat)
    requires Listed(held, sizes) && a !in sizes
    ensures Listed(held + [a], sizes[a := n])
  {
  }

  lemma ListedMinus(held: seq<nat>, sizes: map<nat, nat>, i: nat)
    requires i < |held| && Listed(held, sizes)
    ensures Listed(held[..i] + held[i + 1..], sizes - {held[i]})
  {
    var r := held[..i] + held[i + 1..];
    forall a | a in sizes - {held[i]}
      ensures a in r
    {
      var j :| 0 <= j < |held| && held[j] == a;
      assert r[if j < i then j else j - 1] == a;
    }
  }

  class System {
    const kernel: Kernel
    var held: seq<nat>
    ghost var sizes: map<nat, nat>

    ghost function Holdings(): HeapState
      reads this, kernel.mm
    {
      Heap.View(kernel.mm, sizes)
    }

    /** Kernel and other callers are in order and apart, and the kernel knows whose pages are whose. */
    ghost predicate Valid()
      reads this, kernel, kernel.mm, kernel.mm.memMap, kernel.mm.lists
    {
      && kernel.Valid() && Separate(kernel.vm, Holdings())
      && kernel.others.pages == PagesHeld(kernel.mm.st, sizes)
      && Listed(held, sizes)
    }

    constructor (kernel: Kernel)
      requires kernel.Valid() && kernel.others.pages == map[]
      ensures Valid() && this.kernel == kernel && held == [] && sizes == map[]
    {
      this.kernel, held, sizes := kernel, [], map[];
      new;
      SeparateIf(kernel.vm, Holdings());
      assert PagesHeld(kernel.mm.st, sizes) == map[];
    }

    /** An operation of a process, with all its page faults. */
    method ActUser(op: Eager.Op, ghost w: seq<Process>) returns (out: Outcome)
      requires Valid() && Agrees(kernel.backing, kernel.vm, kernel.zombie, w) && Admissible(w, op)
      requires FreeFrames(kernel.mm.st) >= Need(w, op)
      modifies kernel, kernel.mm, kernel.mm.memMap, kernel.mm.lists
      ensures Valid() && Agrees(kernel.backing, kernel.vm, kernel.zombie, Step(kernel.backing, w, op).0)
      ensures out == Step(kernel.backing, w, op).1
      ensures FreeFrames(kernel.mm.st) >= FreeFrames(old(kernel.mm.st)) - Need(w, op)
    {
      ghost var s, h := kernel.vm, Holdings();
      out := kernel.Exec(op, w);
      KernelStep(s, h, kernel.vm, Holdings());
    }

    /** After a step of the others the kernel is told whose pages are whose. */
    ghost method Settle()
      requires kernel.Standing() && Separate(kernel.vm, Holdings())
      requires Listed(held, sizes)
      modifies kernel`others, kernel`slots
      ensures Valid()
    {
      kernel.Admit(PagesHeld(kernel.mm.st, sizes));
    }

    method ActKmalloc(n: nat) returns (res: Option<nat>)
      requires Valid() && n <= PAGE_SIZE && FreeFrames(kernel.mm.st) > 0
      modifies this, kernel`others, kernel`slots, kernel.mm, kernel.mm.memMap, kernel.mm.lists
      ensures Valid() && FreeFrames(kernel.mm.st) >= FreeFrames(old(kernel.mm.st)) - 1
      ensures res.None? <==> n == 0
      ensures res.Some? ==> res.value !in old(sizes)
      ensures held == if res.Some? then old(held) + [res.value] else old(held)
      ensures sizes == if res.Some? then old(sizes)[res.value := n] else old(sizes)
    {
      ghost var h := Holdings();
      PageServes(h.st, n);
      ghost var sizes';
      res, sizes' := CallKmalloc(kernel.mm, n, sizes);
      MallocStep(kernel.vm, h, n, res, Heap.View(kernel.mm, sizes'));
      MallocTakes(h, n, res, Heap.View(kernel.mm, sizes'));
      Keep(res, n, sizes');
    }

    /** The caller keeps what it got. */
    method Keep(res: Option<nat>, ghost n: nat, ghost sizes': map<nat, nat>)
      requires kernel.Standing() && Separate(kernel.vm, Heap.View(kernel.mm, sizes')) && Listed(held, sizes)
      requires if res.Some? then res.value !in sizes && sizes' == sizes[res.value := n] else sizes' == sizes
      modifies this, kernel`others, kernel`slots
      ensures Valid() && sizes == sizes' && held == if res.Some? then old(held) + [res.value] else old(held)
    {
      if res.Some? {
        ListedPlus(held, sizes, res.value, n);
        held := held + [res.value];
      }
      sizes := sizes';
      Settle();
    }

    /** alloc_pages, which may find no run. */
    method ActAllocPages(order: nat) returns (res: Option<nat>)
      requires Valid() && order < 0x8000_0000
      modifies this, kernel`others, kernel`slots, kernel.mm, kernel.mm.memMap, kernel.mm.lists
      ensures Valid()
      ensures res.None? <==> forall h: nat, k: nat :: order <= k ==> !Buddy.FreeHead(old(kernel.mm.st).tags, h, k)
      ensures res.Some? ==> res.value !in old(sizes)
      ensures held == if res.Some? then old(held) + [res.value] else old(held)
      ensures sizes == if res.Some? then old(sizes)[res.value := PAGE_SIZE * Blocks.Pow2(order)] else old(sizes)
      ensures FreeFrames(kernel.mm.st) >=
                FreeFrames(old(kernel.mm.st)) - if order <= Buddy.MAX_ORDER then Blocks.Pow2(order) else 0
    {
      ghost var h := Holdings();
      var page := kernel.mm.AllocPages(order);
      ghost var r := AllocStep(kernel.vm, h, order, page, kernel.mm.st, kernel.mm.cache);
      res := if page.Some? then Some(page.value * PAGE_SIZE) else None;
      Keep(res, PAGE_SIZE * Blocks.Pow2(order), r.sizes);
    }

    /** kfree for the i-th address held. */
    method ActKfree(i: nat)
      requires Valid() && i < |held|
      modifies this, kernel`others, kernel`slots, kernel.mm, kernel.mm.memMap, kernel.mm.lists
      ensures Valid() && held == old(held)[..i] + old(held)[i + 1..] && sizes == old(sizes) - {old(held)[i]}
      ensures FreeFrames(kernel.mm.st) >= FreeFrames(old(kernel.mm.st))
      ensures GivenBack(kernel.mm.st, kernel.mm.live, old(held)[i], old(sizes))
    {
      ghost var h, a := Holdings(), held[i];
      ghost var sizes' := CallKfree(kernel.mm, held[i], sizes);
      FreeStep(kernel.vm, h, a, Heap.View(kernel.mm, sizes'));
      FreeTakesNothing(h, a, Heap.View(kernel.mm, sizes'));
      FreedIsGivenBack(h, a, Heap.View(kernel.mm, sizes'));
      ListedMinus(held, sizes, i);
      sizes, held := sizes', held[..i] + held[i + 1..];
      Settle();
    }

    /** One act.  Each call of others is made, and its answer kept. */
    method Perform(act: Act, ghost w: seq<Process>) returns (outs: seq<Outcome>, answer: Option<nat>)
      requires Valid() && Agrees(kernel.backing, kernel.vm, kernel.zombie, w) && ActOk(w, act)
      requires FreeFrames(kernel.mm.st) >= ActNeed(w, act)
      modifies this, kernel, kernel.mm, kernel.mm.memMap, kernel.mm.lists
      ensures Valid() && Agrees(kernel.backing, kernel.vm, kernel.zombie, After(kernel.backing, w, act))
      ensures outs == if act.User? then [Step(kernel.backing, w, act.op).1] else []
      ensures act.User? || act.Kfree? ==> answer.None?
      ensures act.Kmalloc? ==> (answer.None? <==> act.size == 0)
      ensures act.AllocPages? ==>
                (answer.None? <==>
                 forall h: nat, k: nat :: act.order <= k ==> !Buddy.FreeHead(old(kernel.mm.st).tags, h, k))
      ensures act.User? ==> held == old(held) && sizes == old(sizes)
      ensures answer.Some? ==> answer.value !in old(sizes) && held == old(held) + [answer.value]
      ensures answer.Some? ==>
                sizes == old(sizes)[answer.value := if act.Kmalloc? then act.size
                    else PAGE_SIZE * Blocks.Pow2(act.order)]
      ensures answer.None? && !(act.Kfree? && act.i < |old(held)|) ==> held == old(held) && sizes == old(sizes)
      ensures act.Kfree? && act.i < |old(held)| ==>
                && held == old(held)[..act.i] + old(held)[act.i + 1..] && sizes == old(sizes) - {old(held)[act.i]}
                && GivenBack(kernel.mm.st, kernel.mm.live, old(held)[act.i], old(sizes))
      ensures FreeFrames(kernel.mm.st) >= FreeFrames(old(kernel.mm.st)) - ActNeed(w, act)
    {
      outs, answer := [], None;
      match act
      case User(op) =>
        var out := ActUser(op, w);
        outs := [out];
      case Kmalloc(size) =>
        answer := ActKmalloc(size);
      case AllocPages(order) =>
        answer := ActAllocPages(order);
      case Kfree(i) =>
        if i < |held| {
          ActKfree(i);
        }
    }

    /** Processes on copy-on-write memory, between any calls of kmalloc, alloc_pages and kfree by other
        parts of the kernel, have the outcomes they have alone on private byte maps; and the others hold
        what they were given and have not freed. */
    method RunActs(acts: seq<Act>, ghost w: seq<Process>) returns (outs: seq<Outcome>, answers: seq<Option<nat>>)
      requires Valid() && Agrees(kernel.backing, kernel.vm, kernel.zombie, w)
      requires ActsOk(kernel.backing, w, acts) && FreeFrames(kernel.mm.st) >= ActsNeed(kernel.backing, w, acts)
      modifies this, kernel, kernel.mm, kernel.mm.memMap, kernel.mm.lists
      ensures Valid() && RunOk(kernel.backing, w, Users(acts)) && kernel.KernelMapped()
      ensures Agrees(kernel.backing, kernel.vm, kernel.zombie, Eager.Run(kernel.backing, w, Users(acts)).0)
      ensures outs == Eager.Run(kernel.backing, w, Users(acts)).1 && History.Coherent(Users(acts), outs)
      ensures |answers| == |acts| && (held, sizes) == Kept(old(held), old(sizes), acts, answers)
      ensures forall k :: 0 <= k < |acts| && acts[k].Kmalloc? ==> (answers[k].None? <==> acts[k].size == 0)
      ensures forall k :: 0 <= k < |acts| && (acts[k].User? || acts[k].Kfree?) ==> answers[k].None?
    {
      UsersOk(kernel.backing, w, acts);
      assert acts[0..] == acts;
      outs, answers := RunLoop(acts, w, Eager.Run(kernel.backing, w, Users(acts)));
      History.RunCoherent(kernel.backing, w, Users(acts));
      kernel.CoreMapsKernel();
    }

    method RunLoop(acts: seq<Act>, ghost w: seq<Process>, ghost goal: (seq<Process>, seq<Outcome>))
        returns (outs: seq<Outcome>, answers: seq<Option<nat>>)
      requires Valid() && Agrees(kernel.backing, kernel.vm, kernel.zombie, w)
      requires Ahead(kernel.backing, w, acts, 0, [], FreeFrames(kernel.mm.st), goal)
      modifies this, kernel, kernel.mm, kernel.mm.memMap, kernel.mm.lists
      ensures Valid() && Agrees(kernel.backing, kernel.vm, kernel.zombie, goal.0) && outs == goal.1
      ensures Answered(old(held), old(sizes), acts, answers, held, sizes) && |answers| == |acts|
    {
      outs, answers := [], [];
      ghost var now := w;
      while |answers| < |acts|
        invariant |answers| <= |acts| && Valid() && Agrees(kernel.backing, kernel.vm, kernel.zombie, now)
        invariant Ahead(kernel.backing, now, acts, |answers|, outs, FreeFrames(kernel.mm.st), goal)
        invariant Answered(old(held), old(sizes), acts, answers, held, sizes)
      {
        outs, answers, now := RunOne(acts, outs, answers, now, goal, old(held), old(sizes));
      }
      AllDone(kernel.backing, now, acts, |answers|, outs, FreeFrames(kernel.mm.st), goal);
    }

    /** The body of that loop. */
    method RunOne(acts: seq<Act>, outs: seq<Outcome>, answers: seq<Option<nat>>, ghost now: seq<Process>,
                  ghost goal: (seq<Process>, seq<Outcome>), ghost held0: seq<nat>, ghost sizes0: map<nat, nat>)
      returns (outs': seq<Outcome>, answers': seq<Option<nat>>, ghost m: seq<Process>)
      requires |answers| < |acts| && Valid() && Agrees(kernel.backing, kernel.vm, kernel.zombie, now)
      requires Ahead(kernel.backing, now, acts, |answers|, outs, FreeFrames(kernel.mm.st), goal)
      requires Answered(held0, sizes0, acts, answers, held, sizes)
      modifies this, kernel, kernel.mm, kernel.mm.memMap, kernel.mm.lists
      ensures Valid() && Agrees(kernel.backing, kernel.vm, kernel.zombie, m) && |answers'| == |answers| + 1
      ensures Ahead(kernel.backing, m, acts, |answers'|, outs', FreeFrames(kernel.mm.st), goal)
      ensures Answered(held0, sizes0, acts, answers', held, sizes)
    {
      ghost var i := |answers|;
      AheadAct(kernel.backing, now, acts, i, outs, FreeFrames(kernel.mm.st), goal);
      var out, answer := Perform(acts[|answers|], now);
      m := AheadStep(kernel.backing, now, acts, i, outs, old(FreeFrames(kernel.mm.st)), FreeFrames(kernel.mm.st), goal);
      AnsweredStep(held0, sizes0, acts, answers, answer, old(held), old(sizes), held, sizes);
      outs', answers' := outs + out, answers + [answer];
    }
  }

  /** What is held after as many acts as there are answers: what was given and not freed since. */
  ghost function Kept(held: seq<nat>, sizes: map<nat, nat>, acts: seq<Act>, answers: seq<Option<nat>>)
    : (seq<nat>, map<nat, nat>)
    requires |answers| <= |acts|
    decreases |answers|
  {
    if answers == [] then (held, sizes)
    else
      var i := |answers| - 1;
      var (h, z) := Kept(held, sizes, acts, answers[..i]);
      match acts[i]
      case User(_) => (h, z)
      case Kmalloc(n) => if answers[i].Some? then (h + [answers[i].value], z[answers[i].value := n]) else (h, z)
      case AllocPages(k) =>
        if answers[i].Some? then (h + [answers[i].value], z[answers[i].value := PAGE_SIZE * Blocks.Pow2(k)]) else (h, z)
      case Kfree(j) => if j < |h| then (h[..j] + h[j + 1..], z - {h[j]}) else (h, z)
  }

  ghost predicate Answered(held0: seq<nat>, sizes0: map<nat, nat>, acts: seq<Act>, answers: seq<Option<nat>>,
                           held: seq<nat>, sizes: map<nat, nat>) {
    && |answers| <= |acts| && (held, sizes) == Kept(held0, sizes0, acts, answers)
    && (forall k :: 0 <= k < |answers| && acts[k].Kmalloc? ==> (answers[k].None? <==> acts[k].size == 0))
    && forall k :: 0 <= k < |answers| && (acts[k].User? || acts[k].Kfree?) ==> answers[k].None?
  }

  lemma AnsweredStep(held0: seq<nat>, sizes0: map<nat, nat>, acts: seq<Act>, answers: seq<Option<nat>>,
      answer: Option<nat>,
                     h: seq<nat>, z: map<nat, nat>, h': seq<nat>, z': map<nat, nat>)
    requires Answered(held0, sizes0, acts, answers, h, z) && |answers| < |acts|
    requires var act := acts[|answers|];
             && (act.User? || act.Kfree? ==> answer.None?) && (act.Kmalloc? ==> (answer.None? <==> act.size == 0))
             && (answer.Some? ==>
                   && h' == h + [answer.value]
                   && z' == z[answer.value := if act.Kmalloc? then act.size else PAGE_SIZE * Blocks.Pow2(act.order)])
             && (answer.None? && !(act.Kfree? && act.i < |h|) ==> h' == h && z' == z)
             && (act.Kfree? && act.i < |h| ==> h' == h[..act.i] + h[act.i + 1..] && z' == z - {h[act.i]})
    ensures Answered(held0, sizes0, acts, answers + [answer], h', z')
  {
    assert (answers + [answer])[..|answers|] == answers;
  }

  /** A freed slot is live no more, and a freed run is free again. */
  ghost predicate GivenBack(st: Buddy.State, live: set<nat>, a: nat, sizes: map<nat, nat>) {
    && a in sizes && a !in live
    && (sizes[a] > 2048 ==> a / PAGE_SIZE < |st.tags| && st.tags[a / PAGE_SIZE].kind == Buddy.Free)
  }

  lemma FreedIsGivenBack(h: HeapState, a: nat, r: HeapState)
    requires AllServed(h) && Heap.Frees(h, a, r)
    ensures GivenBack(r.st, r.live, a, h.sizes)
  {
    HeldIsFreeable(h, a);
    if a !in h.live {
      Buddy.FreeEffect(h.st, a / PAGE_SIZE, h.st.pages[a / PAGE_SIZE].order);
    }
  }

  /** With acts[i..] to come, the run will have come to `goal`, and `free` frames are enough for it. */
  ghost predicate Ahead(backing: nat -> nat, now: seq<Process>, acts: seq<Act>, i: nat, outs: seq<Outcome>, free: nat,
                        goal: (seq<Process>, seq<Outcome>)) {
    && i <= |acts| && ActsOk(backing, now, acts[i..]) && RunOk(backing, now, Users(acts[i..]))
    && Eager.Run(backing, now, Users(acts[i..])).0 == goal.0
    && outs + Eager.Run(backing, now, Users(acts[i..])).1 == goal.1
    && free >= ActsNeed(backing, now, acts[i..])
  }

  lemma AheadAct(backing: nat -> nat, now: seq<Process>, acts: seq<Act>, i: nat, outs: seq<Outcome>, free: nat,
                 goal: (seq<Process>, seq<Outcome>))
    requires Ahead(backing, now, acts, i, outs, free, goal) && i < |acts|
    ensures ActOk(now, acts[i]) && free >= ActNeed(now, acts[i])
  {
    var m := ActsCons(backing, now, acts, i);
  }

  lemma AheadStep(backing: nat -> nat, now: seq<Process>, acts: seq<Act>, i: nat, outs: seq<Outcome>, free: nat,
      left: nat,
                  goal: (seq<Process>, seq<Outcome>)) returns (m: seq<Process>)
    requires Ahead(backing, now, acts, i, outs, free, goal) && i < |acts|
    requires ActOk(now, acts[i]) && left >= free - ActNeed(now, acts[i])
    ensures m == After(backing, now, acts[i])
    ensures Ahead(backing, m, acts, i + 1, outs + Outcomes(backing, now, acts[i]), left, goal)
  {
    m := ActsCons(backing, now, acts, i);
    var out, rest := Outcomes(backing, now, acts[i]), Eager.Run(backing, m, Users(acts[i + 1..])).1;
    assert outs + (out + rest) == (outs + out) + rest;
  }

  lemma AllDone(backing: nat -> nat, now: seq<Process>, acts: seq<Act>, i: nat, outs: seq<Outcome>, free: nat,
                goal: (seq<Process>, seq<Outcome>))
    requires Ahead(backing, now, acts, i, outs, free, goal) && i == |acts|
    ensures now == goal.0 && outs == goal.1
  {
    assert acts[i..] == [];
    RunEnd(backing, now);
  }

  /** What others hold overlaps no frame that page tables lead to. */
  lemma HeldApartFromTables(s: Vm, h: HeapState, a: nat, f: nat)
    requires VmInv(s) && Separate(s, h) && a in h.sizes && Reachable(s, f)
    ensures a + h.sizes[a] <= f * PAGE_SIZE || (f + 1) * PAGE_SIZE <= a
  {
    ReachableIsUsed(s, f);
    HeldIsUnused(s, h, a);
    PageApart(h, a, f);
  }

  lemma PageApart(h: HeapState, a: nat, f: nat)
    requires AllServed(h) && a in h.sizes && f < |h.st.tags| && h.st.tags[f] == Buddy.Tag(0, Buddy.Allocated)
    requires f != a / PAGE_SIZE
    ensures a + h.sizes[a] <= f * PAGE_SIZE || (f + 1) * PAGE_SIZE <= a
  {
    OwnedRegion(h, a);
    assert Serves(h.st, h.live, a, h.sizes[a]);
    if h.sizes[a] > 2048 {
      Slab.RunsApart(h.st, a / PAGE_SIZE, f);
      assert Blocks.Pow2(0) == 1;
    } else {
      Slab.SlotInPage(a, Slab.CacheOf(h.st, a));
    }
  }

  /** From boot on, on any allocator and any memory. */
  method RunFromBoot(mm: Mm.Allocator, pgDir: Frame, backing: nat -> nat, device: (nat, nat) -> nat,
                     memory: seq<Frame>, acts: seq<Act>)
    returns (outs: seq<Outcome>, answers: seq<Option<nat>>, system: System)
    requires mm.Valid() && |memory| == |mm.st.pages| && |memory| * WORDS + 1 < Mm.WORD32
    requires forall i :: 0 <= i < 256 ==> pgDir[i] == 0
    requires ActsOk(backing, [], acts) && FreeFrames(mm.st) >= ActsNeed(backing, [], acts)
    modifies mm, mm.memMap, mm.lists
    ensures RunOk(backing, [], Users(acts)) && outs == Eager.Run(backing, [], Users(acts)).1
    ensures History.Coherent(Users(acts), outs) && History.AsExpected(backing, Users(acts), outs)
    ensures system.Valid() && |answers| == |acts| && (system.held, system.sizes) == Kept([], map[], acts, answers)
    ensures forall k :: 0 <= k < |acts| && acts[k].Kmalloc? ==> (answers[k].None? <==> acts[k].size == 0)
  {
    var kernel := new Kernel(mm, pgDir, backing, device, memory);
    system := new System(kernel);
    outs, answers := system.RunActs(acts, []);
    History.RunAsExpected(backing, Users(acts));
  }

  /** A run from alloc_pages serves a request of its whole size. */
  lemma RunIsRequest(h: HeapState, k: nat, p: nat, st: Buddy.State, cache: seq<seq<nat>>)
    requires Sound(h) && k <= Buddy.MAX_ORDER && Buddy.Alloc(h.st, k) == (st, Some(p))
    requires Buddy.Inv(st) && Buddy.Quiet(st) && Slab.SlabInv(st, cache, h.live)
    ensures var n := PAGE_SIZE * Blocks.Pow2(k);
            n > 2048 && Mallocs(h, n, Some(p * PAGE_SIZE), HeapState(st, cache, h.live, h.sizes[p * PAGE_SIZE := n]))
  {
    Mm.RunIsServed(h.st, st, PAGE_SIZE * Blocks.Pow2(k), k, p);
  }

  lemma AllocStep(s: Vm, h: HeapState, k: nat, page: Option<nat>, st: Buddy.State, cache: seq<seq<nat>>)
    returns (r: HeapState)
    requires Separate(s, h) && Buddy.Alloc(h.st, k) == (st, page)
    requires Buddy.Inv(st) && Buddy.Quiet(st) && Slab.SlabInv(st, cache, h.live)
    requires page.None? ==> cache == h.cache
    ensures page.None? <==> forall i: nat, j: nat :: k <= j ==> !Buddy.FreeHead(h.st.tags, i, j)
    ensures Separate(s, r) && r.st == st && r.cache == cache && r.live == h.live
    ensures if page.Some? then page.value * PAGE_SIZE !in h.sizes
                && r.sizes == h.sizes[page.value * PAGE_SIZE := PAGE_SIZE * Blocks.Pow2(k)]
            else r.sizes == h.sizes
    ensures FreeFrames(st) >= FreeFrames(h.st) - if k <= Buddy.MAX_ORDER then Blocks.Pow2(k) else 0
  {
    Buddy.AllocEffect(h.st, k);
    r := h;
    if page.Some? {
      var n := PAGE_SIZE * Blocks.Pow2(k);
      RunIsRequest(h, k, page.value, st, cache);
      r := HeapState(st, cache, h.live, h.sizes[page.value * PAGE_SIZE := n]);
      MallocServes(h, n, Some(page.value * PAGE_SIZE), r);
      MallocStep(s, h, n, Some(page.value * PAGE_SIZE), r);
      RunTakes(h.st, st, k, page.value);
    }
  }

  /** While a page is free, a request of at most a page can be served. */
  lemma PageServes(st: Buddy.State, n: nat)
    requires Buddy.Inv(st) && Buddy.Quiet(st) && FreeFrames(st) > 0 && n <= PAGE_SIZE
    ensures Buddy.FirstOrder(st.area, 0) <= Buddy.MAX_ORDER
    ensures forall k: nat :: Mm.OrderFor(n, k) ==> k == 0
  {
    PageSets.FreePageServes(st);
    forall k: nat | Mm.OrderFor(n, k)
      ensures k == 0
    {
      OnePageOrder(n, k);
    }
  }
}
