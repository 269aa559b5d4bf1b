/** Whole runs of a pool: what its users hold never overlaps. */
module PoolRuns {
  import opened Pool

  /** What a user asks for, with the addresses that the system would hand out meanwhile. */
  datatype Command =
    | Get(nbytes: nat, align: bool, mem: nat, chunk: nat)             // mpool_alloc or mpool_nalloc
    | Release(p: nat)                                                 // mpool_pfree
    | Register(size: nat, func: nat, mem: nat, mem2: nat)             // mpool_cleanup_add
    | CleanUp
    | Clear                                                           // mpool_reset

  /** A function and the data that it is registered for. */
  datatype Note = Note(func: nat, data: nat)

  datatype Answer = Served(r: Region) | Freed(ok: bool) | Ran(calls: seq<Note>) | Done

  /** What the users hold: what they were given and neither gave back nor lost in a reset. */
  function Keep(kept: seq<Region>, c: Command, a: Answer): seq<Region> {
    if a.Served? then kept + [a.r]
    else if c.Release? && a == Freed(true) then Without(kept, c.p)
    else if c.Clear? then []
    else kept
  }

  function Without(kept: seq<Region>, p: nat): seq<Region> {
    if kept == [] then []
    else (if kept[0].lo == p then [] else [kept[0]]) + Without(kept[1..], p)
  }

  function KeepAll(kept: seq<Region>, cs: seq<Command>, answers: seq<Answer>): seq<Region>
    requires |cs| == |answers|
    decreases |cs|
  {
    if cs == [] then kept else KeepAll(Keep(kept, cs[0], answers[0]), cs[1..], answers[1..])
  }

  ghost predicate Apart(rs: seq<Region>) {
    forall i, j :: 0 <= i < j < |rs| ==> Disjoint(rs[i].lo, rs[i].hi, rs[j].lo, rs[j].hi)
  }

  /** What is held is in use, and does not overlap. */
  ghost predicate Held(kept: seq<Region>, pieces: seq<Piece>, large: seq<LargeNode>) {
    Apart(kept) && forall r :: r in kept ==> r in Regions(pieces, large)
  }

  /** The chunks are new, and data for a cleanup, whose size nobody checks, fits a block. */
  predicate Possible(c: Command, blocks: seq<Block>, large: seq<LargeNode>) {
    match c
    case Get(nbytes, _, mem, chunk) =>
      && FreshChunk(mem, BLOCK_SIZE, blocks, large) && mem % ALIGNMENT == 0
      && (nbytes > MAX_SMALL ==>
            FreshChunk(chunk, nbytes, blocks, large) && Disjoint(chunk, chunk + nbytes, mem, mem + BLOCK_SIZE))
    case Register(size, _, mem, mem2) =>
      && FreshChunk(mem, BLOCK_SIZE, blocks, large) && mem % ALIGNMENT == 0
      && FreshChunk(mem2, BLOCK_SIZE, blocks, large) && mem2 % ALIGNMENT == 0
      && Disjoint(mem, mem + BLOCK_SIZE, mem2, mem2 + BLOCK_SIZE) && size <= Capacity(true)
    case _ => true
  }

  /** The answer suits the question. */
  predicate Suits(c: Command, a: Answer) {
    match c
    case Get(nbytes, align, _, _) =>
      && a.Served? && a.r.hi == a.r.lo + (if nbytes == 0 then 1 else nbytes)
      && (align && nbytes <= MAX_SMALL ==> a.r.lo % ALIGNMENT == 0)
    case Release(_) => a.Freed?
    case Register(size, _, _, _) =>
      if size == 0 then a.Done? else a.Served? && a.r.hi == a.r.lo + size && a.r.lo % ALIGNMENT == 0
    case CleanUp => a.Ran?
    case Clear => a.Ran?
  }

  /** The registrations that wait for the next cleanup, in the order in which they were made. */
  function NotesAfter(notes: seq<Note>, c: Command, a: Answer): seq<Note> {
    if c.Register? then notes + [Note(c.func, if a.Served? then a.r.lo else 0)]
    else if c.CleanUp? || c.Clear? then []
    else notes
  }

  function Notes(had: seq<Note>, cs: seq<Command>, answers: seq<Answer>): seq<Note>
    requires |cs| == |answers|
    decreases |cs|
  {
    var n := |cs|;
    if n == 0 then had else NotesAfter(Notes(had, cs[..n - 1], answers[..n - 1]), cs[n - 1], answers[n - 1])
  }

  /** The calls are those of the registrations with a function, each once, and of any two the one that
      was made later is called earlier: f tells which registration each call is of. */
  ghost predicate LatestFirst(calls: seq<Note>, notes: seq<Note>, f: seq<nat>) {
    && |f| == |calls|
    && (forall k :: 0 <= k < |f| ==> f[k] < |notes| && calls[k] == notes[f[k]])
    && (forall j, k :: 0 <= j < k < |f| ==> f[j] > f[k])
    && (forall i: nat :: i in f <==> i < |notes| && notes[i].func != 0)
  }

  /** A cleanup or a reset answers with the calls it has made. */
  ghost predicate RunsNotes(c: Command, a: Answer, notes: seq<Note>) {
    (c.CleanUp? || c.Clear?) && a.Ran? ==> exists f :: LatestFirst(a.calls, notes, f)
  }

  function NoteOf(c: Cleanup): Note {
    Note(c.func, c.data)
  }

  function NotesOf(cs: seq<Cleanup>): (ns: seq<Note>)
    ensures |ns| == |cs|
  {
    seq(|cs|, i requires 0 <= i < |cs| => NoteOf(cs[i]))
  }

  /** The list of the pool has the registrations, the newest in front. */
  ghost predicate Noted(cleanups: seq<Cleanup>, notes: seq<Note>) {
    |cleanups| == |notes| && forall i :: 0 <= i < |notes| ==> NoteOf(cleanups[|notes| - 1 - i]) == notes[i]
  }

  /** The same positions, counted from the other end. */
  function Mirror(f: seq<nat>, n: nat): (g: seq<nat>)
    requires forall k :: 0 <= k < |f| ==> f[k] < n
    ensures |g| == |f| && forall k :: 0 <= k < |f| ==> g[k] == n - 1 - f[k]
  {
    seq(|f|, k requires 0 <= k < |f| => n - 1 - f[k])
  }

  lemma MirrorHas(f: seq<nat>, n: nat, i: nat)
    requires forall k :: 0 <= k < |f| ==> f[k] < n
    ensures i in Mirror(f, n) <==> i < n && n - 1 - i in f
  {
    var g := Mirror(f, n);
    if i in g {
      var k :| 0 <= k < |g| && g[k] == i;
      assert f[k] == n - 1 - i;
    }
    if i < n && n - 1 - i in f {
      var k :| 0 <= k < |f| && f[k] == n - 1 - i;
      assert g[k] == i;
    }
  }

  /** Calls in the order of the list are calls of the registrations, latest first. */
  lemma CalledLatestFirst(calls: seq<Cleanup>, cleanups: seq<Cleanup>, f: seq<nat>, notes: seq<Note>)
    requires CalledInOrder(calls, cleanups, f) && Noted(cleanups, notes)
    ensures exists g :: LatestFirst(NotesOf(calls), notes, g)
  {
    var n := |notes|;
    var g := Mirror(f, n);
    forall i: nat
      ensures i in g <==> i < n && notes[i].func != 0
    {
      MirrorHas(f, n, i);
      if i < n { NoteAt(cleanups, notes, i); }
    }
    forall k | 0 <= k < |g|
      ensures g[k] < n && NotesOf(calls)[k] == notes[g[k]]
    {
      NoteAt(cleanups, notes, g[k]);
    }
    assert LatestFirst(NotesOf(calls), notes, g);
  }

  lemma NoteAt(cleanups: seq<Cleanup>, notes: seq<Note>, i: nat)
    requires Noted(cleanups, notes) && i < |notes|
    ensures |cleanups| == |notes| && NoteOf(cleanups[|notes| - 1 - i]) == notes[i]
  {
  }

  // ----- what each change does to what is held

  lemma AllApart(blocks: seq<Block>, current: nat, pieces: seq<Piece>, large: seq<LargeNode>, cleanups: seq<Cleanup>)
    requires PoolOk(blocks, current, pieces, large, cleanups)
    ensures Apart(Regions(pieces, large))
  {
    var rs := Regions(pieces, large);
    forall i, j | 0 <= i < j < |rs|
      ensures Disjoint(rs[i].lo, rs[i].hi, rs[j].lo, rs[j].hi)
    {
      RegionsDisjoint(blocks, current, pieces, large, cleanups, i, j);
    }
  }

  /** Region k of those in use is new. */
  lemma OneMore(kept: seq<Region>, rs: seq<Region>, k: nat)
    requires Apart(rs) && k < |rs| && Apart(kept)
    requires forall r :: r in kept ==> r in rs[..k] || r in rs[k + 1..]
    ensures Apart(kept + [rs[k]])
  {
    forall i | 0 <= i < |kept|
      ensures Disjoint(kept[i].lo, kept[i].hi, rs[k].lo, rs[k].hi)
    {
      assert kept[i] in kept;
      Other(kept[i], rs, k);
    }
  }

  lemma Other(r: Region, rs: seq<Region>, k: nat)
    requires Apart(rs) && k < |rs| && (r in rs[..k] || r in rs[k + 1..])
    ensures Disjoint(r.lo, r.hi, rs[k].lo, rs[k].hi)
  {
    if r in rs[..k] {
      var j :| 0 <= j < k && rs[..k][j] == r;
      assert rs[j] == r;
    } else {
      var j :| 0 <= j < |rs[k + 1..]| && rs[k + 1..][j] == r;
      assert rs[k + 1 + j] == r;
    }
  }

  lemma RegionsAre(pieces: seq<Piece>, large: seq<LargeNode>, r: Region)
    ensures r in Regions(pieces, large) <==>
      || (exists i :: 0 <= i < |pieces| && r == Region(pieces[i].lo, pieces[i].hi))
      || (exists i :: 0 <= i < |large| && r == Region(large[i].alloc, large[i].alloc + large[i].size))
  {
    var rs := Regions(pieces, large);
    if r in rs {
      var k :| 0 <= k < |rs| && rs[k] == r;
      if k >= |pieces| { assert large[k - |pieces|] == large[k - |pieces|]; }
    }
    forall i | 0 <= i < |pieces| && r == Region(pieces[i].lo, pieces[i].hi)
      ensures r in rs
    {
      assert rs[i] == r;
    }
    forall i | 0 <= i < |large| && r == Region(large[i].alloc, large[i].alloc + large[i].size)
      ensures r in rs
    {
      assert rs[|pieces| + i] == r;
    }
  }

  /** A piece is handed out. */
  lemma PieceHeld(kept: seq<Region>, pieces: seq<Piece>, large: seq<LargeNode>, p: Piece)
    requires Held(kept, pieces, large) && Apart(Regions(pieces + [p], large))
    ensures Held(kept, pieces + [p], large) && Held(kept + [Region(p.lo, p.hi)], pieces + [p], large)
  {
    var rs, rs', k := Regions(pieces, large), Regions(pieces + [p], large), |pieces|;
    assert rs'[k] == Region(p.lo, p.hi);
    assert rs'[..k] == rs[..k] && rs'[k + 1..] == rs[k..] && rs == rs[..k] + rs[k..];
    OneMore(kept, rs', k);
  }

  /** A large chunk is handed out. */
  lemma ChunkHeld(kept: seq<Region>, pieces: seq<Piece>, large: seq<LargeNode>, n: LargeNode)
    requires Held(kept, pieces, large) && Apart(Regions(pieces, [n] + large))
    ensures Held(kept + [Region(n.alloc, n.alloc + n.size)], pieces, [n] + large)
  {
    var rs, rs', k := Regions(pieces, large), Regions(pieces, [n] + large), |pieces|;
    assert rs'[k] == Region(n.alloc, n.alloc + n.size);
    assert rs'[..k] == rs[..k] && rs'[k + 1..] == rs[k..] && rs == rs[..k] + rs[k..];
    OneMore(kept, rs', k);
  }

  /** A piece of the pool's own does not disturb anyone. */
  lemma PieceAdded(kept: seq<Region>, pieces: seq<Piece>, large: seq<LargeNode>, p: Piece)
    requires Held(kept, pieces, large)
    ensures Held(kept, pieces + [p], large)
  {
    var rs, rs', k := Regions(pieces, large), Regions(pieces + [p], large), |pieces|;
    assert rs'[..k] == rs[..k] && rs'[k + 1..] == rs[k..] && rs == rs[..k] + rs[k..];
  }

  lemma {:induction false} WithoutIn(kept: seq<Region>, p: nat)
    requires Apart(kept)
    ensures forall r :: r in Without(kept, p) <==> r in kept && r.lo != p
    ensures Apart(Without(kept, p))
  {
    if kept != [] {
      WithoutIn(kept[1..], p);
      var w := Without(kept[1..], p);
      forall i | 0 <= i < |w|
        ensures Disjoint(kept[0].lo, kept[0].hi, w[i].lo, w[i].hi)
      {
        assert w[i] in kept[1..];
      }
    }
  }

  /** The chunk of node k is given back. */
  lemma ChunkFreed(kept: seq<Region>, pieces: seq<Piece>, large: seq<LargeNode>, k: nat)
    requires Held(kept, pieces, large) && k < |large|
    ensures Held(Without(kept, large[k].alloc), pieces, large[..k] + large[k + 1..])
  {
    var kept', large' := Without(kept, large[k].alloc), large[..k] + large[k + 1..];
    WithoutIn(kept, large[k].alloc);
    forall r | r in kept'
      ensures r in Regions(pieces, large')
    {
      RegionsAre(pieces, large, r);
      RegionsAre(pieces, large', r);
      if i :| 0 <= i < |large| && r == Region(large[i].alloc, large[i].alloc + large[i].size) {
        assert large'[if i < k then i else i - 1] == large[i];
      }
    }
  }

  /** A request of n bytes has been served at p, from a block or by a chunk. */
  lemma Granted(kept: seq<Region>, pieces: seq<Piece>, large: seq<LargeNode>, p: nat, n: nat,
        pieces': seq<Piece>, large': seq<LargeNode>)
    requires Held(kept, pieces, large) && Apart(Regions(pieces', large'))
    requires if n <= MAX_SMALL then large' == large && pieces' == pieces + [Piece(Client, p, p + n)]
             else
               && |pieces'| == |pieces| + 1 && pieces <= pieces'
               && large' == [LargeNode(pieces'[|pieces|].lo, p, n)] + large
    ensures Held(kept + [Region(p, p + n)], pieces', large')
  {
    if n <= MAX_SMALL {
      PieceHeld(kept, pieces, large, Piece(Client, p, p + n));
    } else {
      assert pieces' == pieces + [pieces'[|pieces|]];
      PieceAdded(kept, pieces, large, pieces'[|pieces|]);
      ChunkHeld(kept, pieces', large, large'[0]);
    }
  }

  /** Data, if any, and the node of a cleanup have been placed. */
  lemma Registered(kept: seq<Region>, pieces: seq<Piece>, large: seq<LargeNode>, size: nat, data: nat, node: Piece,
        pieces': seq<Piece>)
    requires Held(kept, pieces, large) && Apart(Regions(pieces', large))
    requires pieces' == pieces + (if size > 0 then [Piece(CleanupData, data, data + size)] else []) + [node]
    ensures Held(if size > 0 then kept + [Region(data, data + size)] else kept, pieces', large)
  {
    if size > 0 {
      DataHeld(kept, pieces, large, Piece(CleanupData, data, data + size), node);
    } else {
      assert pieces + [] == pieces;
      PieceAdded(kept, pieces, large, node);
    }
  }

  lemma DataHeld(kept: seq<Region>, pieces: seq<Piece>, large: seq<LargeNode>, p: Piece, node: Piece)
    requires Held(kept, pieces, large) && Apart(Regions(pieces + [p] + [node], large))
    ensures Held(kept + [Region(p.lo, p.hi)], pieces + [p] + [node], large)
  {
    var rs, rs', k := Regions(pieces + [p], large), Regions(pieces + [p] + [node], large), |pieces| + 1;
    assert rs == rs'[..k] + rs'[k + 1..];
    forall i, j | 0 <= i < j < |rs|
      ensures Disjoint(rs[i].lo, rs[i].hi, rs[j].lo, rs[j].hi)
    {
      assert rs[i] == rs'[if i < k then i else i + 1] && rs[j] == rs'[if j < k then j else j + 1];
    }
    PieceHeld(kept, pieces, large, p);
    PieceAdded(kept + [Region(p.lo, p.hi)], pieces + [p], large, node);
  }

  // ----- the run

  method DoGet(pool: Pool, c: Command, ghost kept: seq<Region>) returns (a: Answer)
    requires pool.Valid() && c.Get? && Possible(c, pool.blocks, pool.large) && Held(kept, pool.pieces, pool.large)
    modifies pool
    ensures pool.Valid() && Suits(c, a) && Held(Keep(kept, c, a), pool.pieces, pool.large)
    ensures pool.cleanups == old(pool.cleanups)
  {
    var p: nat;
    ghost var pieces, large := pool.pieces, pool.large;
    if c.align {
      p := pool.Alloc(c.nbytes, c.mem, c.chunk);
    } else {
      p := pool.Nalloc(c.nbytes, c.mem, c.chunk);
    }
    var n := if c.nbytes == 0 then 1 else c.nbytes;
    AllApart(pool.blocks, pool.current, pool.pieces, pool.large, pool.cleanups);
    Granted(kept, pieces, large, p, n, pool.pieces, pool.large);
    a := Served(Region(p, p + n));
  }

  method DoRelease(pool: Pool, c: Command, ghost kept: seq<Region>) returns (a: Answer)
    requires pool.Valid() && c.Release? && Held(kept, pool.pieces, pool.large)
    modifies pool
    ensures pool.Valid() && Suits(c, a) && Held(Keep(kept, c, a), pool.pieces, pool.large)
    ensures pool.cleanups == old(pool.cleanups)
  {
    ghost var large := pool.large;
    var ret := pool.PFree(c.p);
    if ret == 0 {
      ghost var k: nat :| FirstAt(large, c.p, k) && pool.large == large[..k] + large[k + 1..];
      ChunkFreed(kept, pool.pieces, large, k);
    }
    a := Freed(ret == 0);
  }

  method DoRegister(pool: Pool, c: Command, ghost kept: seq<Region>) returns (a: Answer)
    requires pool.Valid() && c.Register? && Possible(c, pool.blocks, pool.large) && Held(kept, pool.pieces, pool.large)
    modifies pool
    ensures pool.Valid() && Suits(c, a) && Held(Keep(kept, c, a), pool.pieces, pool.large)
    ensures |pool.cleanups| == |old(pool.cleanups)| + 1 && pool.cleanups[1..] == old(pool.cleanups)
    ensures NoteOf(pool.cleanups[0]) == Note(c.func, if a.Served? then a.r.lo else 0)
  {
    var data := AddCleanup(pool, c.size, c.mem, c.mem2, kept);
    pool.SetFunction(c.func);
    a := if c.size == 0 then Done else Served(Region(data, data + c.size));
  }

  method AddCleanup(pool: Pool, size: nat, mem: nat, mem2: nat, ghost kept: seq<Region>) returns (data: nat)
    requires pool.Valid() && Held(kept, pool.pieces, pool.large) && size <= Capacity(true)
    requires FreshChunk(mem, BLOCK_SIZE, pool.blocks, pool.large) && mem % ALIGNMENT == 0
    requires FreshChunk(mem2, BLOCK_SIZE, pool.blocks, pool.large) && mem2 % ALIGNMENT == 0
    requires Disjoint(mem, mem + BLOCK_SIZE, mem2, mem2 + BLOCK_SIZE)
    modifies pool
    ensures pool.Valid() && data % ALIGNMENT == 0 && (size == 0 ==> data == 0)
    ensures Held(if size > 0 then kept + [Region(data, data + size)] else kept, pool.pieces, pool.large)
    ensures |pool.cleanups| == |old(pool.cleanups)| + 1 && pool.cleanups[1..] == old(pool.cleanups)
    ensures pool.cleanups[0].data == data
  {
    ghost var pieces, large := pool.pieces, pool.large;
    var at := pool.CleanupAdd(size, mem, mem2);
    data := pool.cleanups[0].data;
    AllApart(pool.blocks, pool.current, pool.pieces, pool.large, pool.cleanups);
    Registered(kept, pieces, large, size, data, Piece(CleanupList, at, at + CLEANUP_NODE), pool.pieces);
  }

  method Perform(pool: Pool, c: Command, ghost kept: seq<Region>, ghost notes: seq<Note>) returns (a: Answer)
    requires pool.Valid() && Possible(c, pool.blocks, pool.large) && Held(kept, pool.pieces, pool.large)
    requires Noted(pool.cleanups, notes)
    modifies pool
    ensures pool.Valid() && Suits(c, a) && Held(Keep(kept, c, a), pool.pieces, pool.large)
    ensures Noted(pool.cleanups, NotesAfter(notes, c, a)) && RunsNotes(c, a, notes)
  {
    match c {
      case Get(_, _, _, _) => a := DoGet(pool, c, kept);
      case Release(_) => a := DoRelease(pool, c, kept);
      case Register(_, _, _, _) =>
        ghost var before := pool.cleanups;
        a := DoRegister(pool, c, kept);
        NotedFirst(before, pool.cleanups, notes, Note(c.func, if a.Served? then a.r.lo else 0));
      case CleanUp =>
        ghost var before := pool.cleanups;
        var calls, f := pool.RunCleanups();
        CalledLatestFirst(calls, before, f, notes);
        a := Ran(NotesOf(calls));
      case Clear =>
        ghost var before := pool.cleanups;
        var calls, _, f := pool.Reset();
        CalledLatestFirst(calls, before, f, notes);
        a := Ran(NotesOf(calls));
    }
  }

  lemma NotedFirst(before: seq<Cleanup>, after: seq<Cleanup>, notes: seq<Note>, n: Note)
    requires Noted(before, notes) && |after| == |before| + 1 && after[1..] == before && NoteOf(after[0]) == n
    ensures Noted(after, notes + [n])
  {
    assert forall i :: 0 < i < |after| ==> after[i] == before[i - 1];
  }

  /** The answers so far suit the commands, and every cleanup has called what it should. */
  ghost predicate Answered(had: seq<Note>, cs: seq<Command>, answers: seq<Answer>)
    requires |answers| <= |cs|
  {
    forall i :: 0 <= i < |answers| ==> AnswerOk(had, cs, i, answers[..i], answers[i])
  }

  ghost predicate AnswerOk(had: seq<Note>, cs: seq<Command>, i: nat, before: seq<Answer>, a: Answer)
    requires i < |cs| && |before| == i
  {
    Suits(cs[i], a) && RunsNotes(cs[i], a, Notes(had, cs[..i], before))
  }

  lemma AnsweredSnoc(had: seq<Note>, cs: seq<Command>, k: nat, answers: seq<Answer>, a: Answer)
    requires k < |cs| && |answers| == k && Answered(had, cs, answers) && AnswerOk(had, cs, k, answers, a)
    ensures Answered(had, cs, answers + [a])
  {
    var answers' := answers + [a];
    forall i | 0 <= i <= k
      ensures AnswerOk(had, cs, i, answers'[..i], answers'[i])
    {
      assert answers'[..i] == answers[..i];
      if i == k { assert answers[..k] == answers; }
    }
  }

  lemma NotesSnoc(had: seq<Note>, cs: seq<Command>, k: nat, answers: seq<Answer>, a: Answer)
    requires k < |cs| && |answers| == k
    ensures Notes(had, cs[..k + 1], answers + [a]) == NotesAfter(Notes(had, cs[..k], answers), cs[k], a)
  {
    assert cs[..k + 1][..k] == cs[..k] && (answers + [a])[..k] == answers;
  }

  /** After k commands: what is held, and what is registered. */
  ghost predicate Tallied(had: seq<Note>, cs: seq<Command>, k: nat, answers: seq<Answer>, kept: seq<Region>,
                          notes: seq<Note>)
    requires k <= |cs| && |answers| == k
  {
    && kept == KeepAll([], cs[..k], answers) && notes == Notes(had, cs[..k], answers)
    && Answered(had, cs, answers)
  }

  lemma AnswerSnoc(had: seq<Note>, cs: seq<Command>, k: nat, answers: seq<Answer>, a: Answer, kept: seq<Region>,
                   notes: seq<Note>)
    requires k < |cs| && |answers| == k && Tallied(had, cs, k, answers, kept, notes)
    requires Suits(cs[k], a) && RunsNotes(cs[k], a, notes)
    ensures Tallied(had, cs, k + 1, answers + [a], Keep(kept, cs[k], a), NotesAfter(notes, cs[k], a))
  {
    KeepSnoc([], cs[..k], answers, cs[k], a);
    assert cs[..k + 1] == cs[..k] + [cs[k]];
    NotesSnoc(had, cs, k, answers, a);
    AnsweredSnoc(had, cs, k, answers, a);
  }

  /** Any commands, up to one that the system cannot serve or whose data overruns a block: the pool
      stays sound, every request is answered as it should be, no two regions that users hold overlap,
      nor does one of them overlap a node of the pool, and every cleanup and reset calls the functions
      that were registered since the last one, the latest first.  `had` are those registered before. */
  method Execute(pool: Pool, cs: seq<Command>, ghost had: seq<Note>) returns (answers: seq<Answer>)
    requires pool.Valid() && Noted(pool.cleanups, had)
    modifies pool
    ensures pool.Valid() && |answers| <= |cs| && Answered(had, cs, answers)
    ensures |answers| < |cs| ==> !Possible(cs[|answers|], pool.blocks, pool.large)
    ensures Held(KeepAll([], cs[..|answers|], answers), pool.pieces, pool.large)
    ensures Apart(Regions(pool.pieces, pool.large))
  {
    answers := [];
    ghost var kept, notes := [], had;
    for k := 0 to |cs|
      invariant pool.Valid() && |answers| == k && Held(kept, pool.pieces, pool.large)
      invariant Tallied(had, cs, k, answers, kept, notes) && Noted(pool.cleanups, notes)
    {
      if !Possible(cs[k], pool.blocks, pool.large) { break; }
      var a := Perform(pool, cs[k], kept, notes);
      AnswerSnoc(had, cs, k, answers, a, kept, notes);
      kept, notes := Keep(kept, cs[k], a), NotesAfter(notes, cs[k], a);
      answers := answers + [a];
    }
    AllApart(pool.blocks, pool.current, pool.pieces, pool.large, pool.cleanups);
  }

  lemma {:induction false} KeepSnoc(kept: seq<Region>, cs: seq<Command>, answers: seq<Answer>, c: Command, a: Answer)
    requires |cs| == |answers|
    ensures KeepAll(kept, cs + [c], answers + [a]) == Keep(KeepAll(kept, cs, answers), c, a)
    decreases |cs|
  {
    if cs == [] {
      assert cs + [c] == [c] && answers + [a] == [a];
    } else {
      assert (cs + [c])[1..] == cs[1..] + [c] && (answers + [a])[1..] == answers[1..] + [a];
      KeepSnoc(Keep(kept, cs[0], answers[0]), cs[1..], answers[1..], c, a);
    }
  }
}
