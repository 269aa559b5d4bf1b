/** The circular doubly linked list and its in-place bottom-up merge sort. */
module ListSort {
  import opened Sequences
  import opened MergeSort

  class ListHead {
    var next: ListHead
    var prev: ListHead?

    /** INIT_LIST_HEAD */
    constructor ()
      ensures IsList(this, [])
    {
      next, prev := this, this;
    }
  }

  // ----- shapes

  /** The element after position k of a ring. */
  function Succ(s: seq<ListHead>, k: nat): ListHead
    requires k < |s|
  {
    if k + 1 < |s| then s[k + 1] else s[0]
  }

  function Pred(s: seq<ListHead>, k: nat): ListHead
    requires k < |s|
  {
    if k == 0 then s[|s| - 1] else s[k - 1]
  }

  /** From position `from` on, the next pointers of the ring s are still the original ones. */
  ghost predicate Unread(s: seq<ListHead>, from: nat)
    reads s
  {
    forall k {:trigger s[k].next} :: from <= k < |s| ==> s[k].next == Succ(s, k)
  }

  /** A circular doubly linked list through exactly the nodes of s, in order. */
  ghost predicate Ring(s: seq<ListHead>)
    reads s
  {
    && s != [] && NoDup(s) && Unread(s, 0)
    && forall k {:trigger s[k].prev} :: 0 <= k < |s| ==> s[k].prev == Pred(s, k)
  }

  /** The list headed by head holds items. */
  ghost predicate IsList(head: ListHead, items: seq<ListHead>)
    reads head, items
  {
    Ring([head] + items)
  }

  /** An open chain, still being built, from list to tail. */
  ghost predicate Chain(out: seq<ListHead>, list: ListHead?, tail: ListHead?)
    reads out
  {
    if out == [] then list == null && tail == null
    else
      && list == out[0] && tail == out[|out| - 1] && NoDup(out)
      && (forall k {:trigger out[k].next} :: 0 <= k < |out| - 1 ==> out[k].next == out[k + 1])
      && (forall k {:trigger out[k].prev} :: 1 <= k < |out| ==> out[k].prev == out[k - 1])
  }

  /** The node at position k, or NULL past the end. */
  function At(s: seq<ListHead>, k: nat): ListHead? {
    if k < |s| then s[k] else null
  }

  // ----- insertion and removal

  /** __list_add: put node between two neighbours. */
  method Link(ghost ring: seq<ListHead>, ghost k: nat, node: ListHead, prev: ListHead, next: ListHead)
    requires Ring(ring) && k < |ring| && node !in ring && prev == ring[k] && next == Succ(ring, k)
    modifies node, prev`next, next`prev
    ensures Ring(ring[..k + 1] + [node] + ring[k + 1..])
  {
    next.prev := node;
    node.next := next;
    node.prev := prev;
    prev.next := node;
    ghost var r := ring[..k + 1] + [node] + ring[k + 1..];
    forall i | 0 <= i < |r|
      ensures r[i].next == Succ(r, i) && r[i].prev == Pred(r, i)
    {
      LinkAt(ring, k, node, r, i);
    }
    LinkedApart(ring, k, node, r);
  }

  /** Position i of the ring r that has the node behind position k. */
  lemma LinkAt(ring: seq<ListHead>, k: nat, node: ListHead, r: seq<ListHead>, i: nat)
    requires k < |ring| && r == ring[..k + 1] + [node] + ring[k + 1..] && i < |r|
    ensures |r| == |ring| + 1 && r[i] == if i <= k then ring[i] else if i == k + 1 then node else ring[i - 1]
    ensures Succ(r, i) == if i < k then ring[i + 1] else if i == k then node else Succ(ring, i - 1)
    ensures Pred(r, i) ==
      if i == (if k + 1 < |ring| then k + 2 else 0) then node
      else if i <= k then Pred(ring, i) else if i == k + 1 then ring[k] else Pred(ring, i - 1)
  {
  }

  lemma LinkedApart(ring: seq<ListHead>, k: nat, node: ListHead, r: seq<ListHead>)
    requires k < |ring| && NoDup(ring) && node !in ring && r == ring[..k + 1] + [node] + ring[k + 1..]
    ensures NoDup(r)
  {
    assert forall i :: 0 <= i < |r| ==> r[i] == if i <= k then ring[i] else if i == k + 1 then node else ring[i - 1];
    assert forall i :: 0 <= i < |ring| ==> ring[i] in ring;
  }

  /** list_head_del: the rest stays a ring, and the node becomes a ring of its own. */
  method Unlink(ghost ring: seq<ListHead>, ghost k: nat, entry: ListHead)
    requires Ring(ring) && k < |ring| && entry == ring[k]
    modifies ring
    ensures Ring([entry])
    ensures |ring| > 1 ==> Ring(ring[..k] + ring[k + 1..])
  {
    var prev, next := entry.prev, entry.next;
    next.prev := prev;
    prev.next := next;
    entry.next, entry.prev := entry, entry;
    ghost var r := ring[..k] + ring[k + 1..];
    assert forall i :: 0 <= i < |r| ==> r[i] == ring[if i < k then i else i + 1];
    assert forall i {:trigger r[i].next} :: 0 <= i < |r| ==> r[i].next == Succ(r, i);
    assert forall i {:trigger r[i].prev} :: 0 <= i < |r| ==> r[i].prev == Pred(r, i);
  }

  // ----- the sort

  /** The middle of the merge loop: hang e behind tail. */
  method Emit(list: ListHead?, tail: ListHead?, e: ListHead, ghost out: seq<ListHead>)
    returns (list': ListHead, tail': ListHead)
    requires Chain(out, list, tail) && e !in out
    modifies (if tail == null then {} else {tail})`next, e`prev
    ensures Chain(out + [e], list', tail')
  {
    if tail != null {
      tail.next := e;
      list' := list;
    } else {
      list' := e;
    }
    e.prev := tail;
    tail' := e;
  }

  /** The for loop: walk at most insize nodes from p; q is where the second run starts. */
  method FindSecondRun(ghost s: seq<ListHead>, ghost base: nat, p: ListHead, oldhead: ListHead, insize: nat)
    returns (q: ListHead?, psize: nat)
    requires base < |s| && s[base] == p && s[0] == oldhead && insize > 0 && NoDup(s) && Unread(s, base)
    ensures psize == Min(insize, |s| - base) && q == At(s, base + psize)
  {
    q, psize := p, 0;
    var i := 0;
    while i < insize
      invariant 0 <= i <= insize && psize == i && base + i < |s| && q == s[base + i]
    {
      psize := psize + 1;
      q := if q.next == oldhead then null else q.next;
      if q == null { break; }
      i := i + 1;
    }
  }

  /** Between two steps of the merge loop: the chain holds what has been read of s, and the nodes
      still to read, s[i..pe] and s[j..], are outside it and keep their next pointers. */
  ghost predicate Merging(s: seq<ListHead>, i: nat, pe: nat, j: nat, out: seq<ListHead>, list: ListHead?,
          tail: ListHead?)
    reads s, out
  {
    && Chain(out, list, tail)
    && (forall x :: x in out ==> x in s)
    && (forall k :: 0 <= k < |s| && (i <= k < pe || j <= k) ==> s[k].next == Succ(s, k) && s[k] !in out)
  }

  /** The node at position m is read, off the front of the left run or of the right one. */
  ghost predicate Reads(i: nat, pe: nat, j: nat, qe: nat, m: nat, i': nat, j': nat) {
    (m == i < pe && i' == i + 1 && j' == j) || (m == j < qe && i' == i && j' == j + 1)
  }

  method Append(ghost s: seq<ListHead>, ghost i: nat, ghost pe: nat, ghost j: nat, ghost qe: nat, ghost m: nat,
        ghost i': nat, ghost j': nat,
                ghost out: seq<ListHead>, list: ListHead?, tail: ListHead?, e: ListHead)
    returns (list': ListHead, tail': ListHead)
    requires Merging(s, i, pe, j, out, list, tail) && NoDup(s)
    requires i <= pe <= j <= qe <= |s| && Reads(i, pe, j, qe, m, i', j') && e == s[m]
    modifies s
    ensures Merging(s, i', pe, j', out + [e], list', tail')
  {
    assert tail != null ==> tail in out;
    list', tail' := Emit(list, tail, e, out);
  }

  /** The branches of the merge loop: the node to emit, what is left of the two runs, and what is still
      to come of the merge. */
  method ChooseNext(ghost s: seq<ListHead>, ghost i: nat, ghost pe: nat, ghost j: nat, ghost qe: nat,
        ghost rest: seq<ListHead>,
                    p: ListHead, q: ListHead?, psize: nat, qsize: nat, oldhead: ListHead,
                    cmp: (ListHead, ListHead) -> int)
    returns (e: ListHead, p': ListHead, q': ListHead?, psize': nat, qsize': nat, ghost m: nat, ghost i': nat,
          ghost j': nat,
             ghost rest': seq<ListHead>)
    requires i <= pe <= j <= qe <= |s| && NoDup(s) && s != [] && oldhead == s[0]
    requires psize == pe - i && q == At(s, j) && (qsize > 0 && q != null <==> j < qe)
    requires psize > 0 ==> p == s[i] && p.next == Succ(s, i)
    requires q != null ==> q.next == Succ(s, j)
    requires psize > 0 || (qsize > 0 && q != null)
    requires rest == MergeRuns(s[i..pe], s[j..qe], cmp)
    ensures Reads(i, pe, j, qe, m, i', j') && e == s[m] && psize' == pe - i' && qsize' + j' == qsize + j
    ensures q' == At(s, j') && (psize' > 0 ==> p' == s[i'])
    ensures rest == [e] + rest' && rest' == MergeRuns(s[i'..pe], s[j'..qe], cmp)
  {
    p', q', psize', qsize' := p, q, psize, qsize;
    assert i < pe ==> s[i..pe][1..] == s[i + 1..pe];
    assert j < qe ==> s[j..qe][1..] == s[j + 1..qe];
    if psize == 0 {
      e, m, i', j' := q, j, i, j + 1;
      q', qsize' := q.next, qsize - 1;
      if q' == oldhead { q' := null; }
    } else if qsize == 0 || q == null {
      e, m, i', j' := p, i, i + 1, j;
      p', psize' := p.next, psize - 1;
    } else if cmp(p, q) <= 0 {
      e, m, i', j' := p, i, i + 1, j;
      p', psize' := p.next, psize - 1;
    } else {
      e, m, i', j' := q, j, i, j + 1;
      q', qsize' := q.next, qsize - 1;
      if q' == oldhead { q' := null; }
    }
    rest' := MergeRuns(s[i'..pe], s[j'..qe], cmp);
  }

  /** The body of the merge loop. */
  method MergeTurn(ghost s: seq<ListHead>, ghost i: nat, ghost pe: nat, ghost j: nat, ghost qe: nat,
        ghost rest: seq<ListHead>,
                   ghost out: seq<ListHead>, list: ListHead?, tail: ListHead?, p: ListHead, q: ListHead?,
                   psize: nat, qsize: nat, oldhead: ListHead, cmp: (ListHead, ListHead) -> int)
    returns (list': ListHead, tail': ListHead, p': ListHead, q': ListHead?, psize': nat, qsize': nat,
          ghost i': nat, ghost j': nat,
             ghost rest': seq<ListHead>, ghost out': seq<ListHead>)
    requires i <= pe <= j <= qe <= |s| && NoDup(s) && s != [] && oldhead == s[0]
    requires psize == pe - i && q == At(s, j) && (qsize > 0 && q != null <==> j < qe) && (psize > 0 ==> p == s[i])
    requires psize > 0 || (qsize > 0 && q != null)
    requires Merging(s, i, pe, j, out, list, tail) && rest == MergeRuns(s[i..pe], s[j..qe], cmp)
    modifies s
    ensures i <= i' <= pe && j <= j' <= qe && psize' == pe - i' && qsize' + j' == qsize + j
    ensures psize' + qsize' < psize + qsize
    ensures q' == At(s, j') && (psize' > 0 ==> p' == s[i'])
    ensures Merging(s, i', pe, j', out', list', tail')
    ensures rest' == MergeRuns(s[i'..pe], s[j'..qe], cmp) && out' + rest' == out + rest
  {
    var e: ListHead;
    ghost var m;
    e, p', q', psize', qsize', m, i', j', rest' := ChooseNext(s, i, pe, j, qe, rest, p, q, psize, qsize, oldhead, cmp);
    list', tail' := Append(s, i, pe, j, qe, m, i', j', out, list, tail, e);
    out' := out + [e];
    Associative(out, [e], rest');
  }

  /** The inner while loop: merge the runs s[base..pe] and s[pe..qe] onto the end of the chain. */
  method MergeInPlace(ghost s: seq<ListHead>, ghost base: nat, ghost pe: nat, ghost qe: nat, ghost out0: seq<ListHead>,
                      p0: ListHead, q0: ListHead?, psize0: nat, insize: nat, list0: ListHead?, tail0: ListHead?,
                      oldhead: ListHead, cmp: (ListHead, ListHead) -> int)
    returns (list: ListHead?, tail: ListHead?, q: ListHead?, ghost out: seq<ListHead>)
    requires base < pe <= qe <= |s| && qe == Min(pe + insize, |s|) && psize0 == pe - base
    requires p0 == s[base] && q0 == At(s, pe) && oldhead == s[0]
    requires NoDup(s) && Merging(s, base, pe, pe, out0, list0, tail0)
    modifies s
    ensures out == out0 + MergeRuns(s[base..pe], s[pe..qe], cmp)
    ensures Merging(s, pe, pe, qe, out, list, tail) && q == At(s, qe)
  {
    var p, psize, qsize := p0, psize0, insize;
    ghost var i, j := base, pe;
    list, tail, q, out := list0, tail0, q0, out0;
    ghost var rest := MergeRuns(s[base..pe], s[pe..qe], cmp);
    ghost var target := out0 + rest;
    while psize > 0 || (qsize > 0 && q != null)
      invariant base <= i <= pe <= j <= qe
      invariant psize == pe - i && qsize == insize - (j - pe) && q == At(s, j)
      invariant psize > 0 ==> p == s[i]
      invariant Merging(s, i, pe, j, out, list, tail)
      invariant rest == MergeRuns(s[i..pe], s[j..qe], cmp) && out + rest == target
      decreases psize + qsize
    {
      list, tail, p, q, psize, qsize, i, j, rest, out :=
          MergeTurn(s, i, pe, j, qe, rest, out, list, tail, p, q, psize, qsize, oldhead, cmp);
    }
    assert i == pe && j == qe;
    MergeDone(s, i, j, rest, out, target, cmp);
  }

  lemma MergeDone(s: seq<ListHead>, i: nat, j: nat, rest: seq<ListHead>, out: seq<ListHead>, target: seq<ListHead>,
        cmp: (ListHead, ListHead) -> int)
    requires i <= |s| && j <= |s| && rest == MergeRuns(s[i..i], s[j..j], cmp) && out + rest == target
    ensures out == target
  {
    assert s[i..i] == [] && s[j..j] == [];
  }

  /** One pass over the ring s: every two neighbouring runs of length insize are merged, and the
      result is closed to a ring again. */
  method SortPass(ghost s: seq<ListHead>, start: ListHead, insize: nat, cmp: (ListHead, ListHead) -> int)
    returns (list: ListHead, nmerges: nat, ghost out: seq<ListHead>)
    requires s != [] && NoDup(s) && Unread(s, 0) && start == s[0] && insize > 0
    modifies s
    ensures out == Pass(s, insize, cmp) && Ring(out) && list == out[0]
    ensures forall x :: x in out ==> x in s
    ensures nmerges <= 1 <==> |s| <= 2 * insize
  {
    var first: ListHead?, tail: ListHead?;
    first, tail, nmerges, out := MergeAll(s, start, insize, cmp);
    PassEnd(s, insize, out, cmp);
    Close(s, out, first, tail);
    list := first;
  }

  /** The loop over a pass, which leaves a chain still to be closed. */
  method MergeAll(ghost s: seq<ListHead>, start: ListHead, insize: nat, cmp: (ListHead, ListHead) -> int)
    returns (first: ListHead?, tail: ListHead?, nmerges: nat, ghost out: seq<ListHead>)
    requires s != [] && NoDup(s) && Unread(s, 0) && start == s[0] && insize > 0
    modifies s
    ensures Merging(s, |s|, |s|, |s|, out, first, tail) && PassLeads(s, |s|, insize, out, cmp)
    ensures nmerges <= 1 <==> |s| <= 2 * insize
  {
    var oldhead := start;
    var p: ListHead? := start;
    first, tail, nmerges, out := null, null, 0, [];
    ghost var base := 0;
    PassBegins(s, insize, cmp);
    while p != null
      invariant base <= |s| && p == At(s, base)
      invariant Merging(s, base, base, base, out, first, tail)
      invariant PassLeads(s, base, insize, out, cmp)
      invariant MergesDone(nmerges, base, insize, |s|)
      decreases |s| - base
    {
      CountMerge(nmerges, base, insize, |s|);
      nmerges := nmerges + 1;
      first, tail, p, base, out := MergePair(s, base, out, p, insize, first, tail, oldhead, cmp);
    }
  }

  /** The body of the loop over a pass: find two runs, merge them, and move on to what follows. */
  method MergePair(ghost s: seq<ListHead>, ghost base: nat, ghost out: seq<ListHead>, p: ListHead, insize: nat,
                   list: ListHead?, tail: ListHead?, oldhead: ListHead, cmp: (ListHead, ListHead) -> int)
    returns (list': ListHead?, tail': ListHead?, p': ListHead?, ghost base': nat, ghost out': seq<ListHead>)
    requires base < |s| && p == s[base] && oldhead == s[0] && insize > 0 && NoDup(s)
    requires Merging(s, base, base, base, out, list, tail) && PassLeads(s, base, insize, out, cmp)
    modifies s
    ensures base' == Min(base + 2 * insize, |s|) && p' == At(s, base')
    ensures Merging(s, base', base', base', out', list', tail') && PassLeads(s, base', insize, out', cmp)
  {
    var q, psize := FindSecondRun(s, base, p, oldhead, insize);
    ghost var pe := base + psize;
    base' := Min(pe + insize, |s|);
    list', tail', p', out' := MergeInPlace(s, base, pe, base', out, p, q, psize, insize, list, tail, oldhead, cmp);
    PassStep(s, base, pe, base', insize, out, cmp);
  }

  lemma PassBegins(s: seq<ListHead>, w: nat, cmp: (ListHead, ListHead) -> int)
    requires w > 0
    ensures PassLeads(s, 0, w, [], cmp)
  {
    assert s[0..] == s;
  }

  lemma PassEnd(s: seq<ListHead>, w: nat, out: seq<ListHead>, cmp: (ListHead, ListHead) -> int)
    requires s != [] && w > 0 && PassLeads(s, |s|, w, out, cmp)
    ensures out == Pass(s, w, cmp) && out != []
  {
    assert s[|s|..] == [];
    PassKeepsElements(s, w, cmp);
  }

  /** Merging the rest of s after out completes the pass. */
  ghost predicate PassLeads(s: seq<ListHead>, base: nat, w: nat, out: seq<ListHead>, cmp: (ListHead, ListHead) -> int)
    requires base <= |s| && w > 0
  {
    forall k :: k == base ==> out + Pass(s[k..], w, cmp) == Pass(s, w, cmp)
  }

  /** The counter tells whether one merge was enough. */
  ghost predicate MergesDone(nmerges: nat, base: nat, w: nat, n: nat) {
    && (nmerges == 0 <==> base == 0)
    && (nmerges == 1 ==> base == Min(2 * w, n))
    && (nmerges >= 2 ==> base > 2 * w)
  }

  lemma CountMerge(nmerges: nat, base: nat, w: nat, n: nat)
    requires MergesDone(nmerges, base, w, n) && base < n && w > 0
    ensures MergesDone(nmerges + 1, Min(base + 2 * w, n), w, n)
  {
  }

  lemma PassUnfold(s: seq<ListHead>, base: nat, pe: nat, qe: nat, w: nat, cmp: (ListHead, ListHead) -> int)
    requires base < |s| && w > 0 && pe == base + Min(w, |s| - base) && qe == Min(pe + w, |s|)
    ensures Pass(s[base..], w, cmp) == MergeRuns(s[base..pe], s[pe..qe], cmp) + Pass(s[qe..], w, cmp)
  {
    var r := s[base..];
    assert r[..Min(w, |r|)] == s[base..pe];
    assert r[Min(w, |r|)..Min(2 * w, |r|)] == s[pe..qe];
    assert r[Min(2 * w, |r|)..] == s[qe..];
  }

  lemma PassStep(s: seq<ListHead>, base: nat, pe: nat, qe: nat, w: nat, out: seq<ListHead>, cmp: (ListHead,
        ListHead) -> int)
    requires base < |s| && w > 0 && pe == base + Min(w, |s| - base) && qe == Min(pe + w, |s|)
    requires PassLeads(s, base, w, out, cmp)
    ensures PassLeads(s, qe, w, out + MergeRuns(s[base..pe], s[pe..qe], cmp), cmp)
  {
    PassUnfold(s, base, pe, qe, w, cmp);
    Associative(out, MergeRuns(s[base..pe], s[pe..qe], cmp), Pass(s[qe..], w, cmp));
  }

  /** tail->next = list; list->prev = tail. */
  method Close(ghost s: seq<ListHead>, ghost out: seq<ListHead>, list: ListHead?, tail: ListHead?)
    requires Chain(out, list, tail) && out != [] && forall x :: x in out ==> x in s
    modifies s
    ensures Ring(out)
  {
    assert list in out && tail in out;
    tail.next := list;
    list.prev := tail;
  }

  /** Putting the head back: the sorted ring is the head alone when the list was empty. */
  method Splice(head: ListHead, ghost ring: seq<ListHead>, list: ListHead)
    requires Ring(ring) && list == ring[0] && (head in ring ==> ring == [head])
    modifies head, ring
    ensures IsList(head, if head in ring then [] else ring)
  {
    head.next := list;
    head.prev := list.prev;
    list.prev.next := head;
    list.prev := head;
  }

  /** The outer loop: passes with doubled run lengths until one merge did everything. */
  method SortRing(start: ListHead, ghost ring0: seq<ListHead>, cmp: (ListHead, ListHead) -> int)
    returns (list: ListHead, ghost ring: seq<ListHead>)
    requires ring0 != [] && NoDup(ring0) && Unread(ring0, 0) && start == ring0[0]
    modifies ring0
    ensures ring == SortFrom(ring0, 1, cmp) && Ring(ring) && list == ring[0]
    ensures forall x :: x in ring ==> x in ring0
  {
    list, ring := start, ring0;
    ghost var target := SortFrom(ring0, 1, cmp);
    var insize := 1;
    while true
      invariant insize == 1 || 1 < insize < |ring0|
      invariant Unsorted(ring0, ring, list) && SortLeads(ring, insize, target, cmp)
      decreases |ring0| - insize
    {
      var nmerges;
      list, nmerges, ring := SortTurn(ring0, ring, list, insize, cmp, target);
      if nmerges <= 1 { break; }
      insize := insize * 2;
    }
  }

  /** A ring of the nodes of ring0, as far as a pass needs it. */
  ghost predicate Unsorted(ring0: seq<ListHead>, ring: seq<ListHead>, list: ListHead)
    reads ring
  {
    && ring != [] && |ring| == |ring0| && (forall x :: x in ring ==> x in ring0)
    && NoDup(ring) && Unread(ring, 0) && list == ring[0]
  }

  /** Sorting s, from runs of length w on, gives target.  Stated of every v that is w, so that the solver
      does not unfold the sort wherever this is passed on. */
  ghost predicate SortLeads(s: seq<ListHead>, w: nat, target: seq<ListHead>, cmp: (ListHead, ListHead) -> int) {
    forall v: nat :: 0 < v == w ==> SortFrom(s, v, cmp) == target
  }

  /** The body of the outer loop, on a ring of nodes of ring0. */
  method SortTurn(ghost ring0: seq<ListHead>, ghost ring: seq<ListHead>, start: ListHead, insize: nat,
                  cmp: (ListHead, ListHead) -> int, ghost target: seq<ListHead>)
    returns (list: ListHead, nmerges: nat, ghost ring': seq<ListHead>)
    requires Unsorted(ring0, ring, start) && insize > 0 && SortLeads(ring, insize, target, cmp)
    modifies ring0
    ensures Unsorted(ring0, ring', list) && Ring(ring')
    ensures nmerges <= 1 <==> |ring0| <= 2 * insize
    ensures if nmerges <= 1 then ring' == target else SortLeads(ring', 2 * insize, target, cmp)
  {
    assert forall i :: 0 <= i < |ring| ==> ring[i] in ring;
    list, nmerges, ring' := SortPass(ring, start, insize, cmp);
    SortStep(ring, insize, ring', cmp);
  }

  lemma SortStep(s: seq<ListHead>, w: nat, p: seq<ListHead>, cmp: (ListHead, ListHead) -> int)
    requires w > 0 && p == Pass(s, w, cmp)
    ensures |p| == |s| && SortFrom(s, w, cmp) == if |s| <= 2 * w then p else SortFrom(p, 2 * w, cmp)
  {
    PassKeepsElements(s, w, cmp);
  }

  /** list_sort.  The ring that is sorted is the head alone when the list is empty. */
  method Sort(head: ListHead, ghost items: seq<ListHead>, cmp: (ListHead, ListHead) -> int)
    requires IsList(head, items)
    modifies head, items
    ensures IsList(head, SortFrom(items, 1, cmp))
    ensures TotalPreorder(cmp, items) ==> StablySorted(SortFrom(items, 1, cmp), items, cmp)
  {
    var list := head.next;
    ghost var full, ring0 := [head] + items, if items == [] then [head] else items;
    WithoutHead(full, items, head);
    if TotalPreorder(cmp, items) { SortIsStable(items, cmp); }
    Unlink(full, 0, head);
    assert Ring(ring0) && list == ring0[0];
    SortUnlinked(head, list, ring0, items, cmp);
  }

  /** The rest of list_sort, when the head is out of the ring. */
  method SortUnlinked(head: ListHead, start: ListHead, ghost ring0: seq<ListHead>, ghost items: seq<ListHead>,
        cmp: (ListHead, ListHead) -> int)
    requires head !in items && ring0 == (if items == [] then [head] else items)
    requires NoDup(ring0) && Unread(ring0, 0) && start == ring0[0]
    modifies head, items
    ensures IsList(head, SortFrom(items, 1, cmp))
  {
    assert forall x :: x in ring0 ==> x == head || x in items;
    var list;
    ghost var ring;
    list, ring := SortRing(start, ring0, cmp);
    SortedItems(head, items, ring0, ring, cmp);
    assert forall i :: 0 <= i < |ring| ==> ring[i] in ring0;
    Splice(head, ring, list);
  }

  lemma WithoutHead(full: seq<ListHead>, items: seq<ListHead>, head: ListHead)
    requires full == [head] + items && NoDup(full)
    ensures full[..0] + full[1..] == items && NoDup(items) && head !in items
  {
    assert full[0] == head;
    forall i | 0 <= i < |items|
      ensures items[i] == full[i + 1] && items[i] != head
    {
      assert full[i + 1] != full[0];
    }
  }

  /** The sorted ring is that of the items, or of the head alone. */
  lemma SortedItems(head: ListHead, items: seq<ListHead>, ring0: seq<ListHead>, ring: seq<ListHead>,
        cmp: (ListHead, ListHead) -> int)
    requires head !in items && ring0 == (if items == [] then [head] else items) && ring == SortFrom(ring0, 1, cmp)
    requires ring != [] && forall x :: x in ring ==> x in ring0
    ensures head in ring <==> items == []
    ensures items == [] ==> ring == [head]
    ensures SortFrom(items, 1, cmp) == if head in ring then [] else ring
  {
    if items == [] {
      SingletonSort(head, cmp);
    }
  }

  lemma SingletonSort(head: ListHead, cmp: (ListHead, ListHead) -> int)
    ensures SortFrom([head], 1, cmp) == [head] && SortFrom<ListHead>([], 1, cmp) == []
  {
    assert [head][1..] == [];
    PassUnfold([head], 0, 1, 1, 1, cmp);
  }
}
