/** The intrusive lists and tail queues of include/queue.h, whose back pointers name link cells, not elements. */
module Links {

  datatype Ptr = Null | To(n: nat)

  /** The address of a pointer: the one in the list head, the `next` field of an element, or null. */
  datatype Cell = HeadCell | NextOf(n: nat) | NoCell

  /** A tail queue head and the links of the elements; a plain list is the same without `last`. */
  datatype Heap = Heap(first: Ptr, last: Cell, next: seq<Ptr>, prev: seq<Cell>)

  ghost predicate Distinct(q: seq<nat>) {
    forall i, j :: 0 <= i < j < |q| ==> q[i] != q[j]
  }

  function PtrAt(q: seq<nat>, i: nat): Ptr {
    if i < |q| then To(q[i]) else Null
  }

  function CellBefore(q: seq<nat>, i: nat): Cell
    requires i <= |q|
  {
    if i == 0 then HeadCell else NextOf(q[i - 1])
  }

  predicate ForwardAt(h: Heap, q: seq<nat>, i: nat)
    requires i < |q|
  {
    q[i] < |h.next| && h.next[q[i]] == PtrAt(q, i + 1)
  }

  predicate BackAt(h: Heap, q: seq<nat>, i: nat)
    requires i < |q|
  {
    q[i] < |h.prev| && h.prev[q[i]] == CellBefore(q, i)
  }

  /** `next` of each member points at the following one, `prev` at the pointer that points at the member. */
  ghost predicate Threads(h: Heap, q: seq<nat>) {
    && |h.next| == |h.prev| && Distinct(q) && h.first == PtrAt(q, 0)
    && forall i :: 0 <= i < |q| ==> ForwardAt(h, q, i) && BackAt(h, q, i)
  }

  ghost predicate Queue(h: Heap, q: seq<nat>) {
    Threads(h, q) && h.last == CellBefore(q, |q|)
  }

  /** A pointer can be stored there. */
  predicate Storable(h: Heap, cell: Cell) {
    cell == HeadCell || (cell.NextOf? && cell.n < |h.next|)
  }

  /** `*cell = p`. */
  function Store(h: Heap, cell: Cell, p: Ptr): Heap
    requires Storable(h, cell)
  {
    match cell
    case HeadCell => h.(first := p)
    case NextOf(n) => h.(next := h.next[n := p])
  }

  function InsertHead(h: Heap, e: nat): Heap
    requires e < |h.next| == |h.prev| && (h.first.To? ==> h.first.n < |h.prev|)
  {
    var h1 := h.(next := h.next[e := h.first]);
    var h2 := if h.first.To? then h1.(prev := h1.prev[h.first.n := NextOf(e)]) else h1.(last := NextOf(e));
    h2.(first := To(e), prev := h2.prev[e := HeadCell])
  }

  function InsertTail(h: Heap, e: nat): Heap
    requires e < |h.next| == |h.prev| && Storable(h, h.last)
  {
    Store(h.(next := h.next[e := Null], prev := h.prev[e := h.last]), h.last, To(e)).(last := NextOf(e))
  }

  predicate CanRemove(h: Heap, e: nat) {
    && e < |h.next| == |h.prev| && (h.next[e].To? ==> h.next[e].n < |h.prev|)
    && Storable(h, h.prev[e])
  }

  function Remove(h: Heap, e: nat): Heap
    requires CanRemove(h, e)
  {
    var h1 := if h.next[e].To? then h.(prev := h.prev[h.next[e].n := h.prev[e]]) else h.(last := h.prev[e]);
    Store(h1, h.prev[e], h.next[e])
  }

  /** The sequence without its member e. */
  function Without(q: seq<nat>, e: nat): (r: seq<nat>) {
    if q == [] then [] else if q[0] == e then q[1..] else [q[0]] + Without(q[1..], e)
  }

  lemma {:induction false} WithoutAt(q: seq<nat>, e: nat, k: nat)
    requires Distinct(q) && k < |q| && q[k] == e
    ensures Without(q, e) == q[..k] + q[k + 1..]
  {
    if k > 0 {
      WithoutAt(q[1..], e, k - 1);
      assert q[1..][..k - 1] + q[1..][k..] == q[1..k] + q[k + 1..];
    }
  }

  lemma {:induction false} WithoutAbsent(q: seq<nat>, e: nat)
    requires e !in q
    ensures Without(q, e) == q
  {
    if q != [] {
      WithoutAbsent(q[1..], e);
    }
  }

  lemma InsertHeadThreads(h: Heap, q: seq<nat>, e: nat)
    requires Threads(h, q) && e < |h.next| && e !in q
    ensures h.first.To? ==> h.first.n < |h.prev|
    ensures Threads(InsertHead(h, e), [e] + q)
    ensures h.last == CellBefore(q, |q|) ==> Queue(InsertHead(h, e), [e] + q)
  {
    var q' := [e] + q;
    assert q != [] ==> ForwardAt(h, q, 0);
    var h' := InsertHead(h, e);
    forall i | 0 <= i < |q'| ensures ForwardAt(h', q', i) && BackAt(h', q', i) {
      if i > 0 {
        assert q'[i] == q[i - 1] && ForwardAt(h, q, i - 1) && BackAt(h, q, i - 1);
      }
    }
  }

  lemma InsertTailQueue(h: Heap, q: seq<nat>, e: nat)
    requires Queue(h, q) && e < |h.next| && e !in q
    ensures Storable(h, h.last)
    ensures Queue(InsertTail(h, e), q + [e])
  {
    var q' := q + [e];
    assert q != [] ==> ForwardAt(h, q, |q| - 1);
    var h' := InsertTail(h, e);
    forall i | 0 <= i < |q'| ensures ForwardAt(h', q', i) && BackAt(h', q', i) {
      if i < |q| {
        assert q'[i] == q[i] && ForwardAt(h, q, i) && BackAt(h, q, i);
      }
    }
    assert PtrAt(q', 0) == h'.first;
  }

  lemma RemoveShape(h: Heap, q: seq<nat>, e: nat, k: nat)
    requires Threads(h, q) && k < |q| && q[k] == e
    ensures CanRemove(h, e) && h.next[e] == PtrAt(q, k + 1) && h.prev[e] == CellBefore(q, k)
  {
    assert ForwardAt(h, q, k) && BackAt(h, q, k);
    if k + 1 < |q| {
      assert BackAt(h, q, k + 1);
    }
    if k > 0 {
      assert ForwardAt(h, q, k - 1);
    }
  }

  lemma RemoveAt(h: Heap, q: seq<nat>, e: nat, k: nat)
    requires Threads(h, q) && k < |q| && q[k] == e
    ensures CanRemove(h, e) && Threads(Remove(h, e), q[..k] + q[k + 1..])
    ensures h.last == CellBefore(q, |q|) ==> Queue(Remove(h, e), q[..k] + q[k + 1..])
  {
    RemoveShape(h, q, e, k);
    var q', h' := q[..k] + q[k + 1..], Remove(h, e);
    forall i | 0 <= i < |q'| ensures ForwardAt(h', q', i) && BackAt(h', q', i) {
      var j := if i < k then i else i + 1;
      assert q'[i] == q[j] && ForwardAt(h, q, j) && BackAt(h, q, j);
    }
  }

  /** Removing any member, found by address alone, leaves the other members threaded in order. */
  lemma RemoveThreads(h: Heap, q: seq<nat>, e: nat)
    requires Threads(h, q) && e in q
    ensures CanRemove(h, e) && Threads(Remove(h, e), Without(q, e))
    ensures h.last == CellBefore(q, |q|) ==> Queue(Remove(h, e), Without(q, e))
  {
    hide ForwardAt, BackAt;
    var k :| 0 <= k < |q| && q[k] == e;
    WithoutAt(q, e, k);
    RemoveAt(h, q, e, k);
  }

  /** The stale links of e write into the queue only what it holds already. */
  predicate Agrees(h: Heap, q: seq<nat>, e: nat)
    requires CanRemove(h, e)
  {
    && (h.next[e] == Null ==> h.prev[e] == h.last)
    && (h.next[e].To? && h.next[e].n in q ==> h.prev[h.next[e].n] == h.prev[e])
    && (h.prev[e] == HeadCell ==> h.next[e] == h.first)
    && (h.prev[e].NextOf? && h.prev[e].n in q ==> h.next[h.prev[e].n] == h.next[e])
  }

  lemma AgreesKeeps(h: Heap, q: seq<nat>, e: nat)
    requires Queue(h, q) && e !in q && CanRemove(h, e) && Agrees(h, q, e)
    ensures Queue(Remove(h, e), q)
  {
    var h' := Remove(h, e);
    forall i | 0 <= i < |q| ensures ForwardAt(h', q, i) && BackAt(h', q, i) {
      assert ForwardAt(h, q, i) && BackAt(h, q, i) && q[i] in q;
    }
  }

  lemma DisagreesBreaks(h: Heap, q: seq<nat>, e: nat)
    requires Queue(h, q) && e !in q && CanRemove(h, e) && Queue(Remove(h, e), q)
    ensures Agrees(h, q, e)
  {
    var h' := Remove(h, e);
    if h.next[e].To? && h.next[e].n in q {
      var i :| 0 <= i < |q| && q[i] == h.next[e].n;
      assert BackAt(h, q, i) && BackAt(h', q, i);
    }
    if h.prev[e].NextOf? && h.prev[e].n in q {
      var i :| 0 <= i < |q| && q[i] == h.prev[e].n;
      assert ForwardAt(h, q, i) && ForwardAt(h', q, i);
    }
  }

  /** TAILQ_REMOVE of an element that is not queued leaves the queue intact exactly when its stale links agree with it. */
  lemma RemoveExact(h: Heap, q: seq<nat>, e: nat)
    requires Queue(h, q) && e !in q && CanRemove(h, e)
    ensures Queue(Remove(h, e), q) <==> Agrees(h, q, e)
  {
    if Agrees(h, q, e) {
      AgreesKeeps(h, q, e);
    } else if Queue(Remove(h, e), q) {
      DisagreesBreaks(h, q, e);
    }
  }

  /** Removing a member leaves the links of an element outside the rest of the queue as they are, its own included. */
  lemma LinksStay(h: Heap, q: seq<nat>, a: nat, k: nat, e: nat)
    requires Threads(h, q) && k < |q| && q[k] == a && (e !in q || e == a)
    ensures CanRemove(h, a) && (e < |h.next| ==> Remove(h, a).next[e] == h.next[e] && Remove(h, a).prev[e] == h.prev[e])
  {
    RemoveShape(h, q, a, k);
    hide ForwardAt, BackAt;
    assert k + 1 < |q| ==> q[k + 1] in q && q[k + 1] != a;
    assert k > 0 ==> q[k - 1] in q && q[k - 1] != a;
  }

  /** Elements that were never queued keep the links they had, so one with a null `prev` can never be removed: the macro
      would write through it. */
  ghost predicate Others(h: Heap, h': Heap, q: seq<nat>, q': seq<nat>) {
    |h.next| == |h'.next| == |h.prev| == |h'.prev| &&
    forall x {:trigger h'.prev[x]} :: 0 <= x < |h.next| && x !in q && x !in q' ==>
      h'.next[x] == h.next[x] && h'.prev[x] == h.prev[x] && (h.prev[x] == NoCell ==> !CanRemove(h', x))
  }

  lemma InsertOthers(h: Heap, q: seq<nat>, e: nat)
    requires Threads(h, q) && e < |h.next| && e !in q
    ensures h.first.To? ==> h.first.n < |h.prev|
    ensures Others(h, InsertHead(h, e), q, [e] + q)
    ensures h.last == CellBefore(q, |q|) ==> Storable(h, h.last) && Others(h, InsertTail(h, e), q, q + [e])
  {
    assert e in [e] + q && e in q + [e];
    assert q != [] ==> ForwardAt(h, q, 0) && ForwardAt(h, q, |q| - 1) && q[0] in q && q[|q| - 1] in q;
    var front := InsertHead(h, e);
    forall x: nat | x < |h.next| && x != e && x !in q ensures front.next[x] == h.next[x] && front.prev[x] == h.prev[x] {
    }
    if h.last == CellBefore(q, |q|) {
      var back := InsertTail(h, e);
      forall x: nat | x < |h.next| && x != e && x !in q ensures back.next[x] == h.next[x] && back.prev[x] == h.prev[x] {
      }
    }
  }

  lemma RemoveOthers(h: Heap, q: seq<nat>, e: nat)
    requires Threads(h, q) && e in q
    ensures CanRemove(h, e) && Others(h, Remove(h, e), q, Without(q, e))
  {
    var k :| 0 <= k < |q| && q[k] == e;
    RemoveThreads(h, q, e);
    forall x: nat | x < |h.next| && x !in q
      ensures Remove(h, e).next[x] == h.next[x] && Remove(h, e).prev[x] == h.prev[x]
    {
      LinksStay(h, q, e, k, x);
    }
  }

  /** Removing a member a second time breaks the queue if its successor is still there and its predecessor is not. */
  lemma SecondRemoveBreaks(h: Heap, q: seq<nat>, k: nat)
    requires Queue(h, q) && 0 < k && k + 1 < |q|
    ensures CanRemove(h, q[k]) && CanRemove(Remove(h, q[k]), q[k - 1])
    ensures var h2, rest := Remove(Remove(h, q[k]), q[k - 1]), q[..k - 1] + q[k + 1..];
            Queue(h2, rest) && CanRemove(h2, q[k]) && !Queue(Remove(h2, q[k]), rest)
  {
    var a, e, n := q[k - 1], q[k], q[k + 1];
    RemoveShape(h, q, e, k);
    RemoveAt(h, q, e, k);
    LinksStay(h, q, e, k, e);
    var h1, q1 := Remove(h, e), q[..k] + q[k + 1..];
    RemoveAt(h1, q1, a, k - 1);
    LinksStay(h1, q1, a, k - 1, e);
    var h2, rest := Remove(h1, a), q[..k - 1] + q[k + 1..];
    assert q1[..k - 1] + q1[k..] == rest;
    assert |h2.next| == |h2.prev| == |h.next| && n < |h2.prev| && a < |h2.next|;
    StaleAfter(h2, rest, k - 1, e, a);
  }

  lemma StaleAfter(h: Heap, q: seq<nat>, i: nat, e: nat, a: nat)
    requires Queue(h, q) && i < |q| && e !in q && a !in q && CanRemove(h, e)
    requires h.next[e] == To(q[i]) && h.prev[e] == NextOf(a)
    ensures !Queue(Remove(h, e), q)
  {
    assert BackAt(h, q, i) && q[i] in q;
    assert CellBefore(q, i) != NextOf(a) by {
      assert i > 0 ==> q[i - 1] in q;
    }
    RemoveExact(h, q, e);
  }
}

/** The queues as objects whose links change in place. */
module Queues {
  import opened Links

  class TailQueue {
    var first: Ptr
    var last: Cell
    var next: seq<Ptr>
    var prev: seq<Cell>
    ghost var elems: seq<nat>

    ghost function State(): Heap
      reads this
    {
      Heap(first, last, next, prev)
    }

    ghost predicate Valid()
      reads this
    {
      Queue(State(), elems)
    }

    /** TAILQ_INIT; the links of elements not yet queued hold anything. */
    constructor (next: seq<Ptr>, prev: seq<Cell>)
      requires |next| == |prev|
      ensures Valid() && elems == [] && this.next == next
    {
      first, last, elems := Null, HeadCell, [];
      this.next, this.prev := next, prev;
    }

    /** `*cell = p`. */
    method StoreTo(cell: Cell, p: Ptr)
      requires Storable(State(), cell)
      modifies this`first, this`next
      ensures State() == Store(old(State()), cell, p)
    {
      match cell
      case HeadCell => first := p;
      case NextOf(n) => next := next[n := p];
    }

    method PushFront(e: nat)
      requires Valid() && e < |next| && e !in elems
      modifies this
      ensures Valid() && elems == [e] + old(elems) && |next| == old(|next|)
      ensures Others(old(State()), State(), old(elems), elems)
    {
      InsertHeadThreads(State(), elems, e);
      InsertOthers(State(), elems, e);
      next := next[e := first];
      if first != Null {
        prev := prev[first.n := NextOf(e)];
      } else {
        last := NextOf(e);
      }
      first := To(e);
      prev := prev[e := HeadCell];
      assert State() == InsertHead(old(State()), e);
      elems := [e] + elems;
    }

    method PushBack(e: nat)
      requires Valid() && e < |next| && e !in elems
      modifies this
      ensures Valid() && elems == old(elems) + [e] && |next| == old(|next|)
      ensures Others(old(State()), State(), old(elems), elems)
    {
      InsertTailQueue(State(), elems, e);
      InsertOthers(State(), elems, e);
      next := next[e := Null];
      prev := prev[e := last];
      StoreTo(last, To(e));
      last := NextOf(e);
      elems := elems + [e];
    }

    /** TAILQ_REMOVE needs only the element: its `prev` says which pointer to patch. Nothing checks that it is queued;
        when it is not, the queue survives exactly if the element's stale links agree with it. */
    method Delete(e: nat)
      requires Valid() && (e in elems || CanRemove(State(), e))
      modifies this
      ensures e in old(elems) ==> Valid()
      ensures e !in old(elems) ==> (Valid() <==> Agrees(old(State()), old(elems), e))
      ensures elems == Without(old(elems), e) && |next| == old(|next|)
      ensures e in old(elems) ==> Others(old(State()), State(), old(elems), elems)
    {
      if e in elems {
        RemoveThreads(State(), elems, e);
        RemoveOthers(State(), elems, e);
      } else {
        RemoveExact(State(), elems, e);
        WithoutAbsent(elems, e);
      }
      var p, c := next[e], prev[e];
      if p != Null {
        prev := prev[p.n := c];
      } else {
        last := c;
      }
      StoreTo(c, p);
      elems := Without(elems, e);
    }
  }

  class List {
    var first: Ptr
    var next: seq<Ptr>
    var prev: seq<Cell>
    ghost var elems: seq<nat>

    ghost function State(): Heap
      reads this
    {
      Heap(first, HeadCell, next, prev)
    }

    ghost predicate Valid()
      reads this
    {
      Threads(State(), elems)
    }

    constructor (next: seq<Ptr>, prev: seq<Cell>)
      requires |next| == |prev|
      ensures Valid() && elems == [] && this.next == next
    {
      first, elems := Null, [];
      this.next, this.prev := next, prev;
    }

    method PushFront(e: nat)
      requires Valid() && e < |next| && e !in elems
      modifies this
      ensures Valid() && elems == [e] + old(elems) && |next| == old(|next|)
    {
      InsertHeadThreads(State(), elems, e);
      LastIsFree(InsertHead(State(), e), [e] + elems);
      next := next[e := first];
      if first != Null {
        prev := prev[first.n := NextOf(e)];
      }
      first := To(e);
      prev := prev[e := HeadCell];
      assert State() == InsertHead(old(State()), e).(last := HeadCell);
      elems := [e] + elems;
    }

    method Delete(e: nat)
      requires Valid() && e in elems
      modifies this
      ensures Valid() && elems == Without(old(elems), e) && |next| == old(|next|)
    {
      RemoveThreads(State(), elems, e);
      LastIsFree(Remove(State(), e), Without(elems, e));
      var p, c := next[e], prev[e];
      if p != Null {
        prev := prev[p.n := c];
      }
      match c {
        case HeadCell => first := p;
        case NextOf(n) => next := next[n := p];
      }
      assert State() == Remove(old(State()), e).(last := HeadCell);
      elems := Without(elems, e);
    }
  }

  /** A plain list has no tail pointer to keep. */
  lemma LastIsFree(h: Heap, q: seq<nat>)
    requires Threads(h, q)
    ensures Threads(h.(last := HeadCell), q)
  {
    forall i | 0 <= i < |q| ensures ForwardAt(h.(last := HeadCell), q, i) && BackAt(h.(last := HeadCell), q, i) {
      assert ForwardAt(h, q, i) && BackAt(h, q, i);
    }
  }
}