/** The doubly linked list of chunk headers. Address 0 ends the list. */
module ChunkList {
  import opened Heap

  const NULL: Address := 0

  datatype MemoryChunk = MemoryChunk(next: Address, prev: Address, inUse: bool, size: nat, sizeClass: nat)

  type Headers = map<Address, MemoryChunk>

  function Nth(list: seq<Address>, i: int): Address {
    if 0 <= i < |list| then list[i] else NULL
  }

  ghost predicate NodeAt(memory: Headers, list: seq<Address>, i: nat)
    requires i < |list|
  {
    && list[i] in memory
    && memory[list[i]].next == Nth(list, i + 1) && memory[list[i]].prev == Nth(list, i - 1)
  }

  /** From `first`, the links lead through `list` in both directions. */
  ghost predicate Chained(memory: Headers, first: Address, list: seq<Address>) {
    && first == Nth(list, 0)
    && Distinct(list) && NULL !in list
    && forall i :: 0 <= i < |list| ==> NodeAt(memory, list, i)
  }

  /** Only links differ. */
  ghost predicate SameButLinks(memory: Headers, memory': Headers, a: Address) {
    a in memory && a in memory'
    && memory'[a] == memory[a].(next := memory'[a].next, prev := memory'[a].prev)
  }

  function LinkForward(memory: Headers, a: Address, next: Address): Headers {
    if a in memory then memory[a := memory[a].(next := next)] else memory
  }

  function LinkBack(memory: Headers, a: Address, prev: Address): Headers {
    if a in memory then memory[a := memory[a].(prev := prev)] else memory
  }

  lemma {:induction false} ListedHeaders(memory: Headers, first: Address, list: seq<Address>)
    requires Chained(memory, first, list)
    ensures forall a <- list :: a in memory
  {
    forall i | 0 <= i < |list| ensures list[i] in memory {
      assert NodeAt(memory, list, i);
    }
  }

  function Unlinked(memory: Headers, list: seq<Address>, i: nat): Headers {
    LinkBack(LinkForward(memory, Nth(list, i - 1), Nth(list, i + 1)), Nth(list, i + 1), Nth(list, i - 1))
  }

  lemma {:induction false} UnlinkNode(memory: Headers, first: Address, list: seq<Address>, i: nat, r: seq<Address>, j: nat)
    requires Chained(memory, first, list) && NULL !in memory && i < |list|
    requires |r| == |list| - 1 && forall k {:trigger r[k]} :: 0 <= k < |r| ==> r[k] == list[if k < i then k else k + 1]
    requires j < |r|
    ensures NodeAt(Unlinked(memory, list, i), r, j)
  {
    var k := if j < i then j else j + 1;
    assert r[j] == list[k] && NodeAt(memory, list, k);
    assert Nth(r, j + 1) == if j + 1 == i then Nth(list, i + 1) else Nth(list, k + 1);
    assert Nth(r, j - 1) == if j == i then Nth(list, i - 1) else Nth(list, k - 1);
    assert k != i - 1 && i > 0 ==> list[k] != list[i - 1];
    assert k != i + 1 && i + 1 < |list| ==> list[k] != list[i + 1];
  }

  /** Taking a chunk out of the list. */
  lemma {:induction false} Unlinking(memory: Headers, first: Address, list: seq<Address>, i: nat)
    requires Chained(memory, first, list) && NULL !in memory && i < |list|
    ensures Chained(Unlinked(memory, list, i), if i == 0 then Nth(list, 1) else first, list[..i] + list[i + 1..])
  {
    var r := list[..i] + list[i + 1..];
    WithoutMembers(list, i);
    forall k | 0 <= k < |r| ensures r[k] == list[if k < i then k else k + 1] {
    }
    forall j | 0 <= j < |r| ensures NodeAt(Unlinked(memory, list, i), r, j) {
      UnlinkNode(memory, first, list, i, r, j);
    }
    assert Nth(r, 0) == if i == 0 then Nth(list, 1) else Nth(list, 0);
    hide NodeAt, Distinct, Unlinked;
  }

  function Prepended(memory: Headers, first: Address, t: Address, size: nat): Headers {
    LinkBack(memory[t := MemoryChunk(first, NULL, false, size, |SIZE_CLASSES|)], first, t)
  }

  /** Putting a new chunk at the front of the list. */
  lemma {:induction false} Prepending(memory: Headers, first: Address, list: seq<Address>, t: Address, size: nat)
    requires Chained(memory, first, list) && NULL !in memory && t != NULL && t !in list
    ensures Chained(Prepended(memory, first, t, size), t, [t] + list)
  {
    var r, m := [t] + list, Prepended(memory, first, t, size);
    PrependDistinct(t, list);
    forall j | 0 <= j < |r| ensures NodeAt(m, r, j) {
      if j > 0 {
        assert NodeAt(memory, list, j - 1) && r[j] == list[j - 1];
        assert j > 1 ==> list[j - 1] != list[0];
      }
    }
  }

  lemma {:induction false} ChainedFrame(memory: Headers, memory': Headers, first: Address, list: seq<Address>)
    requires Chained(memory, first, list)
    requires forall a <- list :: a in memory' && (a in memory ==> memory'[a] == memory[a])
    ensures Chained(memory', first, list)
  {
    forall i | 0 <= i < |list| ensures NodeAt(memory', list, i) {
      assert NodeAt(memory, list, i);
    }
  }
}

module MemoryManagement {
  import opened Machine
  import opened Heap
  import opened ChunkList

  /** The header at `a` says what the state says; off the list it has no links. */
  ghost predicate Agrees(memory: Headers, s: State, a: Address)
    requires a in memory && a in s.chunks
  {
    && memory[a].size == s.chunks[a].size && memory[a].inUse == s.chunks[a].live
    && memory[a].sizeClass == |SIZE_CLASSES|
    && (a !in s.list ==> memory[a].next == NULL && memory[a].prev == NULL)
  }

  ghost predicate Represents(memory: Headers, first: Address, s: State) {
    && Chained(memory, first, s.list)
    && memory.Keys == s.chunks.Keys
    && NULL !in memory
    && forall a <- s.chunks :: Agrees(memory, s, a)
  }

  lemma {:induction false} HeaderExists(memory: Headers, first: Address, s: State, a: Address)
    requires Represents(memory, first, s)
    ensures a in memory <==> a in s.chunks
  {
  }

  lemma {:induction false} UnlinkedFrame(memory: Headers, first: Address, list: seq<Address>, i: nat, a: Address)
    requires Chained(memory, first, list) && NULL !in memory && i < |list| && a in memory
    ensures Unlinked(memory, list, i).Keys == memory.Keys
    ensures SameButLinks(memory, Unlinked(memory, list, i), a)
    ensures a !in list ==> Unlinked(memory, list, i)[a] == memory[a]
  {
  }

  lemma {:induction false} PrependedFrame(memory: Headers, first: Address, list: seq<Address>, t: Address, size: nat, a: Address)
    requires Chained(memory, first, list) && NULL !in memory && t !in memory && a in memory
    ensures SameButLinks(memory, Prepended(memory, first, t, size), a)
    ensures a !in list ==> Prepended(memory, first, t, size)[a] == memory[a]
  {
    assert first != NULL ==> first in list;
  }

  function Handed(memory: Headers, a: Address, size: nat): Headers {
    memory[a := MemoryChunk(NULL, NULL, true, size, |SIZE_CLASSES|)]
  }

  /** What taking a chunk does to a chunk known before. */
  lemma {:induction false} TakenAtOne(s: State, i: nat, size: nat, x: Address)
    requires Known(s) && i < |s.list| && Distinct(s.list) && x in s.chunks
    requires Splits(s.chunks[s.list[i]].size, size) ==> s.list[i] + HEADER + size !in s.chunks
    ensures var a, s' := s.list[i], TakenAt(s, i, size);
      && x in s'.chunks
      && s'.chunks[x] == (if x != a then s.chunks[x]
                          else if Splits(s.chunks[a].size, size) then Chunk(size, true)
                          else Chunk(s.chunks[a].size, true))
      && (x in s'.list <==> x in s.list && x != a)
  {
    var rest := s.list[..i] + s.list[i + 1..];
    WithoutMembers(s.list, i);
    hide Distinct, After;
  }

  lemma {:induction false} HandedAgrees(memory: Headers, p: Headers, s: State, s': State, a: Address, size: nat, x: Address)
    requires x in memory && x in s.chunks && Agrees(memory, s, x)
    requires SameButLinks(memory, p, x) && (x !in s.list ==> p[x] == memory[x])
    requires x in s'.chunks && s'.chunks[x] == if x != a then s.chunks[x] else Chunk(size, true)
    requires x in s'.list <==> x in s.list && x != a
    ensures Agrees(Handed(p, a, size), s', x)
  {
  }

  /** `p` is `memory` with links changed on the list only. */
  ghost predicate Unlisted(memory: Headers, p: Headers, list: seq<Address>) {
    && p.Keys == memory.Keys
    && forall x <- memory :: SameButLinks(memory, p, x) && (x !in list ==> p[x] == memory[x])
  }

  lemma {:induction false} UnlinkRelinks(memory: Headers, first: Address, s: State, i: nat)
    requires Represents(memory, first, s) && i < |s.list|
    ensures Unlisted(memory, Unlinked(memory, s.list, i), s.list)
  {
    ListedHeaders(memory, first, s.list);
    UnlinkedFrame(memory, first, s.list, i, s.list[i]);
    forall x | x in memory
      ensures var p := Unlinked(memory, s.list, i); SameButLinks(memory, p, x) && (x !in s.list ==> p[x] == memory[x])
    {
      UnlinkedFrame(memory, first, s.list, i, x);
    }
    hide Chained, Unlinked, SameButLinks;
  }

  lemma {:induction false} TakeWholeOne(memory: Headers, p: Headers, first: Address, s: State, i: nat, size: nat, x: Address)
    requires Represents(memory, first, s) && Known(s) && Distinct(s.list) && i < |s.list| && x in s.chunks
    requires !Splits(s.chunks[s.list[i]].size, size) && Unlisted(memory, p, s.list)
    ensures x in p && x in TakenAt(s, i, size).chunks
    ensures Agrees(Handed(p, s.list[i], s.chunks[s.list[i]].size), TakenAt(s, i, size), x)
  {
    HeaderExists(memory, first, s, x);
    TakenAtOne(s, i, size, x);
    assert Agrees(memory, s, x) && SameButLinks(memory, p, x);
    hide Represents, Known, Distinct, TakenAt, Unlisted;
    HandedAgrees(memory, p, s, TakenAt(s, i, size), s.list[i], s.chunks[s.list[i]].size, x);
    hide Agrees, SameButLinks;
  }

  lemma {:induction false} TakeWholeFrom(memory: Headers, p: Headers, first: Address, first': Address, s: State, i: nat, size: nat)
    requires Represents(memory, first, s) && Known(s) && Distinct(s.list) && i < |s.list|
    requires !Splits(s.chunks[s.list[i]].size, size) && Unlisted(memory, p, s.list)
    requires Chained(p, first', s.list[..i] + s.list[i + 1..])
    ensures Represents(Handed(p, s.list[i], s.chunks[s.list[i]].size), first', TakenAt(s, i, size))
  {
    hide Chained, Distinct, Agrees;
    var a := s.list[i];
    var m', s' := Handed(p, a, s.chunks[a].size), TakenAt(s, i, size);
    WithoutMembers(s.list, i);
    ChainedFrame(p, m', first', s'.list);
    forall x | x in s.chunks ensures x in m' && x in s'.chunks && Agrees(m', s', x) {
      TakeWholeOne(memory, p, first, s, i, size, x);
    }
    HeaderExists(memory, first, s, a);
    assert m'.Keys == s'.chunks.Keys;
  }

  /** A chunk taken whole. */
  lemma {:induction false} TakeWhole(memory: Headers, first: Address, s: State, start: Address, end: Address, i: nat, size: nat)
    requires Represents(memory, first, s) && Inv(s, start, end) && i < |s.list|
    requires !Splits(s.chunks[s.list[i]].size, size)
    ensures var a, m := s.list[i], Unlinked(memory, s.list, i);
      Represents(Handed(m, a, s.chunks[a].size), if i == 0 then Nth(s.list, 1) else first, TakenAt(s, i, size))
  {
    InvKnown(s, start, end);
    ChainOf(memory, first, s);
    hide Inv, Represents, Unlinked, Unlisted, Chained, TakenAt, Handed, Distinct;
    UnlinkRelinks(memory, first, s, i);
    Unlinking(memory, first, s.list, i);
    TakeWholeFrom(memory, Unlinked(memory, s.list, i), first, if i == 0 then Nth(s.list, 1) else first, s, i, size);
  }

  lemma {:induction false} ChainOf(memory: Headers, first: Address, s: State)
    requires Represents(memory, first, s)
    ensures Chained(memory, first, s.list) && NULL !in memory
  {
  }

  /** The list and the headers after a split, before the chunk in front is handed out. */
  lemma {:induction false} SplitHeaders(memory: Headers, first: Address, s: State, i: nat, t: Address, rest: Address, x: Address)
    requires Represents(memory, first, s) && i < |s.list| && t !in memory && x in s.chunks
    ensures var m := Unlinked(memory, s.list, i);
      var p := Prepended(m, if i == 0 then Nth(s.list, 1) else first, t, rest);
      && x in p && SameButLinks(memory, p, x)
      && (x !in s.list ==> p[x] == memory[x])
      && t in p && p[t].size == rest && !p[t].inUse && p[t].sizeClass == |SIZE_CLASSES|
      && p.Keys == memory.Keys + {t} && NULL !in m
  {
    var m, first' := Unlinked(memory, s.list, i), if i == 0 then Nth(s.list, 1) else first;
    UnlinkedFrame(memory, first, s.list, i, x);
    Unlinking(memory, first, s.list, i);
    WithoutMembers(s.list, i);
    PrependedFrame(m, first', s.list[..i] + s.list[i + 1..], t, rest, x);
    hide Chained, Distinct, Unlinked;
  }

  lemma {:induction false} SplitList(memory: Headers, first: Address, s: State, i: nat, t: Address, rest: Address)
    requires Represents(memory, first, s) && i < |s.list| && t !in memory && t != NULL
    ensures var m := Unlinked(memory, s.list, i);
      Chained(Prepended(m, if i == 0 then Nth(s.list, 1) else first, t, rest), t, [t] + (s.list[..i] + s.list[i + 1..]))
  {
    var m, first' := Unlinked(memory, s.list, i), if i == 0 then Nth(s.list, 1) else first;
    Unlinking(memory, first, s.list, i);
    WithoutMembers(s.list, i);
    ListedHeaders(memory, first, s.list);
    UnlinkedFrame(memory, first, s.list, i, s.list[i]);
    Prepending(m, first', s.list[..i] + s.list[i + 1..], t, rest);
    hide Chained, Distinct, Unlinked, Prepended;
  }

  /** `p` is `memory` with a new header at `t` and links changed on the list only. */
  ghost predicate Relinked(memory: Headers, p: Headers, list: seq<Address>, t: Address, size: nat) {
    && p.Keys == memory.Keys + {t}
    && p[t].size == size && !p[t].inUse && p[t].sizeClass == |SIZE_CLASSES|
    && (forall x <- memory :: SameButLinks(memory, p, x) && (x !in list ==> p[x] == memory[x]))
  }

  lemma {:induction false} SplitRelinks(memory: Headers, first: Address, s: State, i: nat, t: Address, rest: nat)
    requires Represents(memory, first, s) && i < |s.list| && t !in memory
    ensures Relinked(memory, Prepended(Unlinked(memory, s.list, i), if i == 0 then Nth(s.list, 1) else first, t, rest), s.list, t, rest)
  {
    ListedHeaders(memory, first, s.list);
    HeaderExists(memory, first, s, s.list[i]);
    SplitHeaders(memory, first, s, i, t, rest, s.list[i]);
    forall x | x in memory
      ensures var p := Prepended(Unlinked(memory, s.list, i), if i == 0 then Nth(s.list, 1) else first, t, rest);
        SameButLinks(memory, p, x) && (x !in s.list ==> p[x] == memory[x])
    {
      HeaderExists(memory, first, s, x);
      SplitHeaders(memory, first, s, i, t, rest, x);
    }
    hide Represents, Unlinked, Prepended, SameButLinks;
  }

  lemma {:induction false} TakePartOne(memory: Headers, p: Headers, first: Address, s: State, i: nat, size: nat, x: Address)
    requires Represents(memory, first, s) && Known(s) && Distinct(s.list) && i < |s.list| && x in s.chunks
    requires Splits(s.chunks[s.list[i]].size, size)
    requires var t := s.list[i] + HEADER + size;
      t !in s.chunks && Relinked(memory, p, s.list, t, s.chunks[s.list[i]].size - size - HEADER)
    ensures x in p && x in TakenAt(s, i, size).chunks && Agrees(Handed(p, s.list[i], size), TakenAt(s, i, size), x)
  {
    HeaderExists(memory, first, s, x);
    TakenAtOne(s, i, size, x);
    assert Agrees(memory, s, x) && SameButLinks(memory, p, x);
    hide Represents, Known, Distinct, TakenAt, Relinked;
    HandedAgrees(memory, p, s, TakenAt(s, i, size), s.list[i], size, x);
    hide Agrees, SameButLinks;
  }

  lemma {:induction false} TakePartFrom(memory: Headers, p: Headers, first: Address, s: State, i: nat, size: nat)
    requires Represents(memory, first, s) && Known(s) && Distinct(s.list) && i < |s.list|
    requires Splits(s.chunks[s.list[i]].size, size)
    requires var t := s.list[i] + HEADER + size;
      && t !in s.chunks && Relinked(memory, p, s.list, t, s.chunks[s.list[i]].size - size - HEADER)
      && Chained(p, t, [t] + (s.list[..i] + s.list[i + 1..]))
    ensures Represents(Handed(p, s.list[i], size), s.list[i] + HEADER + size, TakenAt(s, i, size))
  {
    var a, t := s.list[i], s.list[i] + HEADER + size;
    var m', s' := Handed(p, a, size), TakenAt(s, i, size);
    HeaderExists(memory, first, s, a);
    assert m'.Keys == s'.chunks.Keys;
    assert Agrees(m', s', t);
    hide Chained, Distinct, Agrees, Relinked;
    WithoutMembers(s.list, i);
    ChainedFrame(p, m', t, s'.list);
    forall x | x in s.chunks ensures x in m' && x in s'.chunks && Agrees(m', s', x) {
      TakePartOne(memory, p, first, s, i, size, x);
    }
  }

  lemma {:induction false} InvKnown(s: State, start: Address, end: Address)
    requires Inv(s, start, end)
    ensures Known(s) && Distinct(s.list) && forall a <- s.list :: !s.chunks[a].live
  {
  }

  lemma {:induction false} FreshHeader(memory: Headers, first: Address, s: State, start: Address, end: Address, i: nat, size: nat)
    requires Represents(memory, first, s) && Inv(s, start, end) && i < |s.list|
    requires Splits(s.chunks[s.list[i]].size, size)
    ensures s.list[i] + HEADER + size !in s.chunks && s.list[i] + HEADER + size !in memory
  {
    TiledCutFresh(s, start, end, i, size);
    HeaderExists(memory, first, s, s.list[i] + HEADER + size);
  }

  lemma {:induction false} ListChunk(s: State, i: nat)
    requires Known(s) && i < |s.list|
    ensures s.list[i] in s.chunks
  {
  }

  /** A chunk cut in two. */
  lemma {:induction false} TakePart(memory: Headers, first: Address, s: State, start: Address, end: Address, i: nat, size: nat)
    requires Represents(memory, first, s) && Inv(s, start, end) && i < |s.list|
    requires Splits(s.chunks[s.list[i]].size, size)
    ensures var a, m := s.list[i], Unlinked(memory, s.list, i);
      var t := a + HEADER + size;
      && t !in s.chunks
      && var p := Prepended(m, if i == 0 then Nth(s.list, 1) else first, t, s.chunks[a].size - size - HEADER);
      Represents(Handed(p, a, size), t, TakenAt(s, i, size))
  {
    hide Inv, Represents, Unlinked, Prepended, Relinked, Chained, TakenAt, Handed, Distinct, Known;
    InvKnown(s, start, end);
    assert s.list[i] in s.chunks by {
      ListChunk(s, i);
    }
    var a, m := s.list[i], Unlinked(memory, s.list, i);
    var t, rest := a + HEADER + size, s.chunks[a].size - size - HEADER;
    FreshHeader(memory, first, s, start, end, i, size);
    var p := Prepended(m, if i == 0 then Nth(s.list, 1) else first, t, rest);
    SplitList(memory, first, s, i, t, rest);
    SplitRelinks(memory, first, s, i, t, rest);
    TakePartFrom(memory, p, first, s, i, size);
  }

  lemma {:induction false} ReleasedRepresents(memory: Headers, first: Address, s: State, a: Address)
    requires Represents(memory, first, s) && a in s.chunks && a in memory && a !in s.list
    ensures Represents(memory[a := memory[a].(inUse := false)], first, Released(s, a))
  {
    var m, s' := memory[a := memory[a].(inUse := false)], Released(s, a);
    ListedHeaders(memory, first, s.list);
    ChainedFrame(memory, m, first, s.list);
    forall x | x in s.chunks ensures x in m && Agrees(m, s', x) {
      HeaderExists(memory, first, s, x);
      assert Agrees(memory, s, x);
    }
    hide Chained;
  }

  /** What the search has found, once it is off the list. */
  lemma {:induction false} AfterUnlink(memory: Headers, first: Address, s: State, start: Address, end: Address, i: nat, size: nat)
    requires Represents(memory, first, s) && Inv(s, start, end) && i < |s.list| && size <= s.chunks[s.list[i]].size
    requires MIN_ALLOC <= start && end <= WORD && size % MIN_ALLOC == 0
    ensures Known(s)
    ensures var a, m := s.list[i], Unlinked(memory, s.list, i);
      && a in m && m[a].size == s.chunks[a].size && size + HEADER + MIN_ALLOC < WORD
      && (Splits(s.chunks[a].size, size) ==> a + HEADER + size !in memory)
    ensures var m, first' := Unlinked(memory, s.list, i), if i == 0 then Nth(s.list, 1) else first;
      && Chained(memory, first, s.list) && NULL !in memory
      && NULL !in m && (first' == NULL || first' in m)
  {
    var a, m := s.list[i], Unlinked(memory, s.list, i);
    assert a in s.list && Agrees(memory, s, a);
    UnlinkedFrame(memory, first, s.list, i, a);
    SplitFits(s, start, end, a, size);
    if Splits(s.chunks[a].size, size) {
      TiledCutFresh(s, start, end, i, size);
    }
    assert i == 0 && |s.list| > 1 ==> s.list[1] in s.list;
    assert s.list[0] in s.list;
    hide Unlinked, Tiled;
  }

  class MemoryManager {
    var first: Address
    /** The chunk headers, by their address. */
    var memory: Headers
    ghost var start: Address
    ghost var end: Address
    ghost var state: State

    ghost predicate Valid()
      reads this
    {
      && MIN_ALLOC <= start && end <= WORD
      && Inv(state, start, end)
      && Represents(memory, first, state)
    }

    constructor (from: Address, size: nat)
      requires MIN_ALLOC <= from && from + size <= WORD
      ensures Valid() && state == Start(from, size) && start == from && end == End(from, size)
    {
      if size < HEADER {
        first := NULL;
        memory := map[];
      } else {
        first := from;
        memory := map[from := MemoryChunk(NULL, NULL, false, size - HEADER, |SIZE_CLASSES|)];
      }
      start, end, state := from, End(from, size), Run(from, size, []);
      new;
      assert forall i | 0 <= i < |state.list| :: NodeAt(memory, state.list, i);
    }

    /** The search of the list: the address of the best fit, or 0. */
    method FindBestFit(size: nat) returns (best: Address)
      requires Valid()
      ensures match BestFit(state, size, |state.list|)
        case Some(i) => best == state.list[i] && best != NULL
        case None => best == NULL
    {
      hide Inv;
      InvKnown(state, start, end);
      ghost var i := 0;
      ghost var b := None;
      best := NULL;
      var current := first;
      while current != NULL
        invariant i <= |state.list| && current == Nth(state.list, i)
        invariant b == BestFit(state, size, i) && best == if b.Some? then state.list[b.value] else NULL
        decreases |state.list| - i
      {
        assert NodeAt(memory, state.list, i) && current in state.list && Agrees(memory, state, current);
        if !memory[current].inUse && memory[current].size >= size {
          assert b.Some? ==> state.list[b.value] in state.list && Agrees(memory, state, best);
          if best == NULL || memory[current].size < memory[best].size {
            best := current;
            b := Some(i);
          }
        }
        current := memory[current].next;
        i := i + 1;
      }
    }

    method Unlink(a: Address, ghost i: nat)
      requires Chained(memory, first, state.list) && NULL !in memory && i < |state.list| && a == state.list[i]
      modifies this`first, this`memory
      ensures memory == Unlinked(old(memory), state.list, i)
      ensures first == if i == 0 then Nth(state.list, 1) else old(first)
    {
      assert NodeAt(memory, state.list, i);
      assert i > 0 ==> NodeAt(memory, state.list, i - 1);
      assert i + 1 < |state.list| ==> NodeAt(memory, state.list, i + 1);
      var chunk := memory[a];
      if chunk.prev != NULL {
        memory := memory[chunk.prev := memory[chunk.prev].(next := chunk.next)];
      } else {
        first := chunk.next;
      }
      if chunk.next != NULL {
        memory := memory[chunk.next := memory[chunk.next].(prev := chunk.prev)];
      }
    }

    /** The rest of chunk `a`, beyond `size` bytes, becomes a chunk of its own at the front of the list. */
    method Split(a: Address, size: nat)
      requires a in memory && memory[a].size >= size + HEADER && NULL !in memory && (first == NULL || first in memory)
      modifies this`first, this`memory
      ensures first == a + HEADER + size
      ensures var p := Prepended(old(memory), old(first), first, old(memory)[a].size - size - HEADER);
        a in p && memory == p[a := p[a].(size := size)]
    {
      var temp := a + HEADER + size;
      memory := memory[temp := MemoryChunk(first, NULL, false, memory[a].size - size - HEADER, |SIZE_CLASSES|)];
      if first != NULL {
        memory := memory[first := memory[first].(prev := temp)];
      }
      first := temp;
      memory := memory[a := memory[a].(size := size)];
    }

    /**
     The large path: the address of a block of at least `size` bytes, or 0. The chunk is cut if what
     is left over can hold a header and a smallest block.
     */
    method AllocateLarge(size: nat) returns (address: Address)
      requires Valid() && size % MIN_ALLOC == 0
      modifies this
      ensures Valid() && start == old(start) && end == old(end)
      ensures state == Taken(old(state), size).0
      ensures address == match Taken(old(state), size).1 case Some(p) => p case None => NULL
    {
      hide Inv, Represents, Unlinked, TakenAt, BestFit, Known, Chained;
      InvKnown(state, start, end);
      var best := FindBestFit(size);
      if best == NULL {
        return NULL;
      }
      ghost var i := BestFit(state, size, |state.list|).value;
      AfterUnlink(memory, first, state, start, end, i, size);
      ghost var have := state.chunks[best].size;
      if Splits(have, size) {
        TakePart(memory, first, state, start, end, i, size);
      } else {
        TakeWhole(memory, first, state, start, end, i, size);
      }
      TakenAtKeeps(state, start, end, i, size);
      Unlink(best, i);
      ghost var m, head := memory, first;
      if memory[best].size >= (size + HEADER + MIN_ALLOC) % WORD {
        Split(best, size);
      }
      memory := memory[best := MemoryChunk(NULL, NULL, true, memory[best].size, |SIZE_CLASSES|)];
      assert memory == Handed(if Splits(have, size) then Prepended(m, head, best + HEADER + size, have - size - HEADER) else m,
                              best, if Splits(have, size) then size else have);
      state := TakenAt(state, i, size);
      address := best + HEADER;
    }

    method GetSizeClassIndex(size: nat) returns (index: nat)
      ensures index == ClassIndex(size, 0)
    {
      for i := 0 to |SIZE_CLASSES|
        invariant ClassIndex(size, i) == ClassIndex(size, 0)
      {
        if size <= SIZE_CLASSES[i] {
          return i;
        }
      }
      return |SIZE_CLASSES|;
    }

    /** A request that is too large for the size classes. */
    method Malloc(size: nat) returns (address: Address)
      requires Valid() && 1024 < size <= WORD - MIN_ALLOC
      modifies this
      ensures Valid() && start == old(start) && end == old(end)
      ensures state == Taken(old(state), Rounded(size)).0
      ensures address == match Taken(old(state), Rounded(size)).1 case Some(p) => p case None => NULL
    {
      LargeExactly(size);
      InvKnown(state, start, end);
      var rounded := (size + MIN_ALLOC - 1) % WORD / MIN_ALLOC * MIN_ALLOC;
      var index := GetSizeClassIndex(rounded);
      assert index == |SIZE_CLASSES|;
      address := AllocateLarge(rounded);
    }

    /**
     Gives back a block from the large path. Its chunk is off the list and so has no links: neither
     of the loops that merge a chunk with its neighbours is entered, and the chunk stays off the list.
     */
    method Free(pointer: Address)
      requires Valid()
      requires pointer == NULL || (HEADER <= pointer && pointer - HEADER in state.chunks && pointer - HEADER !in state.list)
      modifies this`memory, this`state
      ensures Valid()
      ensures state == if pointer == NULL then old(state) else Released(old(state), pointer - HEADER)
    {
      if pointer == NULL {
        return;
      }
      var chunk := pointer - HEADER;
      HeaderExists(memory, first, state, chunk);
      assert Agrees(memory, state, chunk);
      ReleasedKeeps(state, start, end, chunk);
      ReleasedRepresents(memory, first, state, chunk);
      hide Represents, Inv;
      memory := memory[chunk := memory[chunk].(inUse := false)];
      if memory[chunk].prev != NULL || memory[chunk].next != NULL {
        assert false;
      }
      state := Released(state, chunk);
    }
  }

  /** Requests are for rounded sizes, and callers give back only what they were given. */
  ghost predicate Legal(from: Address, size: nat, ops: seq<Op>) {
    forall i :: 0 <= i < |ops| ==>
      match ops[i]
      case Request(n) => n % MIN_ALLOC == 0
      case Release(a) => var s := Run(from, size, ops[..i]); a in s.chunks && a !in s.list
  }

  /** After every run the headers and links represent the abstract heap of that run. */
  method RunHeap(from: Address, size: nat, ops: seq<Op>) returns (m: MemoryManager)
    requires MIN_ALLOC <= from && from + size <= WORD && Legal(from, size, ops)
    ensures m.Valid() && m.state == Run(from, size, ops)
  {
    hide Inv, Represents, BestFit;
    m := new MemoryManager(from, size);
    assert ops[..0] == [];
    for i := 0 to |ops|
      invariant fresh(m) && m.Valid() && m.state == Run(from, size, ops[..i])
    {
      assert ops[..i + 1][..i] == ops[..i] && ops[..i + 1][i] == ops[i];
      match ops[i]
      case Request(n) => var _ := m.AllocateLarge(n);
      case Release(a) => m.Free(a + HEADER);
    }
    assert ops[..|ops|] == ops;
  }
}
