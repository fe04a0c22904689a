/**
 The kernel heap for large blocks: chunks, each a header followed by its payload, that tile an
 address range. A best-fit search picks a chunk from the list of those never handed out.
 */
module Heap {
  import opened Machine

  /** The size of a chunk header: two pointers, a flag, a size and a class, with padding. */
  const HEADER := 20
  const MIN_ALLOC := 16
  const SIZE_CLASSES := [16, 32, 64, 128, 256, 512, 1024]

  type Address = nat

  datatype Chunk = Chunk(size: nat, live: bool)

  /**
   All chunks ever carved, their order in memory, and the list to allocate from. A chunk that is
   neither live nor listed has been released.
   */
  datatype State = State(chunks: map<Address, Chunk>, order: seq<Address>, list: seq<Address>)

  // ---------- request sizes ----------

  /** Requests are rounded up to a multiple of the smallest block, in 32 bits. */
  function Rounded(size: nat): nat {
    (size + MIN_ALLOC - 1) % WORD / MIN_ALLOC * MIN_ALLOC
  }

  /** The first class from `i` on that is large enough. */
  function ClassIndex(size: nat, i: nat): (r: nat)
    requires i <= |SIZE_CLASSES|
    ensures i <= r <= |SIZE_CLASSES| && (forall j :: i <= j < r ==> SIZE_CLASSES[j] < size)
    ensures r < |SIZE_CLASSES| ==> size <= SIZE_CLASSES[r]
    decreases |SIZE_CLASSES| - i
  {
    if i == |SIZE_CLASSES| || size <= SIZE_CLASSES[i] then i else ClassIndex(size, i + 1)
  }

  /** A request is served by the large path exactly if it is above 1 KB and its rounding does not wrap. */
  lemma {:induction false} LargeExactly(size: nat)
    requires size < WORD
    ensures ClassIndex(Rounded(size), 0) == |SIZE_CLASSES| <==> 1024 < size <= WORD - MIN_ALLOC
    ensures size <= Rounded(size) < size + MIN_ALLOC <==> size <= WORD - MIN_ALLOC
  {
    var c := ClassIndex(Rounded(size), 0);
    assert c == |SIZE_CLASSES| ==> SIZE_CLASSES[6] < Rounded(size);
    assert c < |SIZE_CLASSES| ==> SIZE_CLASSES[c] <= 1024;
    if size <= WORD - MIN_ALLOC {
      assert Rounded(size) == (size + MIN_ALLOC - 1) / MIN_ALLOC * MIN_ALLOC;
    } else {
      assert Rounded(size) == 0;
    }
  }

  // ---------- best fit ----------

  ghost predicate Known(s: State) {
    forall a <- s.list :: a in s.chunks
  }

  /** The position of the best fit among the first `n` chunks of the list. */
  function BestFit(s: State, size: nat, n: nat): (r: Option<nat>)
    requires Known(s) && n <= |s.list|
    ensures r.Some? ==> r.value < n && Better(s, size, r.value, n)
    ensures r == None ==> forall j :: 0 <= j < n ==> s.chunks[s.list[j]].size < size
  {
    if n == 0 then None
    else
      var b := BestFit(s, size, n - 1);
      var c := s.chunks[s.list[n - 1]];
      if c.size >= size && (b == None || c.size < s.chunks[s.list[b.value]].size) then Some(n - 1) else b
  }

  /** Position `i` is the first of the smallest sufficient chunks among the first `n`. */
  ghost predicate Better(s: State, size: nat, i: nat, n: nat)
    requires Known(s) && i < n <= |s.list|
  {
    var best := s.chunks[s.list[i]].size;
    && best >= size
    && (forall j :: 0 <= j < n && s.chunks[s.list[j]].size >= size ==> best <= s.chunks[s.list[j]].size)
    && (forall j :: 0 <= j < i ==> s.chunks[s.list[j]].size != best)
  }

  // ---------- the operations ----------

  function After(order: seq<Address>, a: Address, t: Address): seq<Address> {
    if order == [] then []
    else if order[0] == a then [a, t] + order[1..]
    else [order[0]] + After(order[1..], a, t)
  }

  /** Whether a chunk is cut in two when only `size` bytes of it are needed. */
  predicate Splits(have: nat, size: nat) {
    have >= size + HEADER + MIN_ALLOC
  }

  function TakenAt(s: State, i: nat, size: nat): State
    requires Known(s) && i < |s.list|
  {
    var a := s.list[i];
    var rest := s.list[..i] + s.list[i + 1..];
    var have := s.chunks[a].size;
    if Splits(have, size) then
      var t := a + HEADER + size;
      State(s.chunks[a := Chunk(size, true)][t := Chunk(have - size - HEADER, false)], After(s.order, a, t), [t] + rest)
    else
      State(s.chunks[a := Chunk(have, true)], s.order, rest)
  }

  /** The state and the address of the payload after a request. */
  function Taken(s: State, size: nat): (State, Option<Address>)
    requires Known(s)
  {
    match BestFit(s, size, |s.list|)
    case None => (s, None)
    case Some(i) => (TakenAt(s, i, size), Some(s.list[i] + HEADER))
  }

  /** Giving back only clears the flag: the chunk does not return to the list. */
  function Released(s: State, a: Address): State
    requires a in s.chunks
  {
    s.(chunks := s.chunks[a := s.chunks[a].(live := false)])
  }

  // ---------- the chunks tile the heap ----------

  /** From `from`, the chunks of `order` follow each other without a gap up to `end`. */
  ghost predicate Tiled(chunks: map<Address, Chunk>, order: seq<Address>, from: Address, end: Address) {
    if order == [] then from == end
    else order[0] == from && from in chunks && Tiled(chunks, order[1..], from + HEADER + chunks[from].size, end)
  }

  ghost predicate Distinct(q: seq<Address>) {
    forall i, j :: 0 <= i < j < |q| ==> q[i] != q[j]
  }

  ghost predicate Inv(s: State, start: Address, end: Address) {
    && Tiled(s.chunks, s.order, start, end)
    && (forall a :: a in s.chunks <==> a in s.order)
    && Distinct(s.list)
    && (forall a <- s.list :: a in s.chunks && !s.chunks[a].live)
  }

  lemma {:induction false} TiledBounds(chunks: map<Address, Chunk>, order: seq<Address>, from: Address, end: Address, a: Address)
    requires Tiled(chunks, order, from, end)
    ensures from <= end
    ensures a in order ==> a in chunks && from <= a && a + HEADER + chunks[a].size <= end
  {
    if order != [] {
      TiledBounds(chunks, order[1..], from + HEADER + chunks[from].size, end, a);
    }
  }

  /** Two chunks never overlap. */
  lemma {:induction false} TiledApart(chunks: map<Address, Chunk>, order: seq<Address>, from: Address, end: Address, a: Address, b: Address)
    requires Tiled(chunks, order, from, end) && a in order && b in order && a < b
    ensures a in chunks && a + HEADER + chunks[a].size <= b
  {
    var rest, next := order[1..], from + HEADER + chunks[from].size;
    TiledBounds(chunks, order, from, end, a);
    TiledBounds(chunks, rest, next, end, b);
    TiledBounds(chunks, rest, next, end, a);
    if a != from {
      TiledApart(chunks, rest, next, end, a, b);
    }
  }

  function Extent(chunks: map<Address, Chunk>, order: seq<Address>): nat {
    if order == [] then 0
    else HEADER + (if order[0] in chunks then chunks[order[0]].size else 0) + Extent(chunks, order[1..])
  }

  lemma {:induction false} TiledExtent(chunks: map<Address, Chunk>, order: seq<Address>, from: Address, end: Address)
    requires Tiled(chunks, order, from, end)
    ensures Extent(chunks, order) == end - from
  {
    if order != [] {
      TiledExtent(chunks, order[1..], from + HEADER + chunks[from].size, end);
    }
  }

  lemma {:induction false} TiledSame(c: map<Address, Chunk>, c': map<Address, Chunk>, order: seq<Address>, from: Address, end: Address)
    requires Tiled(c, order, from, end)
    requires forall a <- order :: a in c' && (a in c ==> c'[a].size == c[a].size)
    ensures Tiled(c', order, from, end)
  {
    if order != [] {
      TiledSame(c, c', order[1..], from + HEADER + c[from].size, end);
    }
  }

  lemma {:induction false} AfterMembers(order: seq<Address>, a: Address, t: Address, x: Address)
    requires a in order
    ensures x in After(order, a, t) <==> x in order || x == t
  {
    assert order == [order[0]] + order[1..];
    if order[0] != a {
      AfterMembers(order[1..], a, t, x);
    }
  }

  /** Cutting a chunk in two keeps the tiling. */
  lemma {:induction false} TiledCut(chunks: map<Address, Chunk>, order: seq<Address>, from: Address, end: Address, a: Address, size: nat)
    requires Tiled(chunks, order, from, end) && a in order && a in chunks && chunks[a].size >= size + HEADER
    ensures var t := a + HEADER + size;
      && t !in order
      && Tiled(chunks[a := Chunk(size, true)][t := Chunk(chunks[a].size - size - HEADER, false)], After(order, a, t), from, end)
  {
    var t := a + HEADER + size;
    var c' := chunks[a := Chunk(size, true)][t := Chunk(chunks[a].size - size - HEADER, false)];
    var rest, next := order[1..], from + HEADER + chunks[from].size;
    assert order == [order[0]] + rest;
    if a == from {
      forall x <- rest ensures x != t && x != a && x in chunks {
        TiledBounds(chunks, rest, next, end, x);
      }
      TiledSame(chunks, c', rest, next, end);
      var r := [a, t] + rest;
      assert r[1..] == [t] + rest && r[1..][1..] == rest;
    } else {
      TiledCut(chunks, rest, next, end, a, size);
      TiledBounds(chunks, rest, next, end, a);
      var r := [from] + After(rest, a, t);
      assert r[1..] == After(rest, a, t);
    }
  }

  /** The comparison that decides on a split does not wrap in 32 bits. */
  lemma {:induction false} SplitFits(s: State, start: Address, end: Address, a: Address, size: nat)
    requires Inv(s, start, end) && a in s.chunks && size <= s.chunks[a].size && size % MIN_ALLOC == 0
    requires MIN_ALLOC <= start && end <= WORD
    ensures size + HEADER + MIN_ALLOC < WORD && a + HEADER + s.chunks[a].size <= end
  {
    TiledBounds(s.chunks, s.order, start, end, a);
  }

  lemma {:induction false} WithoutMembers(q: seq<Address>, i: nat)
    requires i < |q| && Distinct(q)
    ensures var r := q[..i] + q[i + 1..];
      Distinct(r) && forall x :: x in r <==> x in q && x != q[i]
  {
    var r := q[..i] + q[i + 1..];
    forall x ensures x in r <==> x in q && x != q[i] {
      if x in q && x != q[i] {
        var j :| 0 <= j < |q| && q[j] == x;
        assert r[if j < i then j else j - 1] == x;
      }
    }
    forall j, k | 0 <= j < k < |r| ensures r[j] != r[k] {
      assert r[j] == q[if j < i then j else j + 1] && r[k] == q[if k < i then k else k + 1];
    }
  }

  lemma {:induction false} PrependDistinct(t: Address, q: seq<Address>)
    requires Distinct(q) && t !in q
    ensures Distinct([t] + q) && forall x :: x in [t] + q <==> x == t || x in q
  {
    var r := [t] + q;
    forall j, k | 0 <= j < k < |r| ensures r[j] != r[k] {
      assert r[k] == q[k - 1];
      assert j > 0 ==> r[j] == q[j - 1];
    }
  }

  lemma {:induction false} AfterMembersAll(order: seq<Address>, a: Address, t: Address)
    requires a in order
    ensures forall x :: x in After(order, a, t) <==> x in order || x == t
  {
    forall x ensures x in After(order, a, t) <==> x in order || x == t {
      AfterMembers(order, a, t, x);
    }
  }

  lemma {:induction false} CutKeeps(s: State, start: Address, end: Address, i: nat, size: nat)
    requires Inv(s, start, end) && i < |s.list| && Splits(s.chunks[s.list[i]].size, size)
    ensures Inv(TakenAt(s, i, size), start, end)
  {
    hide Tiled, Distinct, After;
    var a := s.list[i];
    var t, rest := a + HEADER + size, s.list[..i] + s.list[i + 1..];
    WithoutMembers(s.list, i);
    TiledCut(s.chunks, s.order, start, end, a, size);
    AfterMembersAll(s.order, a, t);
    assert t !in rest;
    PrependDistinct(t, rest);
  }

  lemma {:induction false} TakenAtKeeps(s: State, start: Address, end: Address, i: nat, size: nat)
    requires Inv(s, start, end) && i < |s.list|
    ensures Inv(TakenAt(s, i, size), start, end)
  {
    if Splits(s.chunks[s.list[i]].size, size) {
      CutKeeps(s, start, end, i, size);
    } else {
      WithoutMembers(s.list, i);
      TiledSame(s.chunks, TakenAt(s, i, size).chunks, s.order, start, end);
    }
    hide Tiled, Distinct, After;
  }

  /** A request keeps the tiling and the list of chunks never handed out. */
  lemma {:induction false} TakenKeeps(s: State, start: Address, end: Address, size: nat)
    requires Inv(s, start, end)
    ensures Inv(Taken(s, size).0, start, end)
  {
    var b := BestFit(s, size, |s.list|);
    if b.Some? {
      TakenAtKeeps(s, start, end, b.value, size);
    }
    hide Inv, TakenAt;
  }

  lemma {:induction false} ReleasedKeeps(s: State, start: Address, end: Address, a: Address)
    requires Inv(s, start, end) && a in s.chunks
    ensures Inv(Released(s, a), start, end)
  {
    TiledSame(s.chunks, Released(s, a).chunks, s.order, start, end);
    hide Tiled;
  }

  lemma {:induction false} TiledCutFresh(s: State, start: Address, end: Address, i: nat, size: nat)
    requires Inv(s, start, end) && i < |s.list| && Splits(s.chunks[s.list[i]].size, size)
    ensures s.list[i] + HEADER + size !in s.chunks
  {
    TiledCut(s.chunks, s.order, start, end, s.list[i], size);
  }

  lemma {:induction false} TakenAtKept(s: State, start: Address, end: Address, i: nat, size: nat)
    requires Inv(s, start, end) && i < |s.list|
    ensures var s', rest := TakenAt(s, i, size), s.list[..i] + s.list[i + 1..];
      && s.list[i] in s'.chunks && s.list[i] !in rest
      && forall x <- s.chunks :: x != s.list[i] ==> x in s'.chunks && s'.chunks[x] == s.chunks[x]
  {
    var a := s.list[i];
    WithoutMembers(s.list, i);
    if Splits(s.chunks[a].size, size) {
      TiledCut(s.chunks, s.order, start, end, a, size);
    }
    hide Tiled, Distinct, After;
  }

  /**
   What a request gets: the smallest listed chunk that is large enough, the first one of equals, cut
   down unless the rest could not hold a header and a smallest block. It fails only if no listed
   chunk is large enough, and then changes nothing. No other chunk changes.
   */
  lemma {:induction false} TakenServes(s: State, start: Address, end: Address, size: nat)
    requires Inv(s, start, end)
    ensures var (s', p) := Taken(s, size);
      match p
      case None => s' == s && forall a <- s.list :: s.chunks[a].size < size
      case Some(q) =>
        && HEADER <= q && q - HEADER in s.list && q - HEADER in s'.chunks && s'.chunks[q - HEADER].live
        && size <= s'.chunks[q - HEADER].size < size + HEADER + MIN_ALLOC
        && s'.chunks[q - HEADER].size <= s.chunks[q - HEADER].size
        && (forall a <- s.list :: s.chunks[a].size >= size ==> s.chunks[q - HEADER].size <= s.chunks[a].size)
        && (forall x <- s.chunks :: x != q - HEADER ==> x in s'.chunks && s'.chunks[x] == s.chunks[x])
  {
    var b := BestFit(s, size, |s.list|);
    if b.Some? {
      assert Better(s, size, b.value, |s.list|);
      TakenAtKept(s, start, end, b.value, size);
      if Splits(s.chunks[s.list[b.value]].size, size) {
        TiledCutFresh(s, start, end, b.value, size);
      }
    }
    hide Tiled, Distinct, BestFit, After;
  }

  /**
   When a chunk is cut: exactly if what is left beyond `size` bytes can hold a header of 20 bytes and
   a block of 16. Otherwise the chunk is handed out whole, and no chunk appears.
   */
  lemma {:induction false} TakenCuts(s: State, start: Address, end: Address, size: nat)
    requires Inv(s, start, end) && Taken(s, size).1.Some?
    ensures var (s', p) := Taken(s, size);
      && HEADER <= p.value && p.value - HEADER in s.list && p.value - HEADER in s'.chunks
      && var a, t := p.value - HEADER, p.value + size;
      if s.chunks[a].size >= size + 36 then
        && s'.chunks[a] == Chunk(size, true)
        && t !in s.chunks && s'.chunks.Keys == s.chunks.Keys + {t}
        && s'.chunks[t] == Chunk(s.chunks[a].size - size - 20, false)
        && s'.list != [] && s'.list[0] == t
      else
        && s'.chunks[a] == Chunk(s.chunks[a].size, true)
        && s'.chunks.Keys == s.chunks.Keys && forall x <- s'.list :: x in s.list && x != a
  {
    var i := BestFit(s, size, |s.list|).value;
    var a := s.list[i];
    assert a in s.list;
    WithoutMembers(s.list, i);
    if Splits(s.chunks[a].size, size) {
      TiledCutFresh(s, start, end, i, size);
    }
    hide Tiled, Distinct, After, BestFit;
    assert s.chunks.Keys + {a} == s.chunks.Keys;
  }

  /** Giving a chunk back clears its flag and changes nothing else. */
  lemma {:induction false} ReleasedLaw(s: State, a: Address)
    requires a in s.chunks
    ensures var s' := Released(s, a);
      && s'.chunks.Keys == s.chunks.Keys && s'.order == s.order && s'.list == s.list
      && !s'.chunks[a].live && s'.chunks[a].size == s.chunks[a].size
      && forall x <- s.chunks :: x != a ==> s'.chunks[x] == s.chunks[x]
  {
    assert s.chunks.Keys + {a} == s.chunks.Keys;
  }

  // ---------- what is left in the list ----------

  lemma {:induction false} ExtentSame(c: map<Address, Chunk>, c': map<Address, Chunk>, q: seq<Address>)
    requires forall a <- q :: a in c && a in c' && c'[a].size == c[a].size
    ensures Extent(c', q) == Extent(c, q)
  {
    if q != [] {
      ExtentSame(c, c', q[1..]);
    }
  }

  lemma {:induction false} ExtentWithout(c: map<Address, Chunk>, q: seq<Address>, i: nat)
    requires i < |q| && q[i] in c
    ensures Extent(c, q) == Extent(c, q[..i] + q[i + 1..]) + HEADER + c[q[i]].size
  {
    if i == 0 {
      assert q[..0] + q[1..] == q[1..];
    } else {
      var r := q[..i] + q[i + 1..];
      assert r[0] == q[0] && r[1..] == q[1..][..i - 1] + q[1..][i..];
      ExtentWithout(c, q[1..], i - 1);
    }
  }

  /** What is handed out leaves the list for good: the list shrinks by the chunk and its header. */
  lemma {:induction false} TakenAtSpends(s: State, start: Address, end: Address, i: nat, size: nat)
    requires Inv(s, start, end) && i < |s.list|
    ensures var s', a := TakenAt(s, i, size), s.list[i];
      && a in s'.chunks
      && Extent(s'.chunks, s'.list) + HEADER + s'.chunks[a].size == Extent(s.chunks, s.list)
      && (forall x <- s'.list :: x != a && (x in s.list || x !in s.chunks))
  {
    hide Tiled, Distinct, After;
    var a, s' := s.list[i], TakenAt(s, i, size);
    var rest := s.list[..i] + s.list[i + 1..];
    TakenAtKept(s, start, end, i, size);
    WithoutMembers(s.list, i);
    ExtentWithout(s.chunks, s.list, i);
    ExtentSame(s.chunks, s'.chunks, rest);
    if Splits(s.chunks[a].size, size) {
      TiledCut(s.chunks, s.order, start, end, a, size);
      assert s'.list[1..] == rest;
    }
  }

  // ---------- runs ----------

  datatype Op = Request(size: nat) | Release(a: Address)

  function Step(s: State, op: Op): State
    requires Known(s)
  {
    match op
    case Request(size) => Taken(s, size).0
    case Release(a) => if a in s.chunks && a !in s.list then Released(s, a) else s
  }

  function Start(start: Address, size: nat): State {
    if size < HEADER then State(map[], [], []) else State(map[start := Chunk(size - HEADER, false)], [start], [start])
  }

  /** Where the last chunk ends: a region too small for a header is not used at all. */
  function End(start: Address, size: nat): Address {
    if size < HEADER then start else start + size
  }

  lemma {:induction false} StartHolds(start: Address, size: nat)
    ensures Inv(Start(start, size), start, End(start, size))
  {
    var s := Start(start, size);
    if size >= HEADER {
      assert Tiled(s.chunks, [], start + size, start + size);
      assert s.order[1..] == [];
    }
  }

  function Run(start: Address, size: nat, ops: seq<Op>): (s: State)
    ensures Inv(s, start, End(start, size))
  {
    StartHolds(start, size);
    if ops == [] then Start(start, size)
    else
      var s := Run(start, size, ops[..|ops| - 1]);
      StepKeeps(s, start, End(start, size), ops[|ops| - 1]);
      Step(s, ops[|ops| - 1])
  }

  lemma {:induction false} StepKeeps(s: State, start: Address, end: Address, op: Op)
    requires Inv(s, start, end)
    ensures Inv(Step(s, op), start, end)
  {
    match op
    case Request(size) => TakenKeeps(s, start, end, size);
    case Release(a) =>
      if a in s.chunks {
        ReleasedKeeps(s, start, end, a);
      }
  }

  /** In every run all chunks ever carved are apart and, with their headers, add up to the heap. */
  lemma {:induction false} RunTiles(start: Address, size: nat, ops: seq<Op>)
    ensures var s, end := Run(start, size, ops), End(start, size);
      && Extent(s.chunks, s.order) == end - start
      && (forall a :: a in s.chunks <==> a in s.order)
      && (forall a <- s.chunks :: start <= a && a + HEADER + s.chunks[a].size <= end)
      && (forall a, b | a in s.chunks && b in s.chunks && a < b :: a + HEADER + s.chunks[a].size <= b)
      && Distinct(s.order)
  {
    var s, end := Run(start, size, ops), End(start, size);
    TiledExtent(s.chunks, s.order, start, end);
    forall a | a in s.chunks ensures start <= a && a + HEADER + s.chunks[a].size <= end {
      TiledBounds(s.chunks, s.order, start, end, a);
    }
    forall a, b | a in s.chunks && b in s.chunks && a < b ensures a + HEADER + s.chunks[a].size <= b {
      TiledApart(s.chunks, s.order, start, end, a, b);
    }
    TiledDistinct(s.chunks, s.order, start, end);
    hide Tiled, Run;
  }

  lemma {:induction false} TiledDistinct(chunks: map<Address, Chunk>, order: seq<Address>, from: Address, end: Address)
    requires Tiled(chunks, order, from, end)
    ensures Distinct(order)
  {
    if order != [] {
      var rest, next := order[1..], from + HEADER + chunks[from].size;
      TiledDistinct(chunks, rest, next, end);
      forall x <- rest ensures x != from {
        TiledBounds(chunks, rest, next, end, x);
      }
      forall i, j | 0 <= i < j < |order| ensures order[i] != order[j] {
        assert order[j] == rest[j - 1] && rest[j - 1] in rest;
        assert i > 0 ==> order[i] == rest[i - 1];
      }
    }
  }

  /** The chunk that a step hands out, if any. */
  function GrantedBy(s: State, op: Op): seq<Address>
    requires Known(s)
  {
    if op.Request? && Taken(s, op.size).1.Some? then [Taken(s, op.size).1.value - HEADER] else []
  }

  /** The chunks that a run has handed out, oldest first, whether or not they were given back. */
  function Granted(start: Address, size: nat, ops: seq<Op>): seq<Address> {
    if ops == [] then []
    else
      Granted(start, size, ops[..|ops| - 1]) + GrantedBy(Run(start, size, ops[..|ops| - 1]), ops[|ops| - 1])
  }

  /** A chunk that has been handed out keeps its size and stays off the list. */
  lemma {:induction false} StepKeepsGranted(s: State, start: Address, end: Address, op: Op, a: Address)
    requires Inv(s, start, end) && a in s.chunks && a !in s.list
    ensures var s' := Step(s, op);
      a in s'.chunks && s'.chunks[a].size == s.chunks[a].size && a !in s'.list
  {
    match op
    case Request(n) =>
      var b := BestFit(s, n, |s.list|);
      if b.Some? {
        assert s.list[b.value] in s.list;
        TakenAtSpends(s, start, end, b.value, n);
        TakenAtKept(s, start, end, b.value, n);
      }
      hide Inv, TakenAt;
    case Release(_) =>
  }

  lemma {:induction false} ExtentAppend(c: map<Address, Chunk>, q: seq<Address>, a: Address)
    requires a in c
    ensures Extent(c, q + [a]) == Extent(c, q) + HEADER + c[a].size
  {
    if q == [] {
      assert q + [a] == [a] && [a][1..] == [];
    } else {
      assert (q + [a])[1..] == q[1..] + [a];
      ExtentAppend(c, q[1..], a);
    }
  }

  lemma {:induction false} AppendDistinct(q: seq<Address>, a: Address)
    requires Distinct(q) && a !in q
    ensures Distinct(q + [a])
  {
  }

  /** The chunks of `g` are distinct, off the list, and with the list add up to `total`. */
  ghost predicate Spent(s: State, g: seq<Address>, total: nat) {
    && Distinct(g)
    && (forall a <- g :: a in s.chunks && a !in s.list)
    && Extent(s.chunks, g) + Extent(s.chunks, s.list) == total
  }

  lemma {:induction false} SpendOne(s: State, start: Address, end: Address, g: seq<Address>, i: nat, n: nat, total: nat)
    requires Inv(s, start, end) && i < |s.list| && Spent(s, g, total)
    ensures Spent(TakenAt(s, i, n), g + [s.list[i]], total)
  {
    var a, s' := s.list[i], TakenAt(s, i, n);
    TakenAtSpends(s, start, end, i, n);
    TakenAtKept(s, start, end, i, n);
    AppendDistinct(g, a);
    ExtentAppend(s'.chunks, g, a);
    ExtentSame(s.chunks, s'.chunks, g);
    hide Inv, TakenAt, Distinct, Extent;
  }

  lemma {:induction false} SpendStep(s: State, start: Address, end: Address, g: seq<Address>, op: Op, total: nat)
    requires Inv(s, start, end) && Spent(s, g, total)
    ensures Spent(Step(s, op), g + GrantedBy(s, op), total)
  {
    assert g + [] == g;
    match op
    case Request(n) =>
      var b := BestFit(s, n, |s.list|);
      if b.Some? {
        SpendOne(s, start, end, g, b.value, n, total);
      }
      hide Inv, TakenAt, Spent, BestFit;
    case Release(a) =>
      if a in s.chunks {
        ExtentSame(s.chunks, Released(s, a).chunks, g);
        ExtentSame(s.chunks, Released(s, a).chunks, s.list);
      }
      hide Distinct, Extent;
  }

  /**
   Freed chunks are not used again. In every run, whatever was given back in between, all chunks
   handed out are different ones, and together with what the list still holds they add up to the
   heap: the heap is a budget that only shrinks.
   */
  lemma {:induction false} NothingReused(start: Address, size: nat, ops: seq<Op>)
    ensures Spent(Run(start, size, ops), Granted(start, size, ops), End(start, size) - start)
    decreases |ops|
  {
    var total := End(start, size) - start;
    if ops == [] {
      var s := Start(start, size);
      StartHolds(start, size);
      TiledExtent(s.chunks, s.order, start, End(start, size));
    } else {
      var before, op := ops[..|ops| - 1], ops[|ops| - 1];
      NothingReused(start, size, before);
      SpendStep(Run(start, size, before), start, End(start, size), Granted(start, size, before), op, total);
      hide Spent, Inv, Step, GrantedBy;
    }
  }

  /** A chunk keeps the size with which it was handed out, and stays off the list, for the rest of every run. */
  lemma {:induction false} GrantedKept(start: Address, size: nat, ops: seq<Op>, i: nat, a: Address)
    requires i <= |ops| && a in Granted(start, size, ops[..i])
    ensures var s, s' := Run(start, size, ops[..i]), Run(start, size, ops);
      a in s.chunks && a in s'.chunks && s'.chunks[a].size == s.chunks[a].size && a !in s'.list
    decreases |ops|
  {
    NothingReused(start, size, ops[..i]);
    if i == |ops| {
      assert ops[..i] == ops;
    } else {
      var before, op := ops[..|ops| - 1], ops[|ops| - 1];
      assert before[..i] == ops[..i];
      GrantedKept(start, size, before, i, a);
      StepKeepsGranted(Run(start, size, before), start, End(start, size), op, a);
      hide Spent, Inv, Step, Granted, Taken;
    }
  }

  /** No chunk is smaller than a smallest block. */
  ghost predicate Usable(s: State) {
    forall a <- s.chunks :: s.chunks[a].size >= 16
  }

  lemma {:induction false} StepUsable(s: State, start: Address, end: Address, op: Op)
    requires Inv(s, start, end) && Usable(s) && (op.Request? ==> op.size >= 16)
    ensures Usable(Step(s, op))
  {
    match op
    case Request(n) =>
      if Taken(s, n).1.Some? {
        TakenCuts(s, start, end, n);
        TakenServes(s, start, end, n);
      } else {
        TakenServes(s, start, end, n);
      }
      hide Taken, Inv;
    case Release(a) =>
      if a in s.chunks {
        ReleasedLaw(s, a);
      }
      hide Inv;
  }

  /** Over every run of requests for at least 16 bytes in a heap of at least 36, no chunk gets smaller than 16. */
  lemma {:induction false} RunUsable(start: Address, size: nat, ops: seq<Op>)
    requires size >= 36 && forall i :: 0 <= i < |ops| && ops[i].Request? ==> ops[i].size >= 16
    ensures forall a <- Run(start, size, ops).chunks :: Run(start, size, ops).chunks[a].size >= 16
  {
    if ops != [] {
      var before, op := ops[..|ops| - 1], ops[|ops| - 1];
      forall i | 0 <= i < |before| && before[i].Request? ensures before[i].size >= 16 {
        assert before[i] == ops[i];
      }
      RunUsable(start, size, before);
      assert Usable(Run(start, size, before));
      StepUsable(Run(start, size, before), start, End(start, size), op);
      assert Usable(Run(start, size, ops));
    }
    hide Inv, Step;
  }
}
