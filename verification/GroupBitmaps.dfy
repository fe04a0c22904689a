/**
 The free space of a grouped file system: for each group a bitmap and a free count, and a total in
 the superblock. Blocks and inodes are both allocated in this way.
 */
module GroupBitmaps {
  import opened Machine
  import opened Bits

  const HALF := 0x1_0000
  const RESERVED_INODES := 2

  datatype Kind = Blocks(firstData: nat) | Inodes

  datatype Group = Group(bits: seq<bv8>, free: nat)

  /** `per` is the number of objects in a group; `total` is the superblock's free count. */
  datatype Space = Space(kind: Kind, per: nat, groups: seq<Group>, total: nat)

  ghost predicate WellFormed(sp: Space) {
    && sp.per > 0 && |sp.groups| * sp.per < WORD && sp.total < WORD
    && forall g :: 0 <= g < |sp.groups| ==> sp.per <= 8 * |sp.groups[g].bits| && sp.groups[g].free < HALF
  }

  /** Objects are numbered from 1. */
  function Number(per: nat, g: nat, i: nat): nat {
    g * per + i + 1
  }

  function GroupOf(per: nat, n: nat): nat
    requires per > 0 && n > 0
  {
    (n - 1) / per
  }

  function Slot(per: nat, n: nat): (i: nat)
    requires per > 0 && n > 0
    ensures i < per
  {
    (n - 1) % per
  }

  lemma {:induction false} NumberParts(per: nat, g: nat, i: nat)
    requires i < per
    ensures GroupOf(per, Number(per, g, i)) == g && Slot(per, Number(per, g, i)) == i
  {
    DivModUnique(g * per + i, per, g, i);
  }

  lemma {:induction false} LessThanOne(k: int, d: nat)
    requires 0 - d < k * d < d
    ensures k == 0
  {
    if k >= 1 {
      assert k * d == d + (k - 1) * d;
      NonNegative(k - 1, d);
    } else if k <= -1 {
      assert -k * d == d + (-k - 1) * d;
      NonNegative(-k - 1, d);
    }
  }

  lemma {:induction false} DivModUnique(n: nat, d: nat, q: nat, r: nat)
    requires d > 0 && r < d && n == q * d + r
    ensures n / d == q && n % d == r
  {
    var q', r' := n / d, n % d;
    assert n == q' * d + r';
    assert (q' - q) * d == r - r';
    LessThanOne(q' - q, d);
  }

  lemma {:induction false} PartsNumber(per: nat, n: nat)
    requires per > 0 && n > 0
    ensures Number(per, GroupOf(per, n), Slot(per, n)) == n
  {
  }

  /** Different numbers have different places. */
  lemma {:induction false} PlacesApart(per: nat)
    requires per > 0
    ensures forall n, m :: n > 0 && m > 0 && GroupOf(per, n) == GroupOf(per, m) && Slot(per, n) == Slot(per, m) ==> n == m
  {
    forall n, m | n > 0 && m > 0 && GroupOf(per, n) == GroupOf(per, m) && Slot(per, n) == Slot(per, m) ensures n == m {
      PartsNumber(per, n);
      PartsNumber(per, m);
    }
  }

  lemma {:induction false} NumberBound(sp: Space, g: nat, i: nat)
    requires WellFormed(sp) && g < |sp.groups| && i < sp.per
    ensures Number(sp.per, g, i) < WORD
  {
    assert (g + 1) * sp.per <= |sp.groups| * sp.per;
  }

  /** Objects that the search passes over. */
  predicate Skipped(sp: Space, g: nat, i: nat) {
    match sp.kind
    case Blocks(firstData) => Number(sp.per, g, i) <= firstData
    case Inodes => g == 0 && i < RESERVED_INODES
  }

  predicate Eligible(sp: Space, g: nat, i: nat)
    requires g < |sp.groups|
  {
    !Skipped(sp, g, i) && !BitAt8(sp.groups[g].bits, i)
  }

  /** The first object from `i` on that group `g` can give. */
  function FirstClear(sp: Space, g: nat, i: nat): (r: Option<nat>)
    requires g < |sp.groups|
    ensures r.Some? ==> i <= r.value < sp.per && Eligible(sp, g, r.value)
    ensures forall j :: i <= j < (if r.Some? then r.value else sp.per) ==> !Eligible(sp, g, j)
    decreases sp.per - i
  {
    if i >= sp.per then None else if Eligible(sp, g, i) then Some(i) else FirstClear(sp, g, i + 1)
  }

  /** The first group from `g` on that says it has something free and can give it. */
  function Find(sp: Space, g: nat): (r: Option<(nat, nat)>)
    requires g <= |sp.groups|
    ensures r.Some? ==> g <= r.value.0 < |sp.groups| && sp.groups[r.value.0].free > 0 && FirstClear(sp, r.value.0, 0) == Some(r.value.1)
    ensures forall h :: g <= h < (if r.Some? then r.value.0 else |sp.groups|) ==> sp.groups[h].free == 0 || FirstClear(sp, h, 0) == None
    decreases |sp.groups| - g
  {
    if g == |sp.groups| then None
    else if sp.groups[g].free > 0 && FirstClear(sp, g, 0).Some? then Some((g, FirstClear(sp, g, 0).value))
    else Find(sp, g + 1)
  }

  function Marked(sp: Space, g: nat, i: nat): Space
    requires g < |sp.groups| && i / 8 < |sp.groups[g].bits| && sp.groups[g].free > 0 && sp.total > 0
  {
    sp.(groups := sp.groups[g := Group(WithBit8(sp.groups[g].bits, i), sp.groups[g].free - 1)], total := sp.total - 1)
  }

  /** The state after an allocation and the number handed out, or 0. */
  function Taken(sp: Space): (Space, nat)
    requires WellFormed(sp)
  {
    if sp.total == 0 then (sp, 0)
    else
      match Find(sp, 0)
      case None => (sp, 0)
      case Some((g, i)) => (Marked(sp, g, i), Number(sp.per, g, i))
  }

  function Cleared(sp: Space, g: nat, i: nat): Space
    requires g < |sp.groups| && i / 8 < |sp.groups[g].bits|
  {
    sp.(groups := sp.groups[g := Group(WithoutBit8(sp.groups[g].bits, i), (sp.groups[g].free + 1) % HALF)],
        total := (sp.total + 1) % WORD)
  }

  /** Number `n` is in use. */
  predicate Used(sp: Space, n: nat) {
    n > 0 && sp.per > 0 && GroupOf(sp.per, n) < |sp.groups| && BitAt8(sp.groups[GroupOf(sp.per, n)].bits, Slot(sp.per, n))
  }

  /** Numbers that a free ignores: reserved blocks, and what is not in use. */
  predicate Ignored(sp: Space, n: nat) {
    !Used(sp, n) || (sp.kind.Blocks? && n <= sp.kind.firstData)
  }

  function Given(sp: Space, n: nat): Space
    requires WellFormed(sp)
  {
    if Ignored(sp, n) then sp else Cleared(sp, GroupOf(sp.per, n), Slot(sp.per, n))
  }

  // ---------- counting ----------

  function SetBits(bits: seq<bv8>, n: nat): nat {
    if n == 0 then 0 else SetBits(bits, n - 1) + if BitAt8(bits, n - 1) then 1 else 0
  }

  lemma {:induction false} SetBitsBound(bits: seq<bv8>, n: nat)
    ensures SetBits(bits, n) <= n
    ensures SetBits(bits, n) == n <==> forall i :: 0 <= i < n ==> BitAt8(bits, i)
  {
    if n > 0 {
      SetBitsBound(bits, n - 1);
    }
  }

  /** The counts of two bitmaps that differ in one place. */
  lemma {:induction false} SetBitsDiffer(a: seq<bv8>, b: seq<bv8>, i: nat, n: nat)
    requires forall j: nat :: j != i ==> (BitAt8(b, j) <==> BitAt8(a, j))
    requires !BitAt8(a, i) && BitAt8(b, i)
    ensures SetBits(b, n) == SetBits(a, n) + if i < n then 1 else 0
  {
    if n > 0 {
      SetBitsDiffer(a, b, i, n - 1);
    }
  }

  lemma {:induction false} SetBitsWith(bits: seq<bv8>, i: nat, n: nat)
    requires i < n && i / 8 < |bits| && !BitAt8(bits, i)
    ensures SetBits(WithBit8(bits, i), n) == SetBits(bits, n) + 1
  {
    SetBitAt8(bits, i);
    SetBitsDiffer(bits, WithBit8(bits, i), i, n);
  }

  lemma {:induction false} SetBitsWithout(bits: seq<bv8>, i: nat, n: nat)
    requires i < n && BitAt8(bits, i)
    ensures SetBits(WithoutBit8(bits, i), n) + 1 == SetBits(bits, n)
  {
    ClearBitAt8(bits, i);
    SetBitsDiffer(WithoutBit8(bits, i), bits, i, n);
  }

  function FreeSum(groups: seq<Group>): nat {
    if groups == [] then 0 else FreeSum(groups[..|groups| - 1]) + groups[|groups| - 1].free
  }

  lemma {:induction false} FreeSumUpdate(groups: seq<Group>, g: nat, v: Group)
    requires g < |groups|
    ensures FreeSum(groups[g := v]) == FreeSum(groups) - groups[g].free + v.free
  {
    var n := |groups| - 1;
    if g == n {
      assert groups[g := v][..n] == groups[..n];
    } else {
      assert groups[g := v][..n] == groups[..n][g := v];
      FreeSumUpdate(groups[..n], g, v);
    }
  }

  // ---------- what allocation and release keep ----------

  function Sum(sp: Space, g: nat): nat
    requires g < |sp.groups|
  {
    sp.groups[g].free + SetBits(sp.groups[g].bits, sp.per)
  }

  /** Free counts fit their 16 bits whatever the bitmap is. */
  ghost predicate Sane(sp: Space) {
    WellFormed(sp) && forall g :: 0 <= g < |sp.groups| ==> Sum(sp, g) < HALF
  }

  /** The bits in use and the free count of a group add up to the same, and the total keeps its distance. */
  ghost predicate Conserves(sp: Space, sp': Space) {
    && sp'.kind == sp.kind && sp'.per == sp.per && |sp'.groups| == |sp.groups|
    && (forall g :: 0 <= g < |sp.groups| ==> |sp'.groups[g].bits| == |sp.groups[g].bits| && Sum(sp', g) == Sum(sp, g))
    && (sp'.total - FreeSum(sp'.groups)) % WORD == (sp.total - FreeSum(sp.groups)) % WORD
  }

  lemma {:induction false} MarkedConserves(sp: Space, g: nat, i: nat)
    requires Sane(sp) && g < |sp.groups| && i < sp.per && !BitAt8(sp.groups[g].bits, i)
    requires sp.groups[g].free > 0 && sp.total > 0
    ensures Sane(Marked(sp, g, i)) && Conserves(sp, Marked(sp, g, i))
  {
    var sp' := Marked(sp, g, i);
    SetBitsWith(sp.groups[g].bits, i, sp.per);
    FreeSumUpdate(sp.groups, g, sp'.groups[g]);
    forall h | 0 <= h < |sp.groups| ensures Sum(sp', h) == Sum(sp, h) {
    }
  }

  lemma {:induction false} ClearedConserves(sp: Space, g: nat, i: nat)
    requires Sane(sp) && g < |sp.groups| && i < sp.per && BitAt8(sp.groups[g].bits, i)
    ensures Sane(Cleared(sp, g, i)) && Conserves(sp, Cleared(sp, g, i))
    ensures Cleared(sp, g, i).groups[g].free == sp.groups[g].free + 1
  {
    var sp' := Cleared(sp, g, i);
    ClearedSums(sp, g, i);
    hide Sum, SetBits, BitAt8;
    FreeSumUpdate(sp.groups, g, sp'.groups[g]);
    ModShift(sp.total, FreeSum(sp.groups));
    hide FreeSum;
  }

  lemma {:induction false} ClearedSums(sp: Space, g: nat, i: nat)
    requires Sane(sp) && g < |sp.groups| && i < sp.per && BitAt8(sp.groups[g].bits, i)
    ensures var sp' := Cleared(sp, g, i);
      && sp'.groups[g].free == sp.groups[g].free + 1
      && forall h :: 0 <= h < |sp.groups| ==> Sum(sp', h) == Sum(sp, h) < HALF
  {
    SetBitsWithout(sp.groups[g].bits, i, sp.per);
    assert Sum(sp, g) < HALF;
    hide SetBits, BitAt8, WithoutBit8;
  }

  lemma {:induction false} ModShift(a: nat, b: nat)
    requires a < WORD
    ensures ((a + 1) % WORD - (b + 1)) % WORD == (a - b) % WORD
  {
    if a + 1 == WORD {
      assert (0 - (b + 1)) % WORD == (WORD - (b + 1)) % WORD;
    }
  }

  // ---------- one call ----------

  lemma {:induction false} TakenConserves(sp: Space)
    requires Sane(sp)
    ensures Sane(Taken(sp).0) && Conserves(sp, Taken(sp).0)
  {
    if sp.total > 0 && Find(sp, 0).Some? {
      var (g, i) := Find(sp, 0).value;
      MarkedConserves(sp, g, i);
    }
    hide Sane, Marked;
  }

  lemma {:induction false} GivenConserves(sp: Space, n: nat)
    requires Sane(sp)
    ensures Sane(Given(sp, n)) && Conserves(sp, Given(sp, n))
  {
    if !Ignored(sp, n) {
      ClearedConserves(sp, GroupOf(sp.per, n), Slot(sp.per, n));
    }
    hide Sane, Cleared;
  }

  /** A failed allocation changes nothing. */
  lemma {:induction false} TakenNothing(sp: Space)
    requires WellFormed(sp) && Taken(sp).1 == 0
    ensures Taken(sp).0 == sp
  {
    hide FirstClear, Find, Marked, BitAt8;
  }

  lemma {:induction false} IgnoredSame(sp: Space, n: nat)
    requires WellFormed(sp) && Ignored(sp, n)
    ensures Given(sp, n) == sp
  {
  }

  /** Two spaces that differ in at most one bit. */
  lemma {:induction false} OneBitDiffers(sp: Space, sp': Space, n: nat, m: nat)
    requires sp.per > 0 && sp'.per == sp.per && n > 0 && GroupOf(sp.per, n) < |sp.groups| == |sp'.groups| && m != n
    requires var g, i := GroupOf(sp.per, n), Slot(sp.per, n);
      && sp'.groups == sp.groups[g := sp'.groups[g]]
      && forall j: nat :: j != i ==> (BitAt8(sp'.groups[g].bits, j) <==> BitAt8(sp.groups[g].bits, j))
    ensures Used(sp', m) <==> Used(sp, m)
  {
    PlacesApart(sp.per);
    hide GroupOf, Slot, BitAt8;
  }

  /** A number handed out was not in use, and is now; no other number changes. */
  lemma {:induction false} TakenMarksOne(sp: Space)
    requires WellFormed(sp) && Taken(sp).1 != 0
    ensures var (sp', n) := Taken(sp);
      && !Used(sp, n) && Used(sp', n) && !Ignored(sp', n) && n < WORD
      && forall m :: m != n ==> (Used(sp', m) <==> Used(sp, m))
  {
    var (g, i) := Find(sp, 0).value;
    var (sp', n) := Taken(sp);
    NumberParts(sp.per, g, i);
    NumberBound(sp, g, i);
    SetBitAt8(sp.groups[g].bits, i);
    hide GroupOf, Slot, BitAt8, Find, FirstClear, Number;
    assert sp'.groups == sp.groups[g := sp'.groups[g]];
    forall m | m != n ensures Used(sp', m) <==> Used(sp, m) {
      OneBitDiffers(sp, sp', n, m);
    }
  }

  lemma {:induction false} GivenClearsOne(sp: Space, n: nat)
    requires WellFormed(sp) && !Ignored(sp, n)
    ensures var sp' := Given(sp, n);
      && !Used(sp', n)
      && forall m :: m != n ==> (Used(sp', m) <==> Used(sp, m))
  {
    var sp' := Given(sp, n);
    var g, i := GroupOf(sp.per, n), Slot(sp.per, n);
    ClearBitAt8(sp.groups[g].bits, i);
    hide GroupOf, Slot, BitAt8;
    assert sp'.groups == sp.groups[g := sp'.groups[g]];
    forall m | m != n ensures Used(sp', m) <==> Used(sp, m) {
      OneBitDiffers(sp, sp', n, m);
    }
  }

  lemma {:induction false} ByteRestored(w: bv8, k: nat)
    requires k < 8 && !IsSet8(w, k)
    ensures (w | Bit8(k)) & !Bit8(k) == w
  {
    MaskRestored(w, Bit8(k));
  }

  lemma {:induction false} MaskRestored(w: bv8, m: bv8)
    requires w & m == 0
    ensures (w | m) & !m == w
  {
  }

  lemma {:induction false} BitRestored(bits: seq<bv8>, i: nat)
    requires i / 8 < |bits| && !BitAt8(bits, i)
    ensures i / 8 < |WithBit8(bits, i)| && WithoutBit8(WithBit8(bits, i), i) == bits
  {
    ByteRestored(bits[i / 8], i % 8);
    hide IsSet8, Bit8;
  }

  /** Marking and then clearing an object restores bitmap and both counts. */
  lemma {:induction false} ClearedMarked(sp: Space, g: nat, i: nat)
    requires WellFormed(sp) && g < |sp.groups| && i / 8 < |sp.groups[g].bits| && !BitAt8(sp.groups[g].bits, i)
    requires sp.groups[g].free > 0 && sp.total > 0
    ensures g < |Marked(sp, g, i).groups| && i / 8 < |Marked(sp, g, i).groups[g].bits|
    ensures Cleared(Marked(sp, g, i), g, i) == sp
  {
    BitRestored(sp.groups[g].bits, i);
    hide BitAt8, WithBit8, WithoutBit8;
    assert (sp.groups[g].free - 1 + 1) % HALF == sp.groups[g].free;
    assert Cleared(Marked(sp, g, i), g, i).groups == sp.groups;
  }

  /** Freeing what was just allocated restores bitmap, group count and total. */
  lemma {:induction false} TakeThenGive(sp: Space)
    requires WellFormed(sp) && Taken(sp).1 != 0
    ensures var (sp', n) := Taken(sp); WellFormed(sp') && Given(sp', n) == sp
  {
    var (g, i) := Find(sp, 0).value;
    var (sp', n) := Taken(sp);
    TakenMarksOne(sp);
    NumberParts(sp.per, g, i);
    assert WellFormed(sp');
    ClearedMarked(sp, g, i);
    hide Used, Ignored, BitAt8, Find, FirstClear, Marked, Cleared, GroupOf, Slot, Number, WellFormed;
  }

  /** The groups' free counts are the numbers of their clear bits. */
  ghost predicate Counted(sp: Space) {
    forall g :: 0 <= g < |sp.groups| ==> Sum(sp, g) == sp.per
  }

  /**
   With true counts, an allocation fails only if the total is zero or there is nothing eligible; and
   otherwise hands out the least eligible number.
   */
  lemma {:induction false} TakenLeast(sp: Space)
    requires WellFormed(sp) && Counted(sp) && sp.total > 0
    ensures var n := Taken(sp).1;
      && (n == 0 ==> forall g, i :: 0 <= g < |sp.groups| && 0 <= i < sp.per ==> !Eligible(sp, g, i))
      && (n > 0 ==> forall g, i :: 0 <= g < |sp.groups| && 0 <= i < sp.per && Eligible(sp, g, i) ==> n <= Number(sp.per, g, i))
  {
    hide Eligible, Counted, Find, FirstClear, Marked, WellFormed;
    TakenIsFound(sp);
    hide Taken;
    forall g, i | 0 <= g < |sp.groups| && 0 <= i < sp.per && Eligible(sp, g, i) ensures NotBefore(sp, g, i) {
      FoundFirst(sp, g, i);
    }
  }

  lemma {:induction false} TakenIsFound(sp: Space)
    requires WellFormed(sp) && sp.total > 0
    ensures Taken(sp).1 == (if Find(sp, 0).Some? then Number(sp.per, Find(sp, 0).value.0, Find(sp, 0).value.1) else 0)
  {
  }

  /** The search finds something, and nothing after object `i` of group `g`. */
  ghost predicate NotBefore(sp: Space, g: nat, i: nat) {
    var f := Find(sp, 0);
    f.Some? && Number(sp.per, f.value.0, f.value.1) <= Number(sp.per, g, i)
  }

  lemma {:induction false} FoundFirst(sp: Space, g: nat, i: nat)
    requires Counted(sp) && g < |sp.groups| && i < sp.per && Eligible(sp, g, i)
    ensures NotBefore(sp, g, i)
  {
    if sp.groups[g].free == 0 {
      FullGroup(sp, g, i);
    }
    hide Counted, Eligible;
    assert sp.groups[g].free > 0 && FirstClear(sp, g, 0).Some? && FirstClear(sp, g, 0).value <= i;
    var f := Find(sp, 0);
    assert f.Some? && f.value.0 <= g;
    NumberOrder(sp.per, f.value.0, f.value.1, g, i);
    hide Number;
  }

  lemma {:induction false} FullGroup(sp: Space, g: nat, i: nat)
    requires Counted(sp) && g < |sp.groups| && sp.groups[g].free == 0 && i < sp.per
    ensures !Eligible(sp, g, i)
  {
    assert Sum(sp, g) == sp.per;
    SetBitsBound(sp.groups[g].bits, sp.per);
  }

  lemma {:induction false} NumberOrder(per: nat, h: nat, k: nat, g: nat, i: nat)
    requires k < per && (h < g || (h == g && k <= i))
    ensures Number(per, h, k) <= Number(per, g, i)
  {
    if h < g {
      assert g * per == (h + 1) * per + (g - h - 1) * per;
      NonNegative(g - h - 1, per);
    }
  }

  // ---------- which numbers are handed out ----------

  /** Numbers up to this one are never handed out. */
  function Low(sp: Space): nat {
    match sp.kind
    case Blocks(firstData) => firstData
    case Inodes => if sp.per == 1 then 1 else 2
  }

  lemma {:induction false} SkippedIsLow(sp: Space, g: nat, i: nat)
    requires i < sp.per
    ensures Skipped(sp, g, i) <==> Number(sp.per, g, i) <= Low(sp)
  {
    if g > 0 {
      NumberOrder(sp.per, 1, 0, g, i);
    }
  }

  /** The numbers of a file system are those from 1 to the size of all groups. */
  lemma {:induction false} NumberRange(sp: Space, n: nat)
    requires sp.per > 0 && n > 0
    ensures GroupOf(sp.per, n) < |sp.groups| <==> n <= sp.per * |sp.groups|
  {
    var g, i, k := GroupOf(sp.per, n), Slot(sp.per, n), |sp.groups|;
    PartsNumber(sp.per, n);
    if g < k {
      NumberOrder(sp.per, g, i, k - 1, sp.per - 1);
      assert Number(sp.per, k - 1, sp.per - 1) == sp.per * k;
    } else {
      NumberOrder(sp.per, k, 0, g, i);
      assert Number(sp.per, k, 0) == sp.per * k + 1;
    }
  }

  lemma {:induction false} EligibleIs(sp: Space, n: nat)
    requires sp.per > 0 && 0 < n <= sp.per * |sp.groups|
    ensures GroupOf(sp.per, n) < |sp.groups|
    ensures Eligible(sp, GroupOf(sp.per, n), Slot(sp.per, n)) <==> n > Low(sp) && !Used(sp, n)
  {
    NumberRange(sp, n);
    PartsNumber(sp.per, n);
    SkippedIsLow(sp, GroupOf(sp.per, n), Slot(sp.per, n));
    hide GroupOf, Slot, Number, Skipped, BitAt8, Low;
  }

  /** A number handed out is an unused one above `Low`. */
  lemma {:induction false} TakenAbove(sp: Space)
    requires WellFormed(sp) && Taken(sp).1 != 0
    ensures var n := Taken(sp).1; Low(sp) < n <= sp.per * |sp.groups| && !Used(sp, n)
  {
    TakenMarksOne(sp);
    var (g, i) := Find(sp, 0).value;
    assert Eligible(sp, g, i) && i < sp.per;
    NumberParts(sp.per, g, i);
    NumberRange(sp, Number(sp.per, g, i));
    SkippedIsLow(sp, g, i);
    hide GroupOf, Slot, Number, Skipped, BitAt8, Low, Find, FirstClear, Used, Marked;
  }

  /** Where counts match, an allocation fails exactly if all these are used, and else takes the least unused one. */
  lemma {:induction false} TakenExactly(sp: Space)
    requires WellFormed(sp) && Counted(sp)
    ensures sp.total == 0 ==> Taken(sp) == (sp, 0)
    ensures sp.total > 0 ==> (Taken(sp).1 == 0 <==> forall m :: Low(sp) < m <= sp.per * |sp.groups| ==> Used(sp, m))
    ensures Taken(sp).1 != 0 ==> forall m :: Low(sp) < m <= sp.per * |sp.groups| && !Used(sp, m) ==> Taken(sp).1 <= m
  {
    if sp.total > 0 {
      hide Counted, Find, Marked, BitAt8;
      TakenIsFound(sp);
      hide Taken, WellFormed, Eligible, Number, Low, Used;
      FormedSize(sp);
      forall m | Low(sp) < m <= sp.per * |sp.groups| && !Used(sp, m)
        ensures Taken(sp).1 != 0 && Taken(sp).1 <= m
      {
        EligibleIs(sp, m);
        PartsNumber(sp.per, m);
        FoundFirst(sp, GroupOf(sp.per, m), Slot(sp.per, m));
        NumberPositive(sp.per, Find(sp, 0).value.0, Find(sp, 0).value.1);
      }
      if Taken(sp).1 != 0 {
        TakenAbove(sp);
      }
    }
  }

  lemma {:induction false} FormedSize(sp: Space)
    requires WellFormed(sp)
    ensures sp.per > 0
  {
  }

  lemma {:induction false} NumberPositive(per: nat, g: nat, i: nat)
    ensures Number(per, g, i) > 0
  {
    NonNegative(g, per);
  }

  /** Inode numbers 1 and 2 are never handed out (in groups of one, number 1), and otherwise the least unused one is. */
  lemma {:induction false} TakenInode(sp: Space)
    requires WellFormed(sp) && Counted(sp) && sp.kind == Inodes
    ensures var low, last, n := if sp.per == 1 then 1 else 2, sp.per * |sp.groups|, Taken(sp).1;
      && (n == 0 <==> sp.total == 0 || forall m :: low < m <= last ==> Used(sp, m))
      && (n != 0 ==> low < n <= last && !Used(sp, n) && forall m :: low < m <= last && !Used(sp, m) ==> n <= m)
  {
    TakenExactly(sp);
    if Taken(sp).1 != 0 {
      TakenAbove(sp);
    }
    hide Taken, Used, WellFormed, Counted;
  }

  /** The same for blocks above the first data block. */
  lemma {:induction false} TakenBlock(sp: Space)
    requires WellFormed(sp) && Counted(sp) && sp.kind.Blocks?
    ensures var low, last, n := sp.kind.firstData, sp.per * |sp.groups|, Taken(sp).1;
      && (n == 0 <==> sp.total == 0 || forall m :: low < m <= last ==> Used(sp, m))
      && (n != 0 ==> low < n <= last && !Used(sp, n) && forall m :: low < m <= last && !Used(sp, m) ==> n <= m)
  {
    TakenExactly(sp);
    if Taken(sp).1 != 0 {
      TakenAbove(sp);
    }
    hide Taken, Used, WellFormed, Counted;
  }

  /** A release changes nothing exactly if the number is not in use or names a block up to the first data block. */
  lemma {:induction false} GivenExactly(sp: Space, n: nat)
    requires WellFormed(sp)
    ensures Given(sp, n) == sp <==> !Used(sp, n) || (sp.kind.Blocks? && n <= sp.kind.firstData)
  {
    if !Ignored(sp, n) {
      GivenClearsOne(sp, n);
    }
    hide Used, WellFormed, Cleared;
  }

  // ---------- the numbering on the disk ----------

  /** The block that bit `i` of group `g` stands for in an ext4 file system. */
  function BlockOfBit(firstData: nat, per: nat, g: nat, i: nat): nat {
    firstData + g * per + i
  }

  /** Block `n` is in use by that numbering. */
  predicate UsedOnDisk(sp: Space, n: nat)
    requires sp.kind.Blocks? && sp.per > 0
  {
    var b := n - sp.kind.firstData;
    b >= 0 && b / sp.per < |sp.groups| && BitAt8(sp.groups[b / sp.per].bits, b % sp.per)
  }

  /** The allocator's numbers are those of the disk exactly if the first data block is block 1. */
  lemma {:induction false} NumberingAgrees(firstData: nat, per: nat)
    requires per > 0
    ensures (forall g, i :: 0 <= g && 0 <= i < per ==> Number(per, g, i) == BlockOfBit(firstData, per, g, i)) <==> firstData == 1
  {
    assert Number(per, 0, 0) == 1 && BlockOfBit(firstData, per, 0, 0) == firstData;
  }

  /** In every file system with this first data block, only blocks that are free on the disk are handed out. */
  ghost predicate HandsOutFree(firstData: nat) {
    forall sp: Space :: WellFormed(sp) && sp.kind == Blocks(firstData) && Taken(sp).1 != 0 ==> !UsedOnDisk(sp, Taken(sp).1)
  }

  /** A file system in which only bit 1 is set. */
  function OneUsed(firstData: nat): Space {
    Space(Blocks(firstData), firstData + 2, [Group(WithBit8(seq(firstData + 2, _ => 0), 1), 1)], 1)
  }

  lemma {:induction false} OneUsedBits(firstData: nat)
    ensures forall i: nat :: BitAt8(OneUsed(firstData).groups[0].bits, i) <==> i == 1
  {
    var zeros: seq<bv8> := seq(firstData + 2, _ => 0);
    forall i: nat ensures !BitAt8(zeros, i) {
      ZeroHasNoBit8(i % 8);
    }
    SetBitAt8(zeros, 1);
    hide BitAt8, WithBit8;
  }

  lemma {:induction false} OneUsedFound(firstData: nat)
    requires firstData != 1
    ensures FirstClear(OneUsed(firstData), 0, 0) == Some(firstData)
  {
    var sp := OneUsed(firstData);
    OneUsedBits(firstData);
    hide BitAt8, WithBit8;
    assert Eligible(sp, 0, firstData);
  }

  lemma {:induction false} OneUsedFormed(firstData: nat)
    requires firstData + 2 < WORD
    ensures WellFormed(OneUsed(firstData))
  {
    hide Bit8;
  }

  /** There the allocator passes over the numbers up to the first data block and takes the next one. */
  lemma {:induction false} OneUsedTaken(firstData: nat)
    requires firstData != 1 && firstData + 2 < WORD
    ensures var sp := OneUsed(firstData);
      WellFormed(sp) && Taken(sp).1 == firstData + 1 && UsedOnDisk(sp, firstData + 1)
  {
    hide BitAt8, WithBit8, WellFormed, Find, FirstClear, Marked;
    var sp := OneUsed(firstData);
    OneUsedFormed(firstData);
    OneUsedBits(firstData);
    OneUsedFound(firstData);
    SearchFirst(sp);
    DivModUnique(1, firstData + 2, 0, 1);
  }

  lemma {:induction false} SearchFirst(sp: Space)
    requires |sp.groups| > 0 && sp.groups[0].free > 0 && FirstClear(sp, 0, 0).Some?
    ensures Find(sp, 0) == Some((0, FirstClear(sp, 0, 0).value))
  {
  }

  /** Blocks in use on the disk are never handed out, exactly if the first data block is block 1. */
  lemma {:induction false} HandsOutFreeExactly(firstData: nat)
    requires firstData + 2 < WORD
    ensures HandsOutFree(firstData) <==> firstData == 1
  {
    if firstData == 1 {
      forall sp: Space | WellFormed(sp) && sp.kind == Blocks(firstData) && Taken(sp).1 != 0 ensures !UsedOnDisk(sp, Taken(sp).1) {
        TakenMarksOne(sp);
      }
    } else {
      OneUsedTaken(firstData);
      assert OneUsed(firstData).kind == Blocks(firstData);
    }
    hide Taken, WellFormed, UsedOnDisk;
  }

  // ---------- runs ----------

  datatype Op = Take | Give(n: nat)

  /** The state and the numbers handed out and not given back. */
  datatype Run = Run(space: Space, held: set<nat>)

  function Step(r: Run, op: Op): Run
    requires WellFormed(r.space)
  {
    match op
    case Take =>
      var (sp, n) := Taken(r.space);
      Run(sp, if n == 0 then r.held else r.held + {n})
    case Give(n) =>
      Run(Given(r.space, n), r.held - {n})
  }

  ghost predicate Holds(first: Space, r: Run) {
    Sane(r.space) && Conserves(first, r.space) && forall n <- r.held :: Used(r.space, n)
  }

  lemma {:induction false} StepHolds(first: Space, r: Run, op: Op)
    requires Holds(first, r)
    ensures Holds(first, Step(r, op))
  {
    match op
    case Take => TakeHolds(first, r);
    case Give(n) => GiveHolds(first, r, n);
  }

  lemma {:induction false} SaneFormed(sp: Space)
    requires Sane(sp)
    ensures WellFormed(sp)
  {
  }

  lemma {:induction false} TakeHolds(first: Space, r: Run)
    requires Holds(first, r)
    ensures Holds(first, Step(r, Take))
  {
    hide Taken, Used, Ignored, Sane, WellFormed, Sum, FreeSum;
    SaneFormed(r.space);
    TakenConserves(r.space);
    if Taken(r.space).1 != 0 {
      TakenMarksOne(r.space);
    } else {
      TakenNothing(r.space);
    }
  }

  lemma {:induction false} GiveHolds(first: Space, r: Run, n: nat)
    requires Holds(first, r)
    ensures Holds(first, Step(r, Give(n)))
  {
    hide Given, Used, Ignored, Sane, WellFormed, Sum, FreeSum;
    SaneFormed(r.space);
    GivenConserves(r.space, n);
    if !Ignored(r.space, n) {
      GivenClearsOne(r.space, n);
    } else {
      IgnoredSame(r.space, n);
    }
  }

  function After(first: Space, ops: seq<Op>): (r: Run)
    requires Sane(first)
    ensures Holds(first, r)
  {
    if ops == [] then Run(first, {})
    else
      var r := After(first, ops[..|ops| - 1]);
      StepHolds(first, r, ops[|ops| - 1]);
      Step(r, ops[|ops| - 1])
  }

  lemma {:induction false} AfterOne(first: Space, ops: seq<Op>, i: nat)
    requires Sane(first) && i < |ops|
    ensures After(first, ops[..i + 1]) == Step(After(first, ops[..i]), ops[i])
  {
    assert ops[..i + 1][..i] == ops[..i] && ops[..i + 1][i] == ops[i];
  }

  /**
   In every run, nothing that is still held is handed out again, each group's used bits and free count
   add up to what they did at the start, and the total's distance from the groups' counts is constant.
   */
  lemma {:induction false} NeverTwice(first: Space, ops: seq<Op>)
    requires Sane(first)
    ensures var r := After(first, ops);
      && Conserves(first, r.space)
      && (Taken(r.space).1 != 0 ==> Taken(r.space).1 !in r.held)
  {
    var r := After(first, ops);
    if Taken(r.space).1 != 0 {
      TakenMarksOne(r.space);
    } else {
      TakenNothing(r.space);
    }
  }

  // ---------- reserved numbers over runs ----------

  /** What is held is above `Low`, and what is not above it has not come into use. */
  ghost predicate Reserves(first: Space, r: Run) {
    && r.space.kind == first.kind && r.space.per == first.per
    && (forall n <- r.held :: Low(first) < n)
    && (forall m: nat :: m <= Low(first) && Used(r.space, m) ==> Used(first, m))
    && (first.kind.Blocks? ==> forall m: nat :: m <= Low(first) ==> (Used(r.space, m) <==> Used(first, m)))
  }

  lemma {:induction false} StepShape(r: Run, op: Op)
    requires WellFormed(r.space)
    ensures Step(r, op).space.kind == r.space.kind && Step(r, op).space.per == r.space.per
  {
    hide Find, Used, BitAt8;
  }

  lemma {:induction false} TakeReserves(first: Space, r: Run)
    requires WellFormed(r.space) && Reserves(first, r)
    ensures Reserves(first, Step(r, Take))
  {
    hide WellFormed, Used, Marked, Find, Low, Taken;
    StepShape(r, Take);
    LowSame(first, r.space);
    if Taken(r.space).1 != 0 {
      TakenAbove(r.space);
      TakenMarksOne(r.space);
    } else {
      TakenNothing(r.space);
    }
  }

  lemma {:induction false} GiveReserves(first: Space, r: Run, n: nat)
    requires WellFormed(r.space) && Reserves(first, r)
    ensures Reserves(first, Step(r, Give(n)))
  {
    hide WellFormed, Used, Cleared, Given;
    StepShape(r, Give(n));
    LowSame(first, r.space);
    GivenExactly(r.space, n);
    if !Ignored(r.space, n) {
      GivenClearsOne(r.space, n);
    }
  }

  lemma {:induction false} StepReserves(first: Space, r: Run, op: Op)
    requires WellFormed(r.space) && Reserves(first, r)
    ensures Reserves(first, Step(r, op))
  {
    match op
    case Take => TakeReserves(first, r);
    case Give(n) => GiveReserves(first, r, n);
  }

  lemma {:induction false} LowSame(a: Space, b: Space)
    requires a.kind == b.kind && a.per == b.per
    ensures Low(a) == Low(b)
  {
  }

  lemma {:induction false} RunReserves(first: Space, ops: seq<Op>)
    requires Sane(first)
    ensures Reserves(first, After(first, ops))
  {
    if ops != [] {
      var before := ops[..|ops| - 1];
      RunReserves(first, before);
      SaneFormed(After(first, before).space);
      StepReserves(first, After(first, before), ops[|ops| - 1]);
      hide Reserves, WellFormed, Sane, Step;
    }
  }

  /** In every run neither of the inode numbers 1 and 2 is held (in groups of one, not number 1), nor comes into use. */
  lemma {:induction false} InodesReserved(first: Space, ops: seq<Op>)
    requires Sane(first) && first.kind == Inodes
    ensures var r, low := After(first, ops), if first.per == 1 then 1 else 2;
      && (forall n <- r.held :: n > low)
      && (forall m: nat :: m <= low && Used(r.space, m) ==> Used(first, m))
  {
    hide After, Used, Sane, Holds;
    RunReserves(first, ops);
  }

  /** In every run no block up to the first data block is held, taken or released. */
  lemma {:induction false} BlocksReserved(first: Space, ops: seq<Op>)
    requires Sane(first) && first.kind.Blocks?
    ensures var r := After(first, ops);
      && (forall n <- r.held :: n > first.kind.firstData)
      && (forall m: nat :: m <= first.kind.firstData ==> (Used(r.space, m) <==> Used(first, m)))
  {
    hide After, Used, Sane, Holds;
    RunReserves(first, ops);
  }
}
