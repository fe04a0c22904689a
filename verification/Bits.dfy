/** Single bits of 32-bit words and of bytes, as the kernel's bitmaps test, set and clear them. */
module Bits {

  // ---------- words ----------

  function Bit32(k: nat): bv32
    requires k < 32
  {
    1 << k
  }

  predicate IsSet32(w: bv32, k: nat)
    requires k < 32
  {
    w & Bit32(k) != 0
  }

  lemma Apart32(k: nat, j: nat)
    requires k < 32 && j < 32 && k != j
    ensures Bit32(k) & Bit32(j) == 0
  {
  }

  lemma NonZero32(k: nat)
    requires k < 32
    ensures Bit32(k) != 0
  {
  }

  lemma OrKeeps32(w: bv32, m: bv32, m': bv32)
    requires m & m' == 0
    ensures (w | m) & m' == w & m'
  {
  }

  lemma AndNotKeeps32(w: bv32, m: bv32, m': bv32)
    requires m & m' == 0
    ensures (w & !m) & m' == w & m'
  {
  }

  lemma OrSets32(w: bv32, m: bv32)
    ensures (w | m) & m == m
  {
  }

  lemma AndNotClears32(w: bv32, m: bv32)
    ensures (w & !m) & m == 0
  {
  }

  lemma SetOther32(w: bv32, k: nat, j: nat)
    requires k < 32 && j < 32 && j != k
    ensures (w | Bit32(k)) & Bit32(j) == w & Bit32(j)
  {
    Apart32(k, j);
    OrKeeps32(w, Bit32(k), Bit32(j));
  }

  lemma ClearOther32(w: bv32, k: nat, j: nat)
    requires k < 32 && j < 32 && j != k
    ensures (w & !Bit32(k)) & Bit32(j) == w & Bit32(j)
  {
    Apart32(k, j);
    AndNotKeeps32(w, Bit32(k), Bit32(j));
  }

  lemma SetSame32(w: bv32, k: nat)
    requires k < 32
    ensures (w | Bit32(k)) & Bit32(k) != 0
  {
    NonZero32(k);
    OrSets32(w, Bit32(k));
  }

  /** `w |= 1 << k` sets bit `k` and no other. */
  lemma SetBit32(w: bv32, k: nat, j: nat)
    requires k < 32 && j < 32
    ensures IsSet32(w | Bit32(k), j) <==> j == k || IsSet32(w, j)
  {
    if j == k {
      SetSame32(w, k);
    } else {
      SetOther32(w, k, j);
    }
  }

  /** `w &= ~(1 << k)` clears bit `k` and no other. */
  lemma ClearBit32(w: bv32, k: nat, j: nat)
    requires k < 32 && j < 32
    ensures IsSet32(w & !Bit32(k), j) <==> j != k && IsSet32(w, j)
  {
    if j == k {
      AndNotClears32(w, Bit32(k));
    } else {
      ClearOther32(w, k, j);
    }
  }

  lemma ZeroHasNoBit32(k: nat)
    requires k < 32
    ensures !IsSet32(0, k)
  {
  }

  /** Bit `i` of a bitmap of words. */
  predicate BitAt32(words: seq<bv32>, i: nat) {
    i / 32 < |words| && IsSet32(words[i / 32], i % 32)
  }

  function WithBit32(words: seq<bv32>, i: nat): seq<bv32>
    requires i / 32 < |words|
  {
    words[i / 32 := words[i / 32] | Bit32(i % 32)]
  }

  function WithoutBit32(words: seq<bv32>, i: nat): seq<bv32>
    requires i / 32 < |words|
  {
    words[i / 32 := words[i / 32] & !Bit32(i % 32)]
  }

  lemma SetOneBitAt32(words: seq<bv32>, i: nat, j: nat)
    requires i / 32 < |words|
    ensures BitAt32(WithBit32(words, i), j) <==> j == i || BitAt32(words, j)
  {
    hide IsSet32, Bit32;
    if j / 32 == i / 32 {
      SetBit32(words[i / 32], i % 32, j % 32);
      assert j == i <==> j % 32 == i % 32;
    }
  }

  lemma SetBitAt32(words: seq<bv32>, i: nat)
    requires i / 32 < |words|
    ensures forall j: nat :: BitAt32(WithBit32(words, i), j) <==> j == i || BitAt32(words, j)
  {
    forall j: nat ensures BitAt32(WithBit32(words, i), j) <==> j == i || BitAt32(words, j) {
      SetOneBitAt32(words, i, j);
    }
  }

  lemma ClearOneBitAt32(words: seq<bv32>, i: nat, j: nat)
    requires i / 32 < |words|
    ensures BitAt32(WithoutBit32(words, i), j) <==> j != i && BitAt32(words, j)
  {
    hide IsSet32, Bit32;
    if j / 32 == i / 32 {
      ClearBit32(words[i / 32], i % 32, j % 32);
      assert WithoutBit32(words, i)[j / 32] == words[i / 32] & !Bit32(i % 32);
      assert BitAt32(WithoutBit32(words, i), j) == IsSet32(words[i / 32] & !Bit32(i % 32), j % 32);
      assert j == i <==> j % 32 == i % 32;
    }
  }

  lemma ClearBitAt32(words: seq<bv32>, i: nat)
    requires i / 32 < |words|
    ensures forall j: nat :: BitAt32(WithoutBit32(words, i), j) <==> j != i && BitAt32(words, j)
  {
    forall j: nat ensures BitAt32(WithoutBit32(words, i), j) <==> j != i && BitAt32(words, j) {
      ClearOneBitAt32(words, i, j);
    }
  }

  // ---------- bytes ----------

  function Bit8(k: nat): bv8
    requires k < 8
  {
    1 << k
  }

  predicate IsSet8(w: bv8, k: nat)
    requires k < 8
  {
    w & Bit8(k) != 0
  }

  /** `w |= 1 << k` sets bit `k` and no other. */
  lemma SetBit8(w: bv8, k: nat, j: nat)
    requires k < 8 && j < 8
    ensures IsSet8(w | Bit8(k), j) <==> j == k || IsSet8(w, j)
  {
  }

  /** `w &= ~(1 << k)` clears bit `k` and no other. */
  lemma ClearBit8(w: bv8, k: nat, j: nat)
    requires k < 8 && j < 8
    ensures IsSet8(w & !Bit8(k), j) <==> j != k && IsSet8(w, j)
  {
  }

  lemma ZeroHasNoBit8(k: nat)
    requires k < 8
    ensures !IsSet8(0, k)
  {
  }

  /** Bit `i` of a bitmap of bytes. */
  predicate BitAt8(words: seq<bv8>, i: nat) {
    i / 8 < |words| && IsSet8(words[i / 8], i % 8)
  }

  function WithBit8(words: seq<bv8>, i: nat): seq<bv8>
    requires i / 8 < |words|
  {
    words[i / 8 := words[i / 8] | Bit8(i % 8)]
  }

  function WithoutBit8(words: seq<bv8>, i: nat): seq<bv8>
    requires i / 8 < |words|
  {
    words[i / 8 := words[i / 8] & !Bit8(i % 8)]
  }

  lemma SetOneBitAt8(words: seq<bv8>, i: nat, j: nat)
    requires i / 8 < |words|
    ensures BitAt8(WithBit8(words, i), j) <==> j == i || BitAt8(words, j)
  {
    hide IsSet8, Bit8;
    if j / 8 == i / 8 {
      SetBit8(words[i / 8], i % 8, j % 8);
      assert j == i <==> j % 8 == i % 8;
    }
  }

  lemma SetBitAt8(words: seq<bv8>, i: nat)
    requires i / 8 < |words|
    ensures forall j: nat :: BitAt8(WithBit8(words, i), j) <==> j == i || BitAt8(words, j)
  {
    forall j: nat ensures BitAt8(WithBit8(words, i), j) <==> j == i || BitAt8(words, j) {
      SetOneBitAt8(words, i, j);
    }
  }

  lemma ClearOneBitAt8(words: seq<bv8>, i: nat, j: nat)
    requires i / 8 < |words|
    ensures BitAt8(WithoutBit8(words, i), j) <==> j != i && BitAt8(words, j)
  {
    hide IsSet8, Bit8;
    if j / 8 == i / 8 {
      ClearBit8(words[i / 8], i % 8, j % 8);
      assert WithoutBit8(words, i)[j / 8] == words[i / 8] & !Bit8(i % 8);
      assert BitAt8(WithoutBit8(words, i), j) == IsSet8(words[i / 8] & !Bit8(i % 8), j % 8);
      assert j == i <==> j % 8 == i % 8;
    }
  }

  lemma ClearBitAt8(words: seq<bv8>, i: nat)
    requires i / 8 < |words|
    ensures forall j: nat :: BitAt8(WithoutBit8(words, i), j) <==> j != i && BitAt8(words, j)
  {
    forall j: nat ensures BitAt8(WithoutBit8(words, i), j) <==> j != i && BitAt8(words, j) {
      ClearOneBitAt8(words, i, j);
    }
  }
}
