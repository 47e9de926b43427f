/** The free-block bitmap of fs.c: one bit per block, eight to a byte. */
module Bitmap {

  function Mask(i: nat): (m: bv8)
    requires i < 8
    ensures m == 1 << i
  {
    if i == 0 then 1 else if i == 1 then 2 else if i == 2 then 4 else if i == 3 then 8
    else if i == 4 then 16 else if i == 5 then 32 else if i == 6 then 64 else 128
  }

  predicate Has(x: bv8, i: nat)
    requires i < 8
  {
    (x & Mask(i)) != 0
  }

  lemma SetMask(x: bv8, i: nat, j: nat)
    requires i < 8 && j < 8
    ensures Has(x | Mask(i), j) <==> i == j || Has(x, j)
  {
  }

  lemma ClearMask(x: bv8, i: nat, j: nat)
    requires i < 8 && j < 8
    ensures Has(x & !Mask(i), j) <==> i != j && Has(x, j)
  {
  }

  function Bit(bytes: seq<bv8>, b: nat): (r: bool)
    requires b < 8 * |bytes|
  {
    Has(bytes[b / 8], b % 8)
  }

  /** The bitmap as a sequence of booleans. */
  function Marks(bytes: seq<bv8>, n: nat): (s: seq<bool>)
    requires n <= 8 * |bytes|
  {
    seq(n, b requires 0 <= b < n => Bit(bytes, b))
  }

  lemma MarkSet(bytes: seq<bv8>, n: nat, b: nat)
    requires b < n <= 8 * |bytes|
    ensures Marks(bytes[b / 8 := bytes[b / 8] | Mask(b % 8)], n) == Marks(bytes, n)[b := true]
  {
    var r := bytes[b / 8 := bytes[b / 8] | Mask(b % 8)];
    forall c | 0 <= c < n
      ensures Bit(r, c) == (c == b || Bit(bytes, c))
    {
      SetMask(bytes[b / 8], b % 8, c % 8);
    }
  }

  lemma MarkClear(bytes: seq<bv8>, n: nat, b: nat)
    requires b < n <= 8 * |bytes|
    ensures Marks(bytes[b / 8 := bytes[b / 8] & !Mask(b % 8)], n) == Marks(bytes, n)[b := false]
  {
    var r := bytes[b / 8 := bytes[b / 8] & !Mask(b % 8)];
    forall c | 0 <= c < n
      ensures Bit(r, c) == (c != b && Bit(bytes, c))
    {
      ClearMask(bytes[b / 8], b % 8, c % 8);
    }
  }
}
