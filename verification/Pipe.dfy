/**
 The pipe of pipe.c: a ring of PIPESIZE bytes under two 32-bit counters that run freely. Each
 method is what happens between taking the lock and giving it up, by returning or by sleeping.
 The ghost fields hold every byte ever stored and ever delivered.
 */
module Pipe {

  const PIPESIZE: nat := 512
  const WORD: nat := 0x1_0000_0000

  type Byte = x: nat | x < 256

  /** A free-running counter finds its slot across the wrap if and only if the ring size divides the word. */
  lemma SlotExact(word: nat, size: nat)
    requires 0 < size <= word
    ensures (forall n: nat :: Slot(word, size, n) == n % size) <==> word % size == 0
  {
    if word % size == 0 {
      forall n: nat ensures Slot(word, size, n) == n % size { SlotWraps(word, size, n); }
    } else {
      assert Slot(word, size, word) == 0;
    }
  }

  function Slot(word: nat, size: nat, n: nat): (s: nat)
    requires 0 < size && 0 < word
  {
    n % word % size
  }

  lemma SlotWraps(word: nat, size: nat, n: nat)
    requires 0 < size && 0 < word && word % size == 0
    ensures Slot(word, size, n) == n % size
  {
    var q, m, r := n / word, word / size, n % word;
    MulSwap(q, size, m);
    Remainder(n, q * m + r / size, r % size, size);
  }

  lemma MulSwap(q: nat, size: nat, m: nat)
    ensures q * (size * m) == q * m * size
  {
  }

  /** A quotient and a remainder in range are the quotient and the remainder. */
  lemma Remainder(x: nat, q: nat, r: nat, size: nat)
    requires size > 0 && r < size && x == q * size + r
    ensures x % size == r
  {
    var d := x / size;
    assert x == d * size + x % size;
    assert (d - q) * size == d * size - q * size && (q - d) * size == q * size - d * size;
    if d > q {
      Grows(d - q, size);
    } else if d < q {
      Grows(q - d, size);
    }
  }

  lemma Grows(k: nat, size: nat)
    requires k > 0
    ensures k * size >= size
  {
  }

  /** This pipe's own case. */
  lemma OwnSlot(n: nat)
    ensures n % WORD % PIPESIZE == n % PIPESIZE && (n % WORD + 1) % WORD == (n + 1) % WORD
  {
  }

  /** The ring holds the bytes of `s` from `lo` on. */
  predicate Holds(ring: seq<Byte>, s: seq<Byte>, lo: nat)
    requires |ring| == PIPESIZE
  {
    forall k :: lo <= k < |s| ==> ring[k % PIPESIZE] == s[k]
  }

  lemma Put(ring: seq<Byte>, s: seq<Byte>, lo: nat, x: Byte)
    requires |ring| == PIPESIZE && Holds(ring, s, lo) && lo <= |s| < lo + PIPESIZE
    ensures Holds(ring[|s| % PIPESIZE := x], s + [x], lo)
  {
    forall k | lo <= k < |s| ensures k % PIPESIZE != |s| % PIPESIZE { Distant(k, |s|); }
  }

  lemma Distant(k: nat, n: nat)
    requires k < n < k + PIPESIZE
    ensures k % PIPESIZE != n % PIPESIZE
  {
  }

  datatype WriteResult = Wrote(n: nat) | Refused | WriterSleeps(at: nat)
  datatype ReadResult = Got(dst: seq<Byte>) | Interrupted | ReaderSleeps

  class PipeBuffer {
    const data: array<Byte>
    var nread: nat
    var nwrite: nat
    var readopen: bool
    var writeopen: bool
    ghost var stored: seq<Byte>
    ghost var delivered: seq<Byte>

    /** What was delivered is the beginning of what was stored; the rest is in the ring. */
    ghost predicate Valid()
      reads this, data
    {
      && data.Length == PIPESIZE
      && delivered <= stored && |stored| - |delivered| <= PIPESIZE
      && nread == |delivered| % WORD && nwrite == |stored| % WORD
      && Holds(data[..], stored, |delivered|)
    }

    constructor ()
      ensures Valid() && fresh(data) && stored == [] && delivered == [] && readopen && writeopen
    {
      data := new Byte[PIPESIZE](_ => 0);
      nread, nwrite, readopen, writeopen := 0, 0, true, true;
      stored, delivered := [], [];
    }

    /** The tests on the counters, in 32-bit arithmetic, tell full and empty apart. */
    lemma FullEmpty()
      requires Valid()
      ensures nwrite == (nread + PIPESIZE) % WORD <==> |stored| - |delivered| == PIPESIZE
      ensures nread == nwrite <==> |stored| == |delivered|
    {
    }

    /** pipewrite from byte `i` on, until it is done, finds the pipe full and no reader, or has to sleep. */
    method Write(src: seq<Byte>, i: nat, killed: bool) returns (r: WriteResult)
      requires Valid() && i <= |src|
      modifies this`nwrite, this`stored, data
      ensures Valid() && stored <= old(stored) + src[i..] && old(stored) <= stored
      ensures r.Wrote? ==> r.n == |src| && stored == old(stored) + src[i..]
      ensures r.WriterSleeps? ==> i <= r.at < |src| && stored == old(stored) + src[i..r.at]
      ensures !r.Wrote? ==> |stored| - |delivered| == PIPESIZE && (r.Refused? <==> !readopen || killed)
      ensures !r.Wrote? ==> |stored| < |old(stored)| + |src| - i
    {
      var at := i;
      while at < |src|
        invariant Valid() && i <= at <= |src| && stored == old(stored) + src[i..at]
      {
        FullEmpty();
        if nwrite == (nread + PIPESIZE) % WORD {
          if !readopen || killed {
            return Refused;
          }
          return WriterSleeps(at);
        }
        OwnSlot(|stored|);
        Put(data[..], stored, |delivered|, src[at]);
        ghost var ring := data[..];
        data[nwrite % PIPESIZE] := src[at];
        nwrite := (nwrite + 1) % WORD;
        assert data[..] == ring[|stored| % PIPESIZE := src[at]];
        stored := stored + [src[at]];
        assert src[i..at] + [src[at]] == src[i..at + 1];
        at := at + 1;
      }
      return Wrote(|src|);
    }

    /** piperead: sleeps or gives up while the pipe is empty and open for writing; else takes what is there, up to `n`. */
    method Read(n: nat, killed: bool) returns (r: ReadResult)
      requires Valid()
      modifies this`nread, this`delivered
      ensures Valid() && old(delivered) <= delivered
      ensures !r.Got? <==> old(delivered) == stored && writeopen
      ensures !r.Got? ==> delivered == old(delivered) && (r.Interrupted? <==> killed)
      ensures r.Got? ==> delivered == old(delivered) + r.dst
      ensures r.Got? ==> |r.dst| == if n < |stored| - |old(delivered)| then n else |stored| - |old(delivered)|
    {
      FullEmpty();
      if nread == nwrite && writeopen {
        if killed {
          return Interrupted;
        }
        return ReaderSleeps;
      }
      var dst, i := [], 0;
      while i < n
        invariant Valid() && 0 <= i <= n && |dst| == i && delivered == old(delivered) + dst
      {
        FullEmpty();
        if nread == nwrite {
          break;
        }
        OwnSlot(|delivered|);
        assert data[..][|delivered| % PIPESIZE] == stored[|delivered|];
        dst := dst + [data[nread % PIPESIZE]];
        delivered := delivered + [data[nread % PIPESIZE]];
        nread := (nread + 1) % WORD;
        i := i + 1;
      }
      return Got(dst);
    }

    /** pipeclose: true if both ends are closed, and the page is freed. */
    method Close(writable: bool) returns (freed: bool)
      requires Valid()
      modifies this`readopen, this`writeopen
      ensures Valid() && freed == (!readopen && !writeopen)
      ensures if writable then !writeopen && readopen == old(readopen) else !readopen && writeopen == old(writeopen)
    {
      if writable {
        writeopen := false;
      } else {
        readopen := false;
      }
      freed := !readopen && !writeopen;
    }
  }
}
