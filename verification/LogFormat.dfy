/**
 The on-disk format of the write-ahead log: a header block holding a count and the home
 block numbers, followed by one log block per entry. A block is seen as BSIZE/4 words,
 which is how struct logheader lies over it.
 */
module LogFormat {

  const MAXOPBLOCKS: nat := 10
  const LOGSIZE: nat := MAXOPBLOCKS * 3
  const BWORDS: nat := 128

  type Word = w: int | 0 <= w < 0x1_0000_0000

  type Block = b: seq<Word> | |b| == BWORDS witness seq(BWORDS, i => 0)

  type Disk = seq<Block>

  /** Where the log sits: `start` and `size` are sb.logstart and sb.nlog. */
  datatype Layout = Layout(start: nat, size: nat, nblocks: nat) {

    predicate Ok() {
      1 <= size && start + size <= nblocks < 0x1_0000_0000
    }

    /** A block outside the log region. */
    predicate Home(b: int) {
      0 <= b < nblocks && !(start <= b < start + size)
    }
  }

  predicate Distinct(s: seq<int>) {
    forall i, j :: 0 <= i < j < |s| ==> s[i] != s[j]
  }

  // The loop of read_head: the first `k` block numbers of the header block.
  function Entries(b: Block, k: nat): (lh: seq<Word>)
    requires k < BWORDS
    ensures |lh| == k
  {
    if k == 0 then [] else Entries(b, k - 1) + [b[k]]
  }

  // What read_head copies out of the header block.
  function ReadHead(b: Block): (lh: seq<Word>)
    requires b[0] <= LOGSIZE
  {
    Entries(b, b[0])
  }

  // What write_head leaves in the header block: the entries past the count stay as they were.
  function WriteHead(b: Block, lh: seq<Word>): (r: Block)
    requires |lh| <= LOGSIZE
  {
    [|lh|] + lh + b[1 + |lh|..]
  }

  lemma {:induction false} EntriesAt(b: Block, k: nat, i: nat)
    requires i < k < BWORDS
    ensures Entries(b, k)[i] == b[1 + i]
  {
    if i < k - 1 {
      EntriesAt(b, k - 1, i);
    }
  }

  /** A header read back is the header written, whatever the block held before. */
  lemma HeadRoundTrip(b: Block, lh: seq<Word>)
    requires |lh| <= LOGSIZE
    ensures WriteHead(b, lh)[0] <= LOGSIZE
    ensures ReadHead(WriteHead(b, lh)) == lh
  {
    var r := WriteHead(b, lh);
    assert r[0] == |lh|;
    forall i | 0 <= i < |lh|
      ensures ReadHead(r)[i] == lh[i]
    {
      EntriesAt(r, |lh|, i);
    }
  }

  /** A transaction the log can hold: distinct home blocks, one log block for each. */
  predicate GoodEntries(L: Layout, lh: seq<Word>) {
    && |lh| <= LOGSIZE
    && |lh| <= L.size - 1
    && Distinct(lh)
    && forall i :: 0 <= i < |lh| ==> L.Home(lh[i])
  }

  // install_trans: copy the first `k` log blocks to their home locations, in order.
  function Install(L: Layout, d: Disk, lh: seq<Word>, k: nat): (r: Disk)
    requires L.Ok() && |d| == L.nblocks && GoodEntries(L, lh) && k <= |lh|
    ensures |r| == |d|
  {
    if k == 0 then d
    else
      var p := Install(L, d, lh, k - 1);
      p[lh[k - 1] := p[L.start + k]]
  }

  // What recover_from_log makes of a disk image: install the logged blocks, clear the header.
  function Recovered(L: Layout, d: Disk): (r: Disk)
    requires L.Ok() && |d| == L.nblocks && HeaderOk(L, d)
    ensures |r| == |d|
  {
    var lh := ReadHead(d[L.start]);
    var i := Install(L, d, lh, |lh|);
    i[L.start := WriteHead(i[L.start], [])]
  }

  predicate HeaderOk(L: Layout, d: Disk)
    requires L.Ok() && |d| == L.nblocks
  {
    d[L.start][0] <= LOGSIZE && GoodEntries(L, ReadHead(d[L.start]))
  }

  /** Installing leaves the log region alone and puts log block i at home block lh[i]. */
  lemma {:induction false} InstallAt(L: Layout, d: Disk, lh: seq<Word>, k: nat)
    requires L.Ok() && |d| == L.nblocks && GoodEntries(L, lh) && k <= |lh|
    ensures forall b :: 0 <= b < L.nblocks && b !in lh[..k] ==> Install(L, d, lh, k)[b] == d[b]
    ensures forall i :: 0 <= i < k ==> Install(L, d, lh, k)[lh[i]] == d[L.start + 1 + i]
  {
    if k > 0 {
      InstallAt(L, d, lh, k - 1);
      assert lh[..k] == lh[..k - 1] + [lh[k - 1]];
      assert L.start + k !in lh[..k - 1];
    }
  }
}
