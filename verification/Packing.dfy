/**
 * Self-relative messages: a pointer table and data blocks, allocated one after the other at the end of a byte
 * buffer.
 */
module Packing {

  type byte = x: int | 0 <= x < 0x100

  // Where the fields of the packed message lie. Before the table of the state message there are the base message
  // (69 bytes), the message type (4) and the room (16); the table itself has two words.
  const SIZE_OF_DATA: nat := 60
  const ARRAY_START: nat := 89
  const ARRAY_SIZE: nat := 93
  const HEADER: nat := 97
  const BUFFER: nat := 4096

  // ---- Words and blocks in a buffer

  function Splice(d: seq<byte>, at: nat, b: seq<byte>): (r: seq<byte>)
    requires at + |b| <= |d|
    ensures |r| == |d| && r[at..at + |b|] == b
    ensures r[..at] == d[..at] && r[at + |b|..] == d[at + |b|..]
  {
    d[..at] + b + d[at + |b|..]
  }

  /** Four bytes, the lowest first. */
  function Word(v: nat): (b: seq<byte>)
    requires v < 0x1_0000_0000
    ensures |b| == 4
  {
    [v % 0x100, v / 0x100 % 0x100, v / 0x1_0000 % 0x100, v / 0x100_0000]
  }

  function WordAt(d: seq<byte>, at: nat): (v: nat)
    requires at + 4 <= |d|
    ensures v < 0x1_0000_0000
  {
    d[at] as int + 0x100 * (d[at + 1] as int) + 0x1_0000 * (d[at + 2] as int) + 0x100_0000 * (d[at + 3] as int)
  }

  /** The four bytes of a word make it up again. */
  lemma WordAddsUp(v: nat)
    requires v < 0x1_0000_0000
    ensures v % 0x100 + 0x100 * (v / 0x100 % 0x100)
            + 0x1_0000 * (v / 0x1_0000 % 0x100) + 0x100_0000 * (v / 0x100_0000) == v
  {
    var h, q := v / 0x100, v / 0x1_0000;
    assert q == h / 0x100 && v / 0x100_0000 == q / 0x100;
    assert v == 0x100 * h + v % 0x100 && h == 0x100 * q + h % 0x100 && q == 0x100 * (q / 0x100) + q % 0x100;
  }

  lemma WordReadsBack(d: seq<byte>, at: nat, v: nat)
    requires at + 4 <= |d| && v < 0x1_0000_0000
    ensures WordAt(Splice(d, at, Word(v)), at) == v
  {
    var r := Splice(d, at, Word(v));
    assert r[at] == Word(v)[0] && r[at + 1] == Word(v)[1] && r[at + 2] == Word(v)[2] && r[at + 3] == Word(v)[3] by {
      assert r[at..at + 4][0] == r[at] && r[at..at + 4][1] == r[at + 1];
      assert r[at..at + 4][2] == r[at + 2] && r[at..at + 4][3] == r[at + 3];
    }
    WordAddsUp(v);
  }

  /** A write leaves alone what lies before or behind it. */
  lemma ElsewhereUnchanged(d: seq<byte>, at: nat, b: seq<byte>, lo: nat, hi: nat)
    requires at + |b| <= |d| && lo <= hi <= |d| && (hi <= at || at + |b| <= lo)
    ensures Splice(d, at, b)[lo..hi] == d[lo..hi]
  {
  }

  lemma WordUnchanged(d: seq<byte>, at: nat, b: seq<byte>, w: nat)
    requires at + |b| <= |d| && w + 4 <= |d| && (w + 4 <= at || at + |b| <= w)
    ensures WordAt(Splice(d, at, b), w) == WordAt(d, w)
  {
  }

  // ---- What a packed message holds

  function Total(blocks: seq<seq<byte>>): nat {
    if blocks == [] then 0 else Total(blocks[..|blocks| - 1]) + |blocks[|blocks| - 1]|
  }

  lemma {:induction false} TotalGrows(blocks: seq<seq<byte>>, lo: nat, i: nat, j: nat)
    requires lo <= i <= j <= |blocks|
    ensures Total(blocks[lo..i]) <= Total(blocks[lo..j])
    decreases j
  {
    if i < j {
      TotalOfNext(blocks, lo, j - 1);
      TotalGrows(blocks, lo, i, j - 1);
    }
  }

  lemma TotalOfNext(blocks: seq<seq<byte>>, lo: nat, i: nat)
    requires lo <= i < |blocks|
    ensures Total(blocks[lo..i + 1]) == Total(blocks[lo..i]) + |blocks[i]|
  {
    assert blocks[lo..i + 1][..i - lo] == blocks[lo..i];
  }

  /** The end of the data once blocks `offset` to `i - 1` are packed behind a table of `n` pointers. */
  function End(blocks: seq<seq<byte>>, offset: nat, i: nat, n: nat): nat
    requires offset <= i <= |blocks|
  {
    HEADER + 4 * n + Total(blocks[offset..i])
  }

  function Pointer(i: nat): nat {
    HEADER + 4 * i
  }

  /** Where pointer `i` leads: an address relative to the pointer itself. */
  function Target(d: seq<byte>, i: nat): nat
    requires Pointer(i) + 4 <= |d|
  {
    Pointer(i) + WordAt(d, Pointer(i))
  }

  /** The table, the total size, and blocks `offset` to `i - 1`, each where its pointer leads. */
  ghost predicate Packed(d: seq<byte>, blocks: seq<seq<byte>>, offset: nat, i: nat, n: nat) {
    && offset <= i <= n <= |blocks| && End(blocks, offset, n, n) <= |d|
    && WordAt(d, SIZE_OF_DATA) == End(blocks, offset, i, n)
    && ARRAY_START + WordAt(d, ARRAY_START) == HEADER && WordAt(d, ARRAY_SIZE) == n
    && forall k :: offset <= k < i ==> BlockAt(d, blocks, offset, k, n)
  }

  ghost predicate BlockAt(d: seq<byte>, blocks: seq<seq<byte>>, offset: nat, k: nat, n: nat)
    requires offset <= k < n <= |blocks| && End(blocks, offset, n, n) <= |d|
  {
    && Target(d, k) == End(blocks, offset, k, n)
    && End(blocks, offset, k, n) + |blocks[k]| <= |d|
    && d[End(blocks, offset, k, n)..][..|blocks[k]|] == blocks[k]
  }

  /** The room one more block takes. */
  lemma BlockFits(blocks: seq<seq<byte>>, offset: nat, k: nat, n: nat)
    requires offset <= k < n <= |blocks|
    ensures End(blocks, offset, k, n) + |blocks[k]| == End(blocks, offset, k + 1, n) <= End(blocks, offset, n, n)
  {
    TotalOfNext(blocks, offset, k);
    TotalGrows(blocks, offset, k + 1, n);
  }

  /** A write that hits neither the pointer nor the block leaves both as they are. */
  lemma BlockUnchanged(d: seq<byte>, blocks: seq<seq<byte>>, offset: nat, k: nat, n: nat, at: nat, b: seq<byte>)
    requires offset <= k < n <= |blocks| && End(blocks, offset, n, n) <= |d| && BlockAt(d, blocks, offset, k, n)
    requires at + |b| <= |d|
    requires || at + |b| <= Pointer(k) || (Pointer(k) + 4 <= at && at + |b| <= HEADER + 4 * n)
             || End(blocks, offset, k + 1, n) <= at
    ensures BlockAt(Splice(d, at, b), blocks, offset, k, n)
  {
    var lo, size := End(blocks, offset, k, n), |blocks[k]|;
    BlockFits(blocks, offset, k, n);
    WordUnchanged(d, at, b, Pointer(k));
    ElsewhereUnchanged(d, at, b, lo, lo + size);
    assert d[lo..][..size] == d[lo..lo + size] && Splice(d, at, b)[lo..][..size] == Splice(d, at, b)[lo..lo + size];
  }

  /** Regions of different blocks do not meet, and lie between the table and the end of the data. */
  lemma RegionsAreDisjoint(d: seq<byte>, blocks: seq<seq<byte>>, offset: nat, n: nat, j: nat, k: nat)
    requires Packed(d, blocks, offset, n, n) && offset <= j < k < n
    ensures HEADER + 4 * n <= Target(d, j) && Target(d, j) + |blocks[j]| <= Target(d, k)
    ensures Target(d, k) + |blocks[k]| <= WordAt(d, SIZE_OF_DATA)
  {
    assert BlockAt(d, blocks, offset, j, n) && BlockAt(d, blocks, offset, k, n);
    BlockFits(blocks, offset, j, n);
    BlockFits(blocks, offset, k, n);
    TotalGrows(blocks, offset, j + 1, k);
  }

  // ---- Packing one message

  class StateMessage {
    const data: array<byte>

    constructor ()
      ensures fresh(data) && data.Length == BUFFER
    {
      data := new byte[BUFFER];
    }

    method PutWord(at: nat, v: nat)
      requires at + 4 <= data.Length && v < 0x1_0000_0000
      modifies data
      ensures data[..] == Splice(old(data[..]), at, Word(v))
    {
      data[at], data[at + 1], data[at + 2], data[at + 3] :=
        v % 0x100, v / 0x100 % 0x100, v / 0x1_0000 % 0x100, v / 0x100_0000;
    }

    method Copy(at: nat, b: seq<byte>)
      requires at + |b| <= data.Length
      modifies data
      ensures data[..] == Splice(old(data[..]), at, b)
    {
      forall k | 0 <= k < |b| {
        data[at + k] := b[k];
      }
    }

    function SizeOfData(): (v: nat)
      requires data.Length >= HEADER
      reads data
      ensures v == WordAt(data[..], SIZE_OF_DATA)
    {
      data[60] as int + 0x100 * (data[61] as int) + 0x1_0000 * (data[62] as int) + 0x100_0000 * (data[63] as int)
    }

    /** The table takes room for `n` pointers at the end of the data. */
    method InitArray(n: nat)
      requires data.Length >= HEADER && SizeOfData() + 4 * n <= data.Length < 0x1_0000_0000
      requires ARRAY_START <= SizeOfData()
      modifies data
      ensures data[..] == var d := old(data[..]); var end := WordAt(d, SIZE_OF_DATA);
        Splice(Splice(Splice(d, ARRAY_START, Word(end - ARRAY_START)), ARRAY_SIZE, Word(n)),
               SIZE_OF_DATA, Word(end + 4 * n))
    {
      var end := SizeOfData();
      PutWord(ARRAY_START, end - ARRAY_START);
      PutWord(ARRAY_SIZE, n);
      PutWord(SIZE_OF_DATA, end + 4 * n);
    }

    /** Pointer `i` leads to the end of the data, which takes `size` more bytes. */
    method InitPointer(i: nat, size: nat)
      requires HEADER <= data.Length < 0x1_0000_0000
      requires Pointer(i) + 4 <= SizeOfData() && SizeOfData() + size <= data.Length
      modifies data
      ensures data[..] == var d := old(data[..]); var end := WordAt(d, SIZE_OF_DATA);
        Splice(Splice(d, Pointer(i), Word(end - Pointer(i))), SIZE_OF_DATA, Word(end + size))
    {
      var end := SizeOfData();
      PutWord(Pointer(i), end - Pointer(i));
      PutWord(SIZE_OF_DATA, end + size);
    }

    /** Packs the blocks from `offset` on, `size` of them or all that are left. Earlier pointers are not written. */
    method GetArray(forSend: seq<seq<byte>>, offset: nat, size: nat)
      requires offset <= |forSend| && Fits(forSend, offset, size, data.Length) && data.Length < 0x1_0000_0000
      modifies data
      ensures Packed(data[..], forSend, offset, Upto(forSend, offset, size), Upto(forSend, offset, size))
      ensures data[..SIZE_OF_DATA] == old(data[..SIZE_OF_DATA])
      ensures data[SIZE_OF_DATA + 4..ARRAY_START] == old(data[SIZE_OF_DATA + 4..ARRAY_START])
      ensures data[HEADER..Pointer(offset)] == old(data[HEADER..Pointer(offset)])
    {
      ghost var d0: seq<byte> := data[..];
      var n := |forSend|;
      if n > offset + size {
        n := offset + size;
      }
      TotalGrows(forSend, offset, offset, n);
      PutTable(n);
      TableIsPacked(d0, forSend, offset, n);
      PutBlocks(forSend, offset, n, d0);
      OthersInParts(d0, data[..], offset);
    }

    method PutBlocks(forSend: seq<seq<byte>>, offset: nat, n: nat, ghost d0: seq<byte>)
      requires Packed(data[..], forSend, offset, offset, n) && OthersKept(d0, data[..], offset)
      requires data.Length < 0x1_0000_0000
      modifies data
      ensures Packed(data[..], forSend, offset, n, n) && OthersKept(d0, data[..], offset)
    {
      ghost var d := data[..];
      for i := offset to n
        invariant d == data[..] && Packed(d, forSend, offset, i, n) && OthersKept(d0, d, offset)
      {
        PackNext(d, forSend, offset, i, n);
        NextKeepsOthers(d0, d, forSend, offset, i, n);
        PutBlock(forSend, offset, i, n);
        d := WithBlock(d, forSend, offset, i, n);
      }
    }

    method PutTable(n: nat)
      requires HEADER + 4 * n <= data.Length < 0x1_0000_0000
      modifies data
      ensures data[..] == WithTable(old(data[..]), n)
    {
      PutWord(SIZE_OF_DATA, HEADER);
      WordReadsBack(old(data[..]), SIZE_OF_DATA, HEADER);
      InitArray(n);
    }

    /** One round of the loop: the pointer, and the block where it leads. */
    method PutBlock(forSend: seq<seq<byte>>, ghost offset: nat, i: nat, ghost n: nat)
      requires offset <= i < n <= |forSend| && End(forSend, offset, n, n) <= data.Length < 0x1_0000_0000
      requires SizeOfData() == End(forSend, offset, i, n)
      modifies data
      ensures data[..] == WithBlock(old(data[..]), forSend, offset, i, n)
    {
      ghost var d: seq<byte> := data[..];
      var t := forSend[i];
      PutPointer(forSend, offset, i, n);
      PointerReadsBack(d, forSend, offset, i, n);
      BlockFits(forSend, offset, i, n);
      var at := Pointer(i) + PointerAt(Pointer(i));
      Copy(at, t);
    }

    method PutPointer(forSend: seq<seq<byte>>, ghost offset: nat, i: nat, ghost n: nat)
      requires offset <= i < n <= |forSend| && End(forSend, offset, n, n) <= data.Length < 0x1_0000_0000
      requires SizeOfData() == End(forSend, offset, i, n)
      modifies data
      ensures data[..] == WithPointer(old(data[..]), forSend, offset, i, n)
    {
      BlockFits(forSend, offset, i, n);
      InitPointer(i, |forSend[i]|);
    }

    function PointerAt(at: nat): (v: nat)
      requires at + 4 <= data.Length
      reads data
      ensures v == WordAt(data[..], at)
    {
      data[at] as int + 0x100 * (data[at + 1] as int)
      + 0x1_0000 * (data[at + 2] as int) + 0x100_0000 * (data[at + 3] as int)
    }
  }

  function Upto(blocks: seq<seq<byte>>, offset: nat, size: nat): (n: nat)
    ensures n <= |blocks| && (offset <= |blocks| ==> offset <= n)
  {
    if |blocks| > offset + size then offset + size else |blocks|
  }

  /** The table and the blocks have room in a buffer of `length` bytes. */
  predicate Fits(blocks: seq<seq<byte>>, offset: nat, size: nat, length: nat)
    requires offset <= |blocks|
  {
    var n := Upto(blocks, offset, size);
    End(blocks, offset, n, n) <= length
  }

  /** Everything in front of the table that is not counted there, and the table entries below `offset`. */
  ghost predicate OthersKept(d: seq<byte>, r: seq<byte>, offset: nat) {
    && |r| == |d| && Pointer(offset) <= |d|
    && forall x :: 0 <= x < Pointer(offset) && IsOther(x) ==> r[x] == d[x]
  }

  predicate IsOther(x: nat) {
    x < SIZE_OF_DATA || SIZE_OF_DATA + 4 <= x < ARRAY_START || HEADER <= x
  }

  lemma OthersInParts(d: seq<byte>, r: seq<byte>, offset: nat)
    requires OthersKept(d, r, offset)
    ensures r[..SIZE_OF_DATA] == d[..SIZE_OF_DATA]
    ensures r[SIZE_OF_DATA + 4..ARRAY_START] == d[SIZE_OF_DATA + 4..ARRAY_START]
    ensures r[HEADER..Pointer(offset)] == d[HEADER..Pointer(offset)]
  {
  }

  /** The three writes that make up the table. */
  function WithTable(d: seq<byte>, n: nat): (r: seq<byte>)
    requires HEADER + 4 * n <= |d| < 0x1_0000_0000
    ensures |r| == |d|
  {
    var d' := Splice(d, SIZE_OF_DATA, Word(HEADER));
    Splice(Splice(Splice(d', ARRAY_START, Word(HEADER - ARRAY_START)), ARRAY_SIZE, Word(n)),
           SIZE_OF_DATA, Word(HEADER + 4 * n))
  }

  lemma TableIsPacked(d: seq<byte>, blocks: seq<seq<byte>>, offset: nat, n: nat)
    requires offset <= n <= |blocks| && End(blocks, offset, n, n) <= |d| < 0x1_0000_0000
    ensures Packed(WithTable(d, n), blocks, offset, offset, n) && OthersKept(d, WithTable(d, n), offset)
  {
    var d1 := Splice(Splice(d, SIZE_OF_DATA, Word(HEADER)), ARRAY_START, Word(HEADER - ARRAY_START));
    var d2 := Splice(d1, ARRAY_SIZE, Word(n));
    WordReadsBack(Splice(d, SIZE_OF_DATA, Word(HEADER)), ARRAY_START, HEADER - ARRAY_START);
    WordUnchanged(d1, ARRAY_SIZE, Word(n), ARRAY_START);
    WordUnchanged(d2, SIZE_OF_DATA, Word(HEADER + 4 * n), ARRAY_START);
    WordReadsBack(d1, ARRAY_SIZE, n);
    WordUnchanged(d2, SIZE_OF_DATA, Word(HEADER + 4 * n), ARRAY_SIZE);
    WordReadsBack(d2, SIZE_OF_DATA, HEADER + 4 * n);
    assert blocks[offset..offset] == [];
  }

  /** The writes for one block: its pointer, the total size, and the block. */
  function WithPointer(d: seq<byte>, blocks: seq<seq<byte>>, offset: nat, i: nat, n: nat): (r: seq<byte>)
    requires offset <= i < n <= |blocks| && End(blocks, offset, n, n) <= |d| < 0x1_0000_0000
    ensures |r| == |d|
  {
    BlockFits(blocks, offset, i, n);
    var end := End(blocks, offset, i, n);
    Splice(Splice(d, Pointer(i), Word(end - Pointer(i))), SIZE_OF_DATA, Word(end + |blocks[i]|))
  }

  function WithBlock(d: seq<byte>, blocks: seq<seq<byte>>, offset: nat, i: nat, n: nat): (r: seq<byte>)
    requires offset <= i < n <= |blocks| && End(blocks, offset, n, n) <= |d| < 0x1_0000_0000
    ensures |r| == |d|
  {
    BlockFits(blocks, offset, i, n);
    Splice(WithPointer(d, blocks, offset, i, n), End(blocks, offset, i, n), blocks[i])
  }

  lemma PointerReadsBack(d: seq<byte>, blocks: seq<seq<byte>>, offset: nat, i: nat, n: nat)
    requires offset <= i < n <= |blocks| && End(blocks, offset, n, n) <= |d| < 0x1_0000_0000
    ensures Target(WithPointer(d, blocks, offset, i, n), i) == End(blocks, offset, i, n)
    ensures WordAt(WithPointer(d, blocks, offset, i, n), SIZE_OF_DATA) == End(blocks, offset, i + 1, n)
  {
    BlockFits(blocks, offset, i, n);
    var end := End(blocks, offset, i, n);
    var d1 := Splice(d, Pointer(i), Word(end - Pointer(i)));
    WordReadsBack(d, Pointer(i), end - Pointer(i));
    WordUnchanged(d1, SIZE_OF_DATA, Word(end + |blocks[i]|), Pointer(i));
    WordReadsBack(d1, SIZE_OF_DATA, end + |blocks[i]|);
  }

  /** Words of the table front are left as they are by one more block. */
  lemma NextKeepsWord(d: seq<byte>, blocks: seq<seq<byte>>, offset: nat, i: nat, n: nat, w: nat)
    requires offset <= i < n <= |blocks| && End(blocks, offset, n, n) <= |d| < 0x1_0000_0000
    requires SIZE_OF_DATA + 4 <= w && w + 4 <= HEADER
    ensures WordAt(WithBlock(d, blocks, offset, i, n), w) == WordAt(d, w)
  {
    BlockFits(blocks, offset, i, n);
    var end := End(blocks, offset, i, n);
    var d1 := Splice(d, Pointer(i), Word(end - Pointer(i)));
    WordUnchanged(d, Pointer(i), Word(end - Pointer(i)), w);
    WordUnchanged(d1, SIZE_OF_DATA, Word(end + |blocks[i]|), w);
    WordUnchanged(WithPointer(d, blocks, offset, i, n), end, blocks[i], w);
  }

  lemma NextKeepsBlock(d: seq<byte>, blocks: seq<seq<byte>>, offset: nat, i: nat, n: nat, k: nat)
    requires offset <= k < i < n <= |blocks| && End(blocks, offset, n, n) <= |d| < 0x1_0000_0000
    requires BlockAt(d, blocks, offset, k, n)
    ensures BlockAt(WithBlock(d, blocks, offset, i, n), blocks, offset, k, n)
  {
    BlockFits(blocks, offset, i, n);
    TotalGrows(blocks, offset, k + 1, i);
    var end := End(blocks, offset, i, n);
    var d1 := Splice(d, Pointer(i), Word(end - Pointer(i)));
    BlockUnchanged(d, blocks, offset, k, n, Pointer(i), Word(end - Pointer(i)));
    BlockUnchanged(d1, blocks, offset, k, n, SIZE_OF_DATA, Word(end + |blocks[i]|));
    BlockUnchanged(WithPointer(d, blocks, offset, i, n), blocks, offset, k, n, end, blocks[i]);
  }

  lemma PackNext(d: seq<byte>, blocks: seq<seq<byte>>, offset: nat, i: nat, n: nat)
    requires Packed(d, blocks, offset, i, n) && i < n && |d| < 0x1_0000_0000
    ensures Packed(WithBlock(d, blocks, offset, i, n), blocks, offset, i + 1, n)
  {
    BlockFits(blocks, offset, i, n);
    var end, p := End(blocks, offset, i, n), WithPointer(d, blocks, offset, i, n);
    var r := WithBlock(d, blocks, offset, i, n);
    PointerReadsBack(d, blocks, offset, i, n);
    WordUnchanged(p, end, blocks[i], Pointer(i));
    WordUnchanged(p, end, blocks[i], SIZE_OF_DATA);
    NextKeepsWord(d, blocks, offset, i, n, ARRAY_START);
    NextKeepsWord(d, blocks, offset, i, n, ARRAY_SIZE);
    assert r[end..][..|blocks[i]|] == r[end..end + |blocks[i]|];
    forall k | offset <= k < i
      ensures BlockAt(r, blocks, offset, k, n)
    {
      NextKeepsBlock(d, blocks, offset, i, n, k);
    }
  }

  lemma NextKeepsOthers(d0: seq<byte>, d: seq<byte>, blocks: seq<seq<byte>>, offset: nat, i: nat, n: nat)
    requires OthersKept(d0, d, offset)
    requires offset <= i < n <= |blocks| && End(blocks, offset, n, n) <= |d| < 0x1_0000_0000
    ensures OthersKept(d0, WithBlock(d, blocks, offset, i, n), offset)
  {
    BlockFits(blocks, offset, i, n);
    var end := End(blocks, offset, i, n);
    var d1 := Splice(d, Pointer(i), Word(end - Pointer(i)));
    var d2 := Splice(d1, SIZE_OF_DATA, Word(end + |blocks[i]|));
    forall x | 0 <= x < Pointer(offset) && IsOther(x)
      ensures Splice(d2, end, blocks[i])[x] == d0[x]
    {
      ByteUnchanged(d, Pointer(i), Word(end - Pointer(i)), x);
      ByteUnchanged(d1, SIZE_OF_DATA, Word(end + |blocks[i]|), x);
      ByteUnchanged(d2, end, blocks[i], x);
    }
  }

  lemma ByteUnchanged(d: seq<byte>, at: nat, b: seq<byte>, x: nat)
    requires at + |b| <= |d| && x < |d| && (x < at || at + |b| <= x)
    ensures Splice(d, at, b)[x] == d[x]
  {
  }

  // ---- Packing everything, sixteen blocks to a message

  const BATCH: nat := 16

  /** What a reader finds behind pointer `i` of a message. */
  function ReadBlock(d: seq<byte>, i: nat, size: nat): (b: seq<byte>)
    requires Pointer(i) + 4 <= |d| && Target(d, i) + size <= |d|
    ensures |b| == size
  {
    d[Target(d, i)..][..size]
  }

  /** The message that is sent ends where its data ends. */
  lemma SentIsPacked(d: seq<byte>, blocks: seq<seq<byte>>, offset: nat, n: nat)
    requires Packed(d, blocks, offset, n, n)
    ensures WordAt(d, SIZE_OF_DATA) <= |d| && Packed(d[..WordAt(d, SIZE_OF_DATA)], blocks, offset, n, n)
  {
    var r := d[..WordAt(d, SIZE_OF_DATA)];
    forall k | offset <= k < n
      ensures BlockAt(r, blocks, offset, k, n)
    {
      assert BlockAt(d, blocks, offset, k, n);
      BlockFits(blocks, offset, k, n);
      var end := End(blocks, offset, k, n);
      assert r[end..][..|blocks[k]|] == d[end..][..|blocks[k]|];
    }
  }

  lemma {:induction false} TotalOfParts(blocks: seq<seq<byte>>, i: nat, j: nat)
    requires i <= j <= |blocks|
    ensures Total(blocks[..i]) + Total(blocks[i..j]) == Total(blocks[..j])
    decreases j
  {
    if i == j {
      assert blocks[i..j] == [];
    } else {
      TotalOfParts(blocks, i, j - 1);
      TotalOfNext(blocks, i, j - 1);
      TotalOfNext(blocks, 0, j - 1);
      assert blocks[..j] == blocks[0..j] && blocks[..j - 1] == blocks[0..j - 1];
    }
  }

  /** Message `b` carries exactly the blocks from `16 * b` on, sixteen or the rest, and ends with the last of them. */
  ghost predicate Carries(packet: seq<byte>, blocks: seq<seq<byte>>, b: nat)
    requires b * BATCH <= |blocks|
  {
    var n := Upto(blocks, b * BATCH, BATCH);
    Packed(packet, blocks, b * BATCH, n, n) && |packet| == WordAt(packet, SIZE_OF_DATA)
  }

  /** Bytes that are neither header nor pointers. */
  function Payload(packets: seq<seq<byte>>): int
  {
    if packets == [] then 0
    else
      var last := packets[|packets| - 1];
      Payload(packets[..|packets| - 1])
      + (if |last| < HEADER then 0 else |last| - HEADER - 4 * WordAt(last, ARRAY_SIZE))
  }

  lemma PayloadGrows(packets: seq<seq<byte>>, packet: seq<byte>, blocks: seq<seq<byte>>, i: nat)
    requires i < |blocks| && Payload(packets) == Total(blocks[..i])
    requires Packed(packet, blocks, i, Upto(blocks, i, BATCH), Upto(blocks, i, BATCH))
    requires |packet| == WordAt(packet, SIZE_OF_DATA)
    ensures Payload(packets + [packet]) == Total(blocks[..Upto(blocks, i, BATCH)])
  {
    TotalOfParts(blocks, i, Upto(blocks, i, BATCH));
    assert (packets + [packet])[..|packets|] == packets;
  }

  lemma CarriesNext(packets: seq<seq<byte>>, packet: seq<byte>, blocks: seq<seq<byte>>)
    requires forall b :: 0 <= b < |packets| ==> b * BATCH <= |blocks| && Carries(packets[b], blocks, b)
    requires |packets| * BATCH <= |blocks| && Carries(packet, blocks, |packets|)
    ensures var r := packets + [packet];
      forall b :: 0 <= b < |r| ==> b * BATCH <= |blocks| && Carries(r[b], blocks, b)
  {
    var r := packets + [packet];
    forall b | 0 <= b < |r|
      ensures b * BATCH <= |blocks| && Carries(r[b], blocks, b)
    {
      assert r[b] == if b < |packets| then packets[b] else packet;
    }
  }

  predicate BatchFits(blocks: seq<seq<byte>>, b: nat) {
    b * BATCH < |blocks| ==> Fits(blocks, b * BATCH, BATCH, BUFFER)
  }

  /** The loop that sends all states, in a new buffer for each message. */
  method SendAll(forSend: seq<seq<byte>>) returns (packets: seq<seq<byte>>)
    requires forall b :: b >= 0 ==> BatchFits(forSend, b)
    ensures |packets| * BATCH < |forSend| + BATCH && |forSend| <= |packets| * BATCH
    ensures forall b :: 0 <= b < |packets| ==> b * BATCH <= |forSend| && Carries(packets[b], forSend, b)
    ensures Payload(packets) == Total(forSend)
  {
    packets := [];
    var i := 0;
    while i < |forSend|
      invariant i == |packets| * BATCH < |forSend| + BATCH
      invariant forall b :: 0 <= b < |packets| ==> b * BATCH <= |forSend| && Carries(packets[b], forSend, b)
      invariant Payload(packets) == Total(forSend[..if i < |forSend| then i else |forSend|])
    {
      assert BatchFits(forSend, |packets|);
      var packet := SendBatch(forSend, i);
      PayloadGrows(packets, packet, forSend, i);
      CarriesNext(packets, packet, forSend);
      packets := packets + [packet];
      i := i + BATCH;
    }
    assert forSend[..|forSend|] == forSend;
  }

  method SendBatch(forSend: seq<seq<byte>>, i: nat) returns (packet: seq<byte>)
    requires i < |forSend| && Fits(forSend, i, BATCH, BUFFER)
    ensures Packed(packet, forSend, i, Upto(forSend, i, BATCH), Upto(forSend, i, BATCH))
    ensures |packet| == WordAt(packet, SIZE_OF_DATA)
  {
    var m := new StateMessage();
    m.GetArray(forSend, i, BATCH);
    SentIsPacked(m.data[..], forSend, i, Upto(forSend, i, BATCH));
    packet := m.data[..m.SizeOfData()];
  }

  /** Every block is in the one message that its number names, and is read back there unchanged. */
  lemma EveryBlockReadsBack(packets: seq<seq<byte>>, blocks: seq<seq<byte>>, k: nat)
    requires |blocks| <= |packets| * BATCH && k < |blocks|
    requires forall b :: 0 <= b < |packets| ==> b * BATCH <= |blocks| && Carries(packets[b], blocks, b)
    ensures k / BATCH < |packets|
    ensures var d := packets[k / BATCH];
      && HEADER <= Pointer(k) + 4 <= |d| && k < WordAt(d, ARRAY_SIZE) && Target(d, k) + |blocks[k]| <= |d|
      && ReadBlock(d, k, |blocks[k]|) == blocks[k]
    ensures forall b :: 0 <= b < |packets| && b * BATCH <= k < Upto(blocks, b * BATCH, BATCH) ==> b == k / BATCH
  {
    var b := k / BATCH;
    var offset := b * BATCH;
    var n := Upto(blocks, offset, BATCH);
    assert Carries(packets[b], blocks, b);
    assert BlockAt(packets[b], blocks, offset, k, n);
    BlockFits(blocks, offset, k, n);
  }

  // ---- How many blocks can be sent

  /** The table counts the blocks of earlier messages too, so no message that ends beyond block 999 fits. */
  lemma LateBatchesDoNotFit(blocks: seq<seq<byte>>, b: nat)
    requires b * BATCH < |blocks| && Upto(blocks, b * BATCH, BATCH) > 999
    ensures !BatchFits(blocks, b)
  {
  }

  /** From a thousand blocks on the last message never fits, whatever the blocks. */
  lemma ThousandBlocksDoNotFit(blocks: seq<seq<byte>>)
    requires |blocks| >= 1000
    ensures !BatchFits(blocks, (|blocks| - 1) / BATCH)
  {
    LateBatchesDoNotFit(blocks, (|blocks| - 1) / BATCH);
  }

  lemma {:induction false} TotalOfSmall(blocks: seq<seq<byte>>)
    requires forall b <- blocks :: |b| <= 100
    ensures Total(blocks) <= 100 * |blocks|
  {
    if blocks != [] {
      assert blocks[|blocks| - 1] in blocks;
      TotalOfSmall(blocks[..|blocks| - 1]);
    }
  }

  /** Up to 599 blocks of at most a hundred bytes always fit. */
  lemma SmallBlocksFit(blocks: seq<seq<byte>>, b: nat)
    requires |blocks| <= 599 && forall k <- blocks :: |k| <= 100
    ensures BatchFits(blocks, b)
  {
    if b * BATCH < |blocks| {
      TotalOfSmall(blocks[b * BATCH..Upto(blocks, b * BATCH, BATCH)]);
    }
  }
}
