/** A file's text cut into blocks: mapearArchivoEnString and dumpearArchivo of
    gamecard/src/mapeo.c as functions, and that reading gives back what was written. */
module Blocks {
  import Arithmetic

  /** calcularNumeroDeBloquesNecesarios */
  function BlocksFor(size: nat, blockSize: nat): nat
    requires blockSize > 0
  {
    size / blockSize + 1
  }

  function Least(a: nat, b: nat): nat { if a < b then a else b }

  /** What truncate makes of a block file after a write: filled up with zero bytes. */
  function Padded(chunk: string, blockSize: nat): (r: string)
    requires |chunk| <= blockSize
    ensures |r| == blockSize && r[..|chunk|] == chunk
  {
    chunk + seq(blockSize - |chunk|, i => '\0')
  }

  ghost predicate DistinctBlocks(w: seq<nat>) {
    forall i, j :: 0 <= i < j < |w| ==> w[i] != w[j]
  }

  ghost predicate InDisk(blocks: seq<nat>, size: nat) {
    forall i :: 0 <= i < |blocks| ==> blocks[i] < size
  }

  /** dumpearArchivo: each block gets the next blockSize characters, the last one the rest,
      and blocks past the end of the text get none. */
  function Dump(disk: seq<string>, blocks: seq<nat>, text: string, blockSize: nat): (r: seq<string>)
    requires InDisk(blocks, |disk|) && blockSize > 0
    ensures |r| == |disk|
    decreases |blocks|
  {
    if blocks == [] then disk
    else
      var n := Least(|text|, blockSize);
      Dump(disk[blocks[0] := Padded(text[..n], blockSize)], blocks[1..], text[n..], blockSize)
  }

  /** What fread gets of the first n characters of a block file. */
  function Front(content: string, n: nat): string { content[..Least(n, |content|)] }

  /** mapearArchivoEnString */
  function Read(disk: seq<string>, blocks: seq<nat>, size: nat, blockSize: nat): string
    requires InDisk(blocks, |disk|) && blockSize > 0
    decreases |blocks|
  {
    if blocks == [] then ""
    else
      var n := Least(size, blockSize);
      Front(disk[blocks[0]], n) + Read(disk, blocks[1..], size - n, blockSize)
  }

  lemma {:induction false} DumpElsewhere(disk: seq<string>, blocks: seq<nat>, text: string, blockSize: nat, b: nat)
    requires InDisk(blocks, |disk|) && blockSize > 0 && b < |disk| && b !in blocks
    ensures Dump(disk, blocks, text, blockSize)[b] == disk[b]
    decreases |blocks|
  {
    if blocks != [] {
      var n := Least(|text|, blockSize);
      assert blocks[0] in blocks;
      DumpElsewhere(disk[blocks[0] := Padded(text[..n], blockSize)], blocks[1..], text[n..], blockSize, b);
    }
  }

  /** Reading depends on the file's own blocks only. */
  lemma {:induction false} ReadSame(disk: seq<string>, other: seq<string>, blocks: seq<nat>, size: nat, blockSize: nat)
    requires InDisk(blocks, |disk|) && |disk| == |other| && blockSize > 0
    requires forall b :: b in blocks ==> disk[b] == other[b]
    ensures Read(disk, blocks, size, blockSize) == Read(other, blocks, size, blockSize)
    decreases |blocks|
  {
    if blocks != [] {
      assert blocks[0] in blocks;
      ReadSame(disk, other, blocks[1..], size - Least(size, blockSize), blockSize);
    }
  }

  lemma FewerBlocks(size: nat, blockSize: nat)
    requires 0 < blockSize <= size
    ensures BlocksFor(size - blockSize, blockSize) == BlocksFor(size, blockSize) - 1
  {
    var q, r := size / blockSize, size % blockSize;
    assert (q - 1) * blockSize == q * blockSize - blockSize;
    Arithmetic.DivUnique(size - blockSize, q - 1, blockSize, r);
  }

  lemma FirstBlock(disk: seq<string>, blocks: seq<nat>, text: string, blockSize: nat)
    requires InDisk(blocks, |disk|) && blockSize > 0 && DistinctBlocks(blocks) && blocks != []
    ensures Front(Dump(disk, blocks, text, blockSize)[blocks[0]], Least(|text|, blockSize)) ==
      text[..Least(|text|, blockSize)]
  {
    var n := Least(|text|, blockSize);
    assert blocks[0] !in blocks[1..];
    DumpElsewhere(disk[blocks[0] := Padded(text[..n], blockSize)], blocks[1..], text[n..], blockSize, blocks[0]);
  }

  /** Reading back what was written, from as many blocks as the text needs or more. */
  lemma {:induction false} ReadDump(disk: seq<string>, blocks: seq<nat>, text: string, blockSize: nat)
    requires InDisk(blocks, |disk|) && blockSize > 0 && DistinctBlocks(blocks)
    requires |blocks| >= BlocksFor(|text|, blockSize)
    ensures Read(Dump(disk, blocks, text, blockSize), blocks, |text|, blockSize) == text
    decreases |blocks|
  {
    var n := Least(|text|, blockSize);
    var rest := Dump(disk[blocks[0] := Padded(text[..n], blockSize)], blocks[1..], text[n..], blockSize);
    FirstBlock(disk, blocks, text, blockSize);
    assert Read(rest, blocks, |text|, blockSize) ==
      Front(rest[blocks[0]], n) + Read(rest, blocks[1..], |text| - n, blockSize);
    assert text == text[..n] + text[n..] && |text[n..]| == |text| - n && (n < blockSize ==> n == |text|);
    hide Front, Padded, Least, Dump, Read;
    if n == blockSize {
      FewerBlocks(|text|, blockSize);
      hide BlocksFor;
      ReadDump(disk[blocks[0] := Padded(text[..n], blockSize)], blocks[1..], text[n..], blockSize);
    } else {
      ReadNothing(rest, blocks[1..], blockSize);
    }
  }

  lemma {:induction false} ReadNothing(disk: seq<string>, blocks: seq<nat>, blockSize: nat)
    requires InDisk(blocks, |disk|) && blockSize > 0
    ensures Read(disk, blocks, 0, blockSize) == ""
    decreases |blocks|
  {
    if blocks != [] {
      assert blocks[0] in blocks;
      ReadNothing(disk, blocks[1..], blockSize);
    }
  }

  /** The least number of blocks whose size is more than the text's. */
  lemma BlocksForIs(size: nat, blockSize: nat)
    requires blockSize > 0
    ensures var n := BlocksFor(size, blockSize); (n - 1) * blockSize <= size < n * blockSize
  {
  }

  /** What is written where: the i-th block gets the i-th part of the text, and zero bytes where
      the text has ended. */
  lemma {:induction false} DumpAt(disk: seq<string>, blocks: seq<nat>, text: string, blockSize: nat, i: nat, c: nat)
    requires InDisk(blocks, |disk|) && blockSize > 0 && DistinctBlocks(blocks) && i < |blocks| && c < blockSize
    ensures var b := Dump(disk, blocks, text, blockSize)[blocks[i]];
      |b| == blockSize && b[c] == if i * blockSize + c < |text| then text[i * blockSize + c] else '\0'
    decreases |blocks|
  {
    var n := Least(|text|, blockSize);
    var next := disk[blocks[0] := Padded(text[..n], blockSize)];
    if i == 0 {
      assert blocks[0] !in blocks[1..];
      DumpElsewhere(next, blocks[1..], text[n..], blockSize, blocks[0]);
    } else {
      DumpAt(next, blocks[1..], text[n..], blockSize, i - 1, c);
      assert blocks[1..][i - 1] == blocks[i] && (i - 1) * blockSize == i * blockSize - blockSize;
      assert i * blockSize >= blockSize;
    }
  }

  lemma {:induction false} ReadShort(disk: seq<string>, blocks: seq<nat>, size: nat, blockSize: nat)
    requires InDisk(blocks, |disk|) && blockSize > 0
    ensures |Read(disk, blocks, size, blockSize)| <= size
    decreases |blocks|
  {
    if blocks != [] { ReadShort(disk, blocks[1..], size - Least(size, blockSize), blockSize); }
  }

  lemma ReadParts(disk: seq<string>, blocks: seq<nat>, size: nat, blockSize: nat)
    requires InDisk(blocks, |disk|) && blockSize > 0 && |Read(disk, blocks, size, blockSize)| == size > 0
    ensures blocks != [] && InDisk(blocks[1..], |disk|)
    ensures var n := Least(size, blockSize); var rest := Read(disk, blocks[1..], size - n, blockSize);
      && Read(disk, blocks, size, blockSize) == Front(disk[blocks[0]], n) + rest
      && |Front(disk[blocks[0]], n)| == n && |rest| == size - n
  {
    ReadShort(disk, blocks[1..], size - Least(size, blockSize), blockSize);
  }

  lemma BlockBefore(i: nat, blockSize: nat)
    requires i > 0
    ensures (i - 1) * blockSize == i * blockSize - blockSize && i * blockSize >= blockSize
  {
  }

  lemma FrontAt(content: string, rest: string, n: nat, k: nat)
    requires |Front(content, n)| == n && k < n + |rest|
    ensures k < n ==> k < |content| && (Front(content, n) + rest)[k] == content[k]
    ensures k >= n ==> (Front(content, n) + rest)[k] == rest[k - n]
  {
  }

  /** Where what is read comes from, when nothing is missing: the k-th character from the i-th
      block, at c. */
  lemma {:induction false} ReadAt(disk: seq<string>, blocks: seq<nat>, size: nat, blockSize: nat, i: nat, c: nat,
                                  k: nat)
    requires InDisk(blocks, |disk|) && blockSize > 0 && |Read(disk, blocks, size, blockSize)| == size
    requires c < blockSize && k == i * blockSize + c < size
    ensures i < |blocks| && c < |disk[blocks[i]]| && Read(disk, blocks, size, blockSize)[k] == disk[blocks[i]][c]
    decreases |blocks|
  {
    var n := Least(size, blockSize);
    ReadParts(disk, blocks, size, blockSize);
    hide Read, Front;
    FrontAt(disk[blocks[0]], Read(disk, blocks[1..], size - n, blockSize), n, k);
    if i > 0 {
      BlockBefore(i, blockSize);
      ReadAt(disk, blocks[1..], size - blockSize, blockSize, i - 1, c, k - blockSize);
      assert blocks[1..][i - 1] == blocks[i];
    }
  }

  /** The k-th character of the text is the c-th one of its j-th block. */
  ghost predicate Stands(disk: seq<string>, blocks: seq<nat>, text: string, j: nat, c: nat, k: nat) {
    && j < |blocks| && blocks[j] < |disk| && c < |disk[blocks[j]]| && k < |text|
    && disk[blocks[j]][c] == text[k]
  }

  /** Each block has its blockSize characters of the text, in order. */
  ghost predicate TextStands(disk: seq<string>, blocks: seq<nat>, text: string, blockSize: nat) {
    forall j: nat, c: nat, k: nat :: c < blockSize && k == j * blockSize + c && k < |text| ==>
      Stands(disk, blocks, text, j, c, k)
  }

  lemma ReadStands(disk: seq<string>, blocks: seq<nat>, text: string, blockSize: nat)
    requires InDisk(blocks, |disk|) && blockSize > 0 && Read(disk, blocks, |text|, blockSize) == text
    ensures TextStands(disk, blocks, text, blockSize)
  {
    forall j: nat, c: nat, k: nat | c < blockSize && k == j * blockSize + c && k < |text|
      ensures Stands(disk, blocks, text, j, c, k)
    {
      hide Read;
      ReadAt(disk, blocks, |text|, blockSize, j, c, k);
    }
  }

  lemma MoreBlocks(a: nat, b: nat, blockSize: nat)
    requires a <= b && blockSize > 0
    ensures BlocksFor(a, blockSize) <= BlocksFor(b, blockSize)
  {
    if b / blockSize < a / blockSize {
      assert (b / blockSize + 1) * blockSize <= (a / blockSize) * blockSize;
    }
  }
}
