/** Disk blocks: byte sequences of BSIZE bytes, also read as arrays of 32-bit
    little-endian words (log header, indirect blocks). */
module Blocks {
  type Byte = x: int | 0 <= x < 256

  const BSIZE := 512
  const WORDS := BSIZE / 4
  const UINT := 0x1_0000_0000

  type Block = b: seq<Byte> | |b| == BSIZE witness seq(BSIZE, _ => 0)
  type Disk = seq<Block>

  function ZeroBlock(): Block { seq(BSIZE, _ => 0) }

  function WordAt(b: Block, k: nat): (w: nat)
    requires k < WORDS
    ensures w < UINT
  {
    var b0: int, b1: int, b2: int, b3: int := b[4 * k], b[4 * k + 1], b[4 * k + 2], b[4 * k + 3];
    b0 + 0x100 * b1 + 0x1_0000 * b2 + 0x100_0000 * b3
  }

  function SetWord(b: Block, k: nat, v: nat): (r: Block)
    requires k < WORDS && v < UINT
  {
    b[4 * k := v % 0x100][4 * k + 1 := v / 0x100 % 0x100]
    [4 * k + 2 := v / 0x1_0000 % 0x100][4 * k + 3 := v / 0x100_0000]
  }

  /** Storing a word changes that word and no other. */
  lemma SetWordAt(b: Block, k: nat, v: nat, j: nat)
    requires k < WORDS && j < WORDS && v < UINT
    ensures WordAt(SetWord(b, k, v), j) == if j == k then v else WordAt(b, j)
  {
    var r := SetWord(b, k, v);
    if j == k {
      assert r[4 * k] == v % 0x100 && r[4 * k + 1] == v / 0x100 % 0x100;
      assert r[4 * k + 2] == v / 0x1_0000 % 0x100 && r[4 * k + 3] == v / 0x100_0000;
      Recompose(v);
    } else {
      assert 4 * j + 3 < 4 * k || 4 * k + 3 < 4 * j;
      assert r[4 * j] == b[4 * j] && r[4 * j + 1] == b[4 * j + 1];
      assert r[4 * j + 2] == b[4 * j + 2] && r[4 * j + 3] == b[4 * j + 3];
    }
  }

  lemma Recompose(v: nat)
    requires v < UINT
    ensures v % 0x100 + 0x100 * (v / 0x100 % 0x100) + 0x1_0000 * (v / 0x1_0000 % 0x100)
            + 0x100_0000 * (v / 0x100_0000) == v
  {
    var h := v / 0x100;
    var g := v / 0x1_0000;
    assert g == h / 0x100;
    assert v / 0x100_0000 == g / 0x100;
  }

  lemma ZeroWord(k: nat)
    requires k < WORDS
    ensures WordAt(ZeroBlock(), k) == 0
  {
  }
}
