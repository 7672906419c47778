/**
  `_pack_mxfp4_blocks`: MXFP4 rows, with two elements a byte and the scales apart, become
  blocks of a scale byte and sixteen bytes that hold element j beside element j + 16.
 */
module Mxfp4 {
  import opened Options

  type Byte = b: int | 0 <= b < 256
  type Nibble = v: int | 0 <= v < 16
  type Matrix = seq<seq<Byte>>

  function Low(b: Byte): Nibble { b % 16 }

  function High(b: Byte): Nibble { b / 16 }

  /** The two nibbles of a byte put together again. */
  function Both(low: Nibble, high: Nibble): Byte { low + 16 * high }

  /** Element `c` of a source row: even columns in the low half of a byte, odd in the high. */
  function SourceElement(row: seq<Byte>, c: nat): Nibble
    requires c < 2 * |row|
  {
    if c % 2 == 0 then Low(row[c / 2]) else High(row[c / 2])
  }

  predicate IsMatrix(m: Matrix, cols: nat) {
    forall i :: 0 <= i < |m| ==> |m[i]| == cols
  }

  function PackBlock(src: seq<Byte>, scale: Byte): (block: seq<Byte>)
    requires |src| == 16
    ensures |block| == 17
  {
    var vals := seq(32, c requires 0 <= c < 32 => SourceElement(src, c));
    [scale] + seq(16, j requires 0 <= j < 16 => Both(vals[j], vals[j + 16]))
  }

  function PackRow(row: seq<Byte>, scales: seq<Byte>): (out: seq<Byte>)
    requires |row| == 16 * |scales|
    ensures |out| == 17 * |scales|
    decreases |scales|
  {
    if scales == [] then []
    else
      var n := |scales| - 1;
      PackRow(row[..16 * n], scales[..n]) + PackBlock(row[16 * n..], scales[n])
  }

  function PackRows(weight: Matrix, scale: Matrix, blocks: nat): (out: Matrix)
    requires |weight| == |scale| && IsMatrix(weight, 16 * blocks) && IsMatrix(scale, blocks)
    ensures |out| == |weight| && IsMatrix(out, 17 * blocks)
  {
    seq(|weight|, i requires 0 <= i < |weight| => PackRow(weight[i], scale[i]))
  }

  /** The whole operation on a weight of `cols` bytes a row and a scale of `scaleCols`. */
  function PackBlocks(weight: Matrix, cols: nat, scale: Matrix, scaleCols: nat): Result<Matrix, string>
    requires IsMatrix(weight, cols) && IsMatrix(scale, scaleCols)
  {
    if (cols * 2) % 32 != 0 then Err("expected a multiple of 32")
    else if |scale| != |weight| || scaleCols != cols * 2 / 32 then Err("scale shape does not match")
    else Ok(PackRows(weight, scale, cols * 2 / 32))
  }

  // ---------------------------------------------------------------- reading packed rows

  /** Element `k` of block `b` of a packed row: the first half of the elements in the low
      nibbles and the second half in the high ones. */
  function PackedAt(out: seq<Byte>, b: nat, k: nat): Nibble
    requires k < 32 && 17 * b + 17 <= |out|
  {
    if k < 16 then Low(out[17 * b + 1 + k]) else High(out[17 * b + 1 + (k - 16)])
  }

  function PackedScale(out: seq<Byte>, b: nat): Byte
    requires 17 * b < |out|
  {
    out[17 * b]
  }

  lemma BothHalves(low: Nibble, high: Nibble)
    ensures Low(Both(low, high)) == low && High(Both(low, high)) == high
  {
  }

  lemma BlockByte(src: seq<Byte>, scale: Byte, j: nat)
    requires |src| == 16 && j < 16
    ensures PackBlock(src, scale)[1 + j] == Both(SourceElement(src, j), SourceElement(src, j + 16))
  {
  }

  lemma BlockElement(src: seq<Byte>, scale: Byte, k: nat)
    requires |src| == 16 && k < 32
    ensures PackedAt(PackBlock(src, scale), 0, k) == SourceElement(src, k)
  {
    var j := if k < 16 then k else k - 16;
    BlockByte(src, scale, j);
    BothHalves(SourceElement(src, j), SourceElement(src, j + 16));
  }

  lemma BlockOf(a: seq<Byte>, n: nat, block: seq<Byte>, b: nat, k: nat)
    requires |a| == 17 * n && |block| == 17 && b <= n && k < 32
    ensures PackedAt(a + block, b, k) == if b < n then PackedAt(a, b, k) else PackedAt(block, 0, k)
    ensures PackedScale(a + block, b) == if b < n then PackedScale(a, b) else PackedScale(block, 0)
  {
  }

  lemma LaterSource(row: seq<Byte>, n: nat, c: nat)
    requires |row| == 16 * n + 16 && c < 2 * |row|
    ensures SourceElement(row, c) == if c < 32 * n then SourceElement(row[..16 * n], c) else SourceElement(row[16 * n..], c - 32 * n)
  {
  }

  /** Every element of the row is where the packed layout has it, with its value, and every
      scale byte stands in front of its block. */
  lemma {:induction false} RowElement(row: seq<Byte>, scales: seq<Byte>, b: nat, k: nat)
    requires |row| == 16 * |scales| && b < |scales| && k < 32
    ensures PackedAt(PackRow(row, scales), b, k) == SourceElement(row, 32 * b + k)
    ensures PackedScale(PackRow(row, scales), b) == scales[b]
    decreases |scales|
  {
    var n := |scales| - 1;
    BlockOf(PackRow(row[..16 * n], scales[..n]), n, PackBlock(row[16 * n..], scales[n]), b, k);
    LaterSource(row, n, 32 * b + k);
    if b < n {
      RowElement(row[..16 * n], scales[..n], b, k);
    } else {
      BlockElement(row[16 * n..], scales[n], k);
    }
  }

  lemma BytesOfRow(row: seq<Byte>, blocks: nat, b: nat, j: nat)
    requires |row| == 16 * blocks && b < blocks && j < 16
    ensures SourceElement(row, 32 * b + j) == if j % 2 == 0 then row[16 * b + j / 2] % 16 else row[16 * b + j / 2] / 16
    ensures SourceElement(row, 32 * b + (j + 16)) == if j % 2 == 0 then row[16 * b + 8 + j / 2] % 16 else row[16 * b + 8 + j / 2] / 16
  {
    assert (32 * b + j) / 2 == 16 * b + j / 2 && (32 * b + (j + 16)) / 2 == 16 * b + 8 + j / 2;
  }

  lemma HalvesOf(x: Byte)
    ensures x as int == Low(x) + 16 * High(x)
  {
  }

  lemma JoinedByte(out: seq<Byte>, b: nat, j: nat)
    requires 17 * b + 17 <= |out| && j < 16
    ensures out[17 * b + 1 + j] as int == PackedAt(out, b, j) + 16 * PackedAt(out, b, j + 16)
  {
    HalvesOf(out[17 * b + 1 + j]);
  }

  lemma {:induction false} RowByte(row: seq<Byte>, scales: seq<Byte>, b: nat, j: nat)
    requires |row| == 16 * |scales| && b < |scales| && j < 16
    ensures PackRow(row, scales)[17 * b] == scales[b]
    ensures PackRow(row, scales)[17 * b + 1 + j] as int == SourceElement(row, 32 * b + j) + 16 * SourceElement(row, 32 * b + (j + 16))
  {
    RowElement(row, scales, b, j);
    RowElement(row, scales, b, j + 16);
    JoinedByte(PackRow(row, scales), b, j);
  }

  /** The bytes of a packed row in numbers: byte j of a block joins nibble j of the block, below,
      and nibble j + 16, above. */
  lemma {:induction false} RowBytes(row: seq<Byte>, scales: seq<Byte>, b: nat, j: nat)
    requires |row| == 16 * |scales| && b < |scales| && j < 16
    ensures PackRow(row, scales)[17 * b] == scales[b]
    ensures var x, y := row[16 * b + j / 2], row[16 * b + 8 + j / 2];
            PackRow(row, scales)[17 * b + 1 + j] == if j % 2 == 0 then x % 16 + 16 * (y % 16) else x / 16 + 16 * (y / 16)
  {
    RowByte(row, scales, b, j);
    BytesOfRow(row, |scales|, b, j);
  }

  // ---------------------------------------------------------------------- the way back

  /** Byte `j` of the source of a block holds its elements 2j and 2j + 1. */
  function UnpackBlock(block: seq<Byte>): (src: seq<Byte>)
    requires |block| == 17
    ensures |src| == 16
  {
    seq(16, j requires 0 <= j < 16 => Both(PackedAt(block, 0, 2 * j), PackedAt(block, 0, 2 * j + 1)))
  }

  function UnpackRow(out: seq<Byte>, blocks: nat): (row: seq<Byte>)
    requires |out| == 17 * blocks
    ensures |row| == 16 * blocks
    decreases blocks
  {
    if blocks == 0 then []
    else UnpackRow(out[..17 * (blocks - 1)], blocks - 1) + UnpackBlock(out[17 * (blocks - 1)..])
  }

  function UnpackScales(out: seq<Byte>, blocks: nat): (scales: seq<Byte>)
    requires |out| == 17 * blocks
    ensures |scales| == blocks
    decreases blocks
  {
    if blocks == 0 then []
    else UnpackScales(out[..17 * (blocks - 1)], blocks - 1) + [out[17 * (blocks - 1)]]
  }

  lemma SourceByte(src: seq<Byte>, j: nat)
    requires j < |src|
    ensures Both(SourceElement(src, 2 * j), SourceElement(src, 2 * j + 1)) == src[j]
  {
    assert (2 * j) / 2 == j && (2 * j + 1) / 2 == j;
  }

  lemma BlockRestored(src: seq<Byte>, scale: Byte)
    requires |src| == 16
    ensures UnpackBlock(PackBlock(src, scale)) == src
  {
    forall j | 0 <= j < 16
      ensures UnpackBlock(PackBlock(src, scale))[j] == src[j]
    {
      BlockElement(src, scale, 2 * j);
      BlockElement(src, scale, 2 * j + 1);
      SourceByte(src, j);
    }
  }

  lemma Parts(a: seq<Byte>, b: seq<Byte>)
    ensures (a + b)[..|a|] == a && (a + b)[|a|..] == b
  {
  }

  lemma Whole(s: seq<Byte>, n: nat)
    requires n <= |s|
    ensures s[..n] + s[n..] == s
  {
  }

  lemma {:induction false} RowRestored(row: seq<Byte>, scales: seq<Byte>)
    requires |row| == 16 * |scales|
    ensures UnpackRow(PackRow(row, scales), |scales|) == row
    ensures UnpackScales(PackRow(row, scales), |scales|) == scales
    decreases |scales|
  {
    if scales != [] {
      var n := |scales| - 1;
      Parts(PackRow(row[..16 * n], scales[..n]), PackBlock(row[16 * n..], scales[n]));
      RowRestored(row[..16 * n], scales[..n]);
      BlockRestored(row[16 * n..], scales[n]);
      Whole(row, 16 * n);
      assert scales[..n] + [scales[n]] == scales;
    }
  }

  lemma ElementOfByte(src: seq<Byte>, j: nat, low: Nibble, high: Nibble)
    requires j < |src| && src[j] as int == Both(low, high)
    ensures SourceElement(src, 2 * j) == low && SourceElement(src, 2 * j + 1) == high
  {
    BothHalves(low, high);
    assert (2 * j) / 2 == j && (2 * j + 1) / 2 == j;
  }

  lemma UnpackedElement(block: seq<Byte>, k: nat)
    requires |block| == 17 && k < 32
    ensures SourceElement(UnpackBlock(block), k) == PackedAt(block, 0, k)
  {
    var j := k / 2;
    ElementOfByte(UnpackBlock(block), j, PackedAt(block, 0, 2 * j), PackedAt(block, 0, 2 * j + 1));
    assert k == 2 * j || k == 2 * j + 1;
  }

  lemma ByteRepacked(block: seq<Byte>, j: nat)
    requires |block| == 17 && j < 16
    ensures PackBlock(UnpackBlock(block), block[0])[1 + j] == block[1 + j]
  {
    BlockByte(UnpackBlock(block), block[0], j);
    UnpackedElement(block, j);
    UnpackedElement(block, j + 16);
  }

  lemma BlockRepacked(block: seq<Byte>)
    requires |block| == 17
    ensures PackBlock(UnpackBlock(block), block[0]) == block
  {
    forall i | 0 <= i < 17
      ensures PackBlock(UnpackBlock(block), block[0])[i] == block[i]
    {
      if i > 0 {
        ByteRepacked(block, i - 1);
      }
    }
  }

  /** Packing is onto: every packed row comes from unpacking it. */
  lemma {:induction false} PackedRestored(out: seq<Byte>, blocks: nat)
    requires |out| == 17 * blocks
    ensures PackRow(UnpackRow(out, blocks), UnpackScales(out, blocks)) == out
    decreases blocks
  {
    if blocks > 0 {
      var n := blocks - 1;
      PackedRestored(out[..17 * n], n);
      BlockRepacked(out[17 * n..]);
      Parts(UnpackRow(out[..17 * n], n), UnpackBlock(out[17 * n..]));
      Parts(UnpackScales(out[..17 * n], n), [out[17 * n]]);
      Whole(out, 17 * n);
    }
  }

  /** Repacking loses nothing: it is refused exactly for the shapes it cannot lay out, and
      otherwise unpacking restores the weight and the scale. */
  lemma RepackIsLossless(weight: Matrix, cols: nat, scale: Matrix, scaleCols: nat)
    requires IsMatrix(weight, cols) && IsMatrix(scale, scaleCols)
    ensures PackBlocks(weight, cols, scale, scaleCols).Ok? <==> |scale| == |weight| && cols == 16 * scaleCols
    ensures PackBlocks(weight, cols, scale, scaleCols).Ok? ==>
              var out := PackBlocks(weight, cols, scale, scaleCols).value;
              && |out| == |weight| && IsMatrix(out, 17 * scaleCols)
              && forall i :: 0 <= i < |weight| ==>
                   && UnpackRow(out[i], scaleCols) == weight[i]
                   && UnpackScales(out[i], scaleCols) == scale[i]
  {
    if |scale| == |weight| && cols == 16 * scaleCols {
      var out := PackRows(weight, scale, scaleCols);
      forall i | 0 <= i < |weight|
        ensures UnpackRow(out[i], scaleCols) == weight[i] && UnpackScales(out[i], scaleCols) == scale[i]
      {
        RowRestored(weight[i], scale[i]);
      }
    }
  }
}
