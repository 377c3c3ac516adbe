// The "MFVS" flat file that save_flat writes and FlatVectorStore maps: a
// 64-byte header, the vectors back to back, in quantized mode a padding to
// four bytes and the parameter table, then the id section (a table of u64
// offsets relative to the section's start, followed by the NUL-terminated
// ids). Entry i of every section belongs to the i-th id in map order.

module FlatFormat {
  import opened ByteCodec
  import opened Float32
  import opened OrderedMap
  import opened VectorStoreFormat
  import opened Ranking
  import Q = Quantizer

  const MFVS: Bytes := [0x4D, 0x46, 0x56, 0x53]
  const HEADER_SIZE: nat := 64
  const FLAT_VERSION: nat := 1
  /** sizeof(Quantizer::QuantizationParams): a float and an int32. */
  const PARAMS_ENTRY_SIZE: nat := 8

  // ---------------------------------------------------------------------
  // Blocks written one after the other

  /** The blocks in order, as successive write() calls leave them. */
  function Flatten(blocks: seq<Bytes>): (r: Bytes)
  {
    if blocks == [] then [] else Flatten(blocks[..|blocks| - 1]) + blocks[|blocks| - 1]
  }

  /** Writing one more block appends it. */
  lemma FlattenSnoc(blocks: seq<Bytes>, i: nat)
    requires i < |blocks|
    ensures Flatten(blocks[..i + 1]) == Flatten(blocks[..i]) + blocks[i]
  {
    assert blocks[..i + 1][..i] == blocks[..i];
  }

  /** The blocks written first are a prefix of everything written. */
  lemma {:induction false} FlattenPrefix(blocks: seq<Bytes>, j: nat)
    requires j <= |blocks|
    ensures |Flatten(blocks[..j])| <= |Flatten(blocks)|
    ensures Flatten(blocks)[..|Flatten(blocks[..j])|] == Flatten(blocks[..j])
    decreases |blocks| - j
  {
    if j < |blocks| {
      FlattenPrefix(blocks, j + 1);
      FlattenSnoc(blocks, j);
    } else {
      assert blocks[..j] == blocks;
    }
  }

  /** Block i sits right after the blocks before it. */
  lemma FlattenBlock(blocks: seq<Bytes>, i: nat)
    requires i < |blocks|
    ensures |Flatten(blocks[..i])| + |blocks[i]| <= |Flatten(blocks)|
    ensures Flatten(blocks)[|Flatten(blocks[..i])| .. |Flatten(blocks[..i])| + |blocks[i]|] == blocks[i]
  {
    FlattenPrefix(blocks, i + 1);
    FlattenSnoc(blocks, i);
    var at := |Flatten(blocks[..i])|;
    var p := Flatten(blocks[..i + 1]);
    assert Flatten(blocks)[at .. at + |blocks[i]|] == p[at..];
  }

  /** Blocks of one width w: block i starts at i * w. */
  lemma {:induction false} FlattenUniform(blocks: seq<Bytes>, w: nat, i: nat)
    requires forall j | 0 <= j < |blocks| :: |blocks[j]| == w
    requires i <= |blocks|
    ensures |Flatten(blocks[..i])| == i * w
    decreases i
  {
    if i > 0 {
      FlattenSnoc(blocks, i - 1);
      FlattenUniform(blocks, w, i - 1);
    }
  }

  /** A slice of a slice. */
  lemma SliceOfSlice(data: Bytes, a: nat, n: nat, b: nat, m: nat)
    requires a + n <= |data| && b + m <= n
    ensures data[a + b .. a + b + m] == data[a .. a + n][b .. b + m]
  {
    var t := data[a .. a + n][b .. b + m];
    assert forall k | 0 <= k < m :: t[k] == data[a + b + k];
  }

  /** A part of a whole found in data is found in data. */
  lemma SliceWithin(data: Bytes, a: nat, whole: Bytes, b: nat, part: Bytes)
    requires a + |whole| <= |data| && data[a .. a + |whole|] == whole
    requires b + |part| <= |whole| && whole[b .. b + |part|] == part
    ensures data[a + b .. a + b + |part|] == part
  {
    SliceOfSlice(data, a, |whole|, b, |part|);
  }

  // ---------------------------------------------------------------------
  // The layout save_flat computes

  /** One params entry per code vector, as Valid guarantees. */
  predicate Paired(s: Store) { |s.codes| == |s.params| }

  lemma ValidPaired(s: Store)
    requires Valid(s)
    ensures Paired(s)
  {
    assert |Keys(s.codes)| == |Keys(s.params)|;
  }

  /** Bytes per stored element: int8 codes or float32 values. */
  function ElemSize(quantized: bool): nat { if quantized then 1 else 4 }

  /** Bytes per stored vector. */
  function Width(dim: nat, quantized: bool): nat { dim * ElemSize(quantized) }

  /** The smallest multiple of four not below n: the padding loop's result. */
  function AlignUp4(n: nat): (m: nat)
  {
    if n % 4 == 0 then n else n + (4 - n % 4)
  }

  lemma AlignUp4Least(n: nat)
    ensures var m := AlignUp4(n); m % 4 == 0 && n <= m < n + 4
    ensures forall k | n <= k < AlignUp4(n) :: k % 4 != 0
  {
  }

  /** The padding loop stops exactly at AlignUp4(raw): it goes on while 64 + v is not a multiple of four. */
  lemma PadStops(raw: nat, v: nat)
    requires raw <= v <= AlignUp4(raw)
    ensures (HEADER_SIZE + v) % 4 == 0 <==> v == AlignUp4(raw)
  {
    AlignUp4Least(raw);
    assert (HEADER_SIZE + v) % 4 == v % 4;
  }

  datatype Layout = Layout(count: nat, vecSize: nat, paramsOffset: nat, idOffset: nat)

  /**
   * The section offsets: the vectors at 64; in quantized mode their size
   * rounded up to four bytes and the params table after them (offset 0
   * in float mode); the id section last.
   */
  function LayoutOf(s: Store): Layout
  {
    var count := Size(s);
    var raw := count * Width(s.dim, s.quantized);
    if s.quantized then
      var vecSize := AlignUp4(raw);
      var paramsOffset := HEADER_SIZE + vecSize;
      Layout(count, vecSize, paramsOffset, paramsOffset + count * PARAMS_ENTRY_SIZE)
    else Layout(count, raw, 0, HEADER_SIZE + raw)
  }

  /** The 64 header bytes: magic, version, dim, flags, count, the three offsets, 16 reserved zero bytes. */
  function HeaderFields(s: Store): seq<Bytes>
    requires s.dim < U32_LIMIT
  {
    var l := LayoutOf(s);
    [MFVS, U32(FLAT_VERSION), U32(s.dim), U32(if s.quantized then 1 else 0),
     U64(l.count % U64_LIMIT), U64(HEADER_SIZE), U64(l.paramsOffset % U64_LIMIT), U64(l.idOffset % U64_LIMIT),
     Zeros(16)]
  }

  /** The active map's ids in map order. */
  function FlatIds(s: Store): seq<Bytes> { Ids(s) }

  /** Vector i: dim int8 codes or dim floats. */
  function VectorBlock(s: Store, i: nat): Bytes
    requires i < Size(s)
  {
    if s.quantized then Int8Bytes(s.codes[i].value) else Pack(s.floats[i].value)
  }

  function VectorBlocks(s: Store): (b: seq<Bytes>)
    ensures |b| == Size(s)
  {
    seq(Size(s), i requires 0 <= i < Size(s) => VectorBlock(s, i))
  }

  /** The params of id i, looked up by id in the params map: scale then zero point. */
  function ParamBlock(s: Store, i: nat): Bytes
    requires Paired(s) && i < |s.codes|
  {
    s.params[i].value.scale + I32(s.params[i].value.zeroPoint)
  }

  function ParamBlocks(s: Store): (b: seq<Bytes>)
    requires Paired(s)
    ensures |b| == (if s.quantized then Size(s) else 0)
  {
    if s.quantized then seq(|s.codes|, i requires 0 <= i < |s.codes| => ParamBlock(s, i)) else []
  }

  /** Each id followed by its NUL terminator. */
  function StringBlocks(ids: seq<Bytes>): (b: seq<Bytes>)
    ensures |b| == |ids|
  {
    seq(|ids|, i requires 0 <= i < |ids| => ids[i] + [0])
  }

  /**
   * Offset of id i from the start of the id section: past the table, then
   * past each id before it and its NUL, as the running offset grows.
   */
  function StringOffset(ids: seq<Bytes>, i: nat): nat
    requires i <= |ids|
  {
    if i == 0 then |ids| * 8 else StringOffset(ids, i - 1) + |ids[i - 1]| + 1
  }

  /** The offset is the table's size plus the strings written before id i. */
  lemma {:induction false} StringOffsetFlat(ids: seq<Bytes>, i: nat)
    requires i <= |ids|
    ensures StringOffset(ids, i) == |ids| * 8 + |Flatten(StringBlocks(ids)[..i])|
    decreases i
  {
    if i == 0 {
      assert StringBlocks(ids)[..0] == [];
    } else {
      StringOffsetFlat(ids, i - 1);
      FlattenSnoc(StringBlocks(ids), i - 1);
    }
  }

  /** Offset-table entry i. */
  function OffsetField(ids: seq<Bytes>, i: nat): Bytes
    requires i < |ids|
  {
    U64(StringOffset(ids, i) % U64_LIMIT)
  }

  function OffsetBlocks(ids: seq<Bytes>): (b: seq<Bytes>)
    ensures |b| == |ids|
  {
    seq(|ids|, i requires 0 <= i < |ids| => OffsetField(ids, i))
  }

  /** The sections in file order. */
  function Sections(s: Store): seq<Bytes>
    requires Paired(s) && s.dim < U32_LIMIT
  {
    var l := LayoutOf(s);
    var vectors := Flatten(VectorBlocks(s));
    [Flatten(HeaderFields(s)), vectors, Zeros(if |vectors| <= l.vecSize then l.vecSize - |vectors| else 0),
     Flatten(ParamBlocks(s)), Flatten(OffsetBlocks(Ids(s))), Flatten(StringBlocks(Ids(s)))]
  }

  /** The bytes of the file save_flat writes. */
  function FlatImage(s: Store): Bytes
    requires Paired(s) && s.dim < U32_LIMIT
  {
    Flatten(Sections(s))
  }

  // ---------------------------------------------------------------------
  // Reading the mapped bytes

  /** The little-endian u32 at byte pos. */
  function U32At(data: Bytes, pos: nat): nat
    requires pos + 4 <= |data|
  {
    DecodeLE(data[pos .. pos + 4])
  }

  /** The little-endian u64 at byte pos. */
  function U64At(data: Bytes, pos: nat): nat
    requires pos + 8 <= |data|
  {
    DecodeLE(data[pos .. pos + 8])
  }

  /** The fields load() takes from the header. */
  datatype FlatHeader = FlatHeader(dim: nat, quantized: bool, count: nat, vecOffset: nat, paramsOffset: nat, idOffset: nat)

  function ReadHeader(data: Bytes): FlatHeader
    requires |data| >= HEADER_SIZE
  {
    FlatHeader(U32At(data, 8), U32At(data, 12) % 2 == 1, U64At(data, 16),
               U64At(data, 24), U64At(data, 32), U64At(data, 40))
  }

  /** The checks load() makes: size, magic, version, and the three offsets inside the file. */
  predicate HeaderAccepted(data: Bytes)
  {
    && |data| >= HEADER_SIZE
    && data[..4] == MFVS
    && U32At(data, 4) == FLAT_VERSION
    && var h := ReadHeader(data);
       h.vecOffset < |data| && h.idOffset < |data| && (h.quantized ==> h.paramsOffset < |data|)
  }

  /** The string starting at pos, up to (not including) the first NUL. */
  function CString(data: Bytes, pos: nat): (r: Bytes)
    requires pos <= |data|
    ensures pos + |r| <= |data|
    decreases |data| - pos
  {
    if pos == |data| || data[pos] == 0 then [] else [data[pos]] + CString(data, pos + 1)
  }

  /** A NUL follows pos inside the data. */
  predicate Terminated(data: Bytes, pos: nat)
  {
    exists j | pos <= j < |data| :: data[j] == 0
  }

  /**
   * What search reads beyond what load checks: every vector, every
   * parameter entry, the offset table, and each id up to its NUL lie
   * inside the mapping.
   */
  predicate InBounds(data: Bytes, h: FlatHeader)
  {
    && h.vecOffset + h.count * Width(h.dim, h.quantized) <= |data|
    && (h.quantized ==> h.paramsOffset + h.count * PARAMS_ENTRY_SIZE <= |data|)
    && h.idOffset + h.count * 8 <= |data|
    && forall i | 0 <= i < h.count ::
         h.idOffset + U64At(data, h.idOffset + 8 * i) <= |data|
         && Terminated(data, h.idOffset + U64At(data, h.idOffset + 8 * i))
  }

  /** A vector block as search decodes it: int8 codes dequantized with a params entry, or floats. */
  function DecodeVector(quantized: bool, block: Bytes, entry: Bytes): seq<real>
    requires quantized ==> |entry| == PARAMS_ENTRY_SIZE
  {
    if quantized then Q.DequantizeAll(Int8sOf(block), Q.Params(Val(entry[..4]), I32Of(entry[4..8])))
    else Vals(Unpack(block))
  }

  /** Vector i as search reads it: dim codes dequantized with entry i of the params table, or dim floats. */
  function FlatVector(data: Bytes, h: FlatHeader, i: nat): seq<real>
    requires InBounds(data, h) && i < h.count
  {
    var w := Width(h.dim, h.quantized);
    MulStep(i, h.count, w);
    MulStep(i, h.count, PARAMS_ENTRY_SIZE);
    var at := h.paramsOffset + i * PARAMS_ENTRY_SIZE;
    DecodeVector(h.quantized, data[h.vecOffset + i * w .. h.vecOffset + i * w + w],
                 if h.quantized then data[at .. at + PARAMS_ENTRY_SIZE] else [])
  }

  /** Where FlatVector takes vector i and its params entry from. */
  lemma FlatVectorAt(data: Bytes, h: FlatHeader, i: nat)
    requires InBounds(data, h) && i < h.count
    ensures 0 <= i * Width(h.dim, h.quantized)
    ensures h.vecOffset + i * Width(h.dim, h.quantized) + Width(h.dim, h.quantized) <= |data|
    ensures h.quantized ==> h.paramsOffset + i * PARAMS_ENTRY_SIZE + PARAMS_ENTRY_SIZE <= |data|
    ensures FlatVector(data, h, i)
         == DecodeVector(h.quantized,
                         data[h.vecOffset + i * Width(h.dim, h.quantized) .. h.vecOffset + i * Width(h.dim, h.quantized) + Width(h.dim, h.quantized)],
                         if h.quantized then data[h.paramsOffset + i * PARAMS_ENTRY_SIZE .. h.paramsOffset + i * PARAMS_ENTRY_SIZE + PARAMS_ENTRY_SIZE] else [])
  {
    MulStep(i, h.count, Width(h.dim, h.quantized));
    MulStep(i, h.count, PARAMS_ENTRY_SIZE);
  }

  /** The id of vector i: the string at the section start plus entry i of the offset table. */
  function IdAt(data: Bytes, h: FlatHeader, i: nat): Bytes
    requires InBounds(data, h) && i < h.count
  {
    CString(data, h.idOffset + U64At(data, h.idOffset + 8 * i))
  }

  lemma MulStep(i: nat, n: nat, w: nat)
    requires i < n
    ensures 0 <= i * w && i * w + w <= n * w
  {
    assert (i + 1) * w <= n * w by { MulLe(i + 1, n, w); }
  }

  lemma MulLe(a: nat, b: nat, w: nat)
    requires a <= b
    ensures a * w <= b * w
  {
  }

  // ---------------------------------------------------------------------
  // Reading back what save_flat wrote

  /** No id holds a NUL byte, so each one reads back whole as a C string. */
  predicate NoNul(ids: seq<Bytes>) { forall i | 0 <= i < |ids| :: 0 !in ids[i] }

  /** What the file of s must satisfy for its every offset to fit its field. */
  predicate Flattenable(s: Store)
  {
    Valid(s) && Paired(s) && Uniform(s) && s.dim < U32_LIMIT && |FlatImage(s)| < U64_LIMIT && NoNul(Ids(s))
  }

  /** The header save_flat writes for s. */
  function HeaderOf(s: Store): FlatHeader
  {
    var l := LayoutOf(s);
    FlatHeader(s.dim, s.quantized, l.count, HEADER_SIZE, l.paramsOffset, l.idOffset)
  }

  lemma {:induction false} CStringOf(data: Bytes, pos: nat, id: Bytes)
    requires pos + |id| + 1 <= |data| && data[pos .. pos + |id| + 1] == id + [0] && 0 !in id
    ensures CString(data, pos) == id && Terminated(data, pos)
    decreases |id|
  {
    assert data[pos + |id|] == (id + [0])[|id|];
    if id != [] {
      var t := data[pos .. pos + |id| + 1];
      assert data[pos] == id[0];
      assert data[pos + 1 .. pos + 1 + |id[1..]| + 1] == t[1..];
      assert t[1..] == id[1..] + [0];
      CStringOf(data, pos + 1, id[1..]);
      assert id == [id[0]] + id[1..];
    }
  }

  /** Two runs of blocks written one after the other. */
  lemma {:induction false} FlattenConcat(a: seq<Bytes>, c: seq<Bytes>)
    ensures Flatten(a + c) == Flatten(a) + Flatten(c)
    decreases |c|
  {
    if c == [] {
      assert a + c == a;
    } else {
      var c' := c[..|c| - 1];
      assert (a + c)[..|a + c| - 1] == a + c';
      FlattenConcat(a, c');
    }
  }

  lemma Flatten3(b: seq<Bytes>)
    requires |b| == 3
    ensures Flatten(b) == b[0] + b[1] + b[2]
  {
    assert Flatten(b) == Flatten(b[..2]) + b[2];
    assert b[..2][..1] == b[..1];
    assert Flatten(b[..2]) == Flatten(b[..1]) + b[1];
    assert b[..1][..0] == [];
    assert Flatten(b[..1]) == b[0];
  }

  /** Six sections written one after the other. */
  lemma Flatten6(b: seq<Bytes>)
    requires |b| == 6
    ensures Flatten(b) == b[0] + b[1] + b[2] + b[3] + b[4] + b[5]
  {
    assert b == b[..3] + b[3..];
    FlattenConcat(b[..3], b[3..]);
    Flatten3(b[..3]);
    Flatten3(b[3..]);
  }

  /** The nine header fields written one after the other. */
  lemma Flatten9(b: seq<Bytes>)
    requires |b| == 9
    ensures Flatten(b) == b[0] + b[1] + b[2] + b[3] + b[4] + b[5] + b[6] + b[7] + b[8]
  {
    assert b == b[..3] + b[3..6] + b[6..];
    FlattenConcat(b[..3] + b[3..6], b[6..]);
    FlattenConcat(b[..3], b[3..6]);
    Flatten3(b[..3]);
    Flatten3(b[3..6]);
    Flatten3(b[6..]);
  }

  /** The header bytes, field by field. */
  lemma HeaderBytes(s: Store)
    requires s.dim < U32_LIMIT
    ensures Flatten(HeaderFields(s)) == MFVS + U32(FLAT_VERSION) + U32(s.dim) + U32(if s.quantized then 1 else 0)
      + U64(LayoutOf(s).count % U64_LIMIT) + U64(HEADER_SIZE) + U64(LayoutOf(s).paramsOffset % U64_LIMIT)
      + U64(LayoutOf(s).idOffset % U64_LIMIT) + Zeros(16)
  {
    Flatten9(HeaderFields(s));
  }

  /** The six sections, each written on its own, make up the file. */
  lemma ImageOf(s: Store, header: Bytes, vectors: Bytes, gap: Bytes, table: Bytes, offsets: Bytes, strings: Bytes)
    requires Paired(s) && s.dim < U32_LIMIT
    requires header == Flatten(HeaderFields(s)) && vectors == Flatten(VectorBlocks(s))
    requires |vectors| <= LayoutOf(s).vecSize && gap == Zeros(LayoutOf(s).vecSize - |vectors|)
    requires table == Flatten(ParamBlocks(s))
    requires offsets == Flatten(OffsetBlocks(Ids(s))) && strings == Flatten(StringBlocks(Ids(s)))
    ensures header + vectors + gap + table + offsets + strings == FlatImage(s)
  {
    Flatten6(Sections(s));
  }

  /** Where each of six sections starts. */
  lemma Starts6(b: seq<Bytes>)
    requires |b| == 6
    ensures |Flatten(b[..1])| == |b[0]|
    ensures |Flatten(b[..2])| == |b[0]| + |b[1]|
    ensures |Flatten(b[..3])| == |b[0]| + |b[1]| + |b[2]|
    ensures |Flatten(b[..4])| == |b[0]| + |b[1]| + |b[2]| + |b[3]|
    ensures |Flatten(b[..5])| == |b[0]| + |b[1]| + |b[2]| + |b[3]| + |b[4]|
    ensures |Flatten(b)| == |b[0]| + |b[1]| + |b[2]| + |b[3]| + |b[4]| + |b[5]|
  {
    assert b[..0] == [];
    FlattenSnoc(b, 0);
    FlattenSnoc(b, 1);
    FlattenSnoc(b, 2);
    FlattenSnoc(b, 3);
    FlattenSnoc(b, 4);
    FlattenSnoc(b, 5);
    assert b[..6] == b;
  }

  /** Where each of the nine header fields starts, given their widths. */
  lemma Starts9(b: seq<Bytes>)
    requires |b| == 9
    requires |b[0]| == 4 && |b[1]| == 4 && |b[2]| == 4 && |b[3]| == 4
    requires |b[4]| == 8 && |b[5]| == 8 && |b[6]| == 8 && |b[7]| == 8 && |b[8]| == 16
    ensures |Flatten(b[..1])| == 4 && |Flatten(b[..2])| == 8 && |Flatten(b[..3])| == 12
    ensures |Flatten(b[..4])| == 16 && |Flatten(b[..5])| == 24 && |Flatten(b[..6])| == 32
    ensures |Flatten(b[..7])| == 40 && |Flatten(b[..8])| == 48 && |Flatten(b)| == 64
  {
    assert b[..0] == [];
    FlattenSnoc(b, 0);
    FlattenSnoc(b, 1);
    FlattenSnoc(b, 2);
    FlattenSnoc(b, 3);
    FlattenSnoc(b, 4);
    FlattenSnoc(b, 5);
    FlattenSnoc(b, 6);
    FlattenSnoc(b, 7);
    FlattenSnoc(b, 8);
    assert b[..9] == b;
  }

  /** The header is 64 bytes, field k at the offset load() reads it from. */
  lemma HeaderLayout(s: Store)
    requires s.dim < U32_LIMIT
    ensures var f := HeaderFields(s);
      && |Flatten(f)| == HEADER_SIZE
      && Flatten(f)[..4] == f[0] && Flatten(f)[4..8] == f[1] && Flatten(f)[8..12] == f[2]
      && Flatten(f)[12..16] == f[3] && Flatten(f)[16..24] == f[4] && Flatten(f)[24..32] == f[5]
      && Flatten(f)[32..40] == f[6] && Flatten(f)[40..48] == f[7]
  {
    var f := HeaderFields(s);
    Starts9(f);
    assert f[..0] == [];
    FlattenBlock(f, 0);
    FlattenBlock(f, 1);
    FlattenBlock(f, 2);
    FlattenBlock(f, 3);
    FlattenBlock(f, 4);
    FlattenBlock(f, 5);
    FlattenBlock(f, 6);
    FlattenBlock(f, 7);
  }

  /** Every vector block is dim elements wide. */
  lemma VectorWidths(s: Store)
    requires Uniform(s)
    ensures var vb := VectorBlocks(s); var w := Width(s.dim, s.quantized);
      && (forall j | 0 <= j < |vb| :: |vb[j]| == w)
      && |Flatten(vb)| == Size(s) * w
  {
    var vb := VectorBlocks(s);
    var w := Width(s.dim, s.quantized);
    forall j | 0 <= j < |vb| ensures |vb[j]| == w {
      if s.quantized { assert |s.codes[j].value| == s.dim; } else { assert |s.floats[j].value| == s.dim; }
    }
    FlattenUniform(vb, w, |vb|);
    assert vb[..|vb|] == vb;
  }

  lemma ParamWidths(s: Store)
    requires Paired(s)
    ensures var pb := ParamBlocks(s);
      && (forall j | 0 <= j < |pb| :: |pb[j]| == PARAMS_ENTRY_SIZE)
      && |Flatten(pb)| == |pb| * PARAMS_ENTRY_SIZE
  {
    var pb := ParamBlocks(s);
    FlattenUniform(pb, PARAMS_ENTRY_SIZE, |pb|);
    assert pb[..|pb|] == pb;
  }

  lemma OffsetWidths(ids: seq<Bytes>)
    ensures var ob := OffsetBlocks(ids);
      && (forall j | 0 <= j < |ob| :: |ob[j]| == 8)
      && |Flatten(ob)| == |ids| * 8
  {
    var ob := OffsetBlocks(ids);
    FlattenUniform(ob, 8, |ob|);
    assert ob[..|ob|] == ob;
  }

  /** Where the sections of the file start, and how long it is. */
  lemma SectionStarts(s: Store)
    requires Paired(s) && Uniform(s) && s.dim < U32_LIMIT
    ensures var sec := Sections(s); var l := LayoutOf(s);
      && |Flatten(sec[..1])| == HEADER_SIZE
      && |sec[1]| == Size(s) * Width(s.dim, s.quantized)
      && |Flatten(sec[..3])| == HEADER_SIZE + l.vecSize
      && (s.quantized ==> l.paramsOffset == HEADER_SIZE + l.vecSize && |sec[3]| == Size(s) * PARAMS_ENTRY_SIZE)
      && |Flatten(sec[..4])| == l.idOffset
      && |Flatten(sec[..5])| == l.idOffset + |Ids(s)| * 8
      && |Flatten(sec)| == l.idOffset + |Ids(s)| * 8 + |sec[5]|
  {
    var sec := Sections(s);
    var l := LayoutOf(s);
    Starts6(sec);
    HeaderLayout(s);
    VectorWidths(s);
    ParamWidths(s);
    OffsetWidths(Ids(s));
    AlignUp4Least(Size(s) * Width(s.dim, s.quantized));
  }

  /** The blocks lie back to back in data from start on. */
  predicate Holds(data: Bytes, start: nat, blocks: seq<Bytes>)
  {
    start + |Flatten(blocks)| <= |data| && data[start .. start + |Flatten(blocks)|] == Flatten(blocks)
  }

  /** data holds block at offset at. */
  predicate BlockAt(data: Bytes, at: int, block: Bytes)
  {
    0 <= at && at + |block| <= |data| && data[at .. at + |block|] == block
  }

  /** Vector i of s lies at 64 plus i vector widths. */
  predicate VectorsAt(s: Store, data: Bytes)
  {
    forall i | 0 <= i < Size(s) :: BlockAt(data, HEADER_SIZE + i * Width(s.dim, s.quantized), VectorBlock(s, i))
  }

  /** In quantized mode, entry i of the params table lies at `at` plus i entries. */
  predicate ParamsAt(s: Store, data: Bytes, at: nat)
    requires Paired(s)
  {
    s.quantized ==> forall i | 0 <= i < Size(s) :: BlockAt(data, at + i * PARAMS_ENTRY_SIZE, ParamBlock(s, i))
  }

  /** Offset-table entry i lies at io + 8 * i, and id i with its NUL at io plus its offset. */
  predicate IdsAt(ids: seq<Bytes>, data: Bytes, io: nat)
  {
    forall i {:trigger OffsetField(ids, i)} | 0 <= i < |ids| ::
      BlockAt(data, io + 8 * i, OffsetField(ids, i)) && BlockAt(data, io + StringOffset(ids, i), ids[i] + [0])
  }

  /** data holds every section of the file of s where save_flat puts it, and nothing after the ids. */
  predicate Laid(s: Store, data: Bytes)
    requires Paired(s) && s.dim < U32_LIMIT
  {
    var l := LayoutOf(s);
    && Holds(data, 0, HeaderFields(s))
    && VectorsAt(s, data)
    && ParamsAt(s, data, l.paramsOffset)
    && IdsAt(Ids(s), data, l.idOffset)
    && |data| == l.idOffset + |Ids(s)| * 8 + |Flatten(StringBlocks(Ids(s)))|
  }

  /** Section k of a file made of sections. */
  lemma SectionAt(sec: seq<Bytes>, k: nat, start: nat, blocks: seq<Bytes>)
    requires k < |sec| && start == |Flatten(sec[..k])| && sec[k] == Flatten(blocks)
    ensures Holds(Flatten(sec), start, blocks)
  {
    FlattenBlock(sec, k);
  }

  /** Block i of a section of equal-width blocks, found in the file that holds the section at `start`. */
  lemma InSection(data: Bytes, start: nat, blocks: seq<Bytes>, w: nat, i: nat)
    requires i < |blocks| && forall j | 0 <= j < |blocks| :: |blocks[j]| == w
    requires Holds(data, start, blocks)
    ensures start + i * w + w <= |data| && BlockAt(data, start + i * w, blocks[i])
  {
    FlattenUniform(blocks, w, i);
    FlattenUniform(blocks, w, |blocks|);
    assert blocks[..|blocks|] == blocks;
    FlattenBlock(blocks, i);
    MulStep(i, |blocks|, w);
    SliceOfSlice(data, start, |Flatten(blocks)|, i * w, w);
  }

  /** Every block of a section of equal-width blocks, found in the file that holds it. */
  lemma Pointwise(data: Bytes, start: nat, blocks: seq<Bytes>, w: nat)
    requires Holds(data, start, blocks) && forall j | 0 <= j < |blocks| :: |blocks[j]| == w
    ensures forall i | 0 <= i < |blocks| :: BlockAt(data, start + i * w, blocks[i])
  {
    forall i | 0 <= i < |blocks| ensures BlockAt(data, start + i * w, blocks[i]) {
      InSection(data, start, blocks, w, i);
    }
  }

  lemma VectorsAtOf(s: Store, data: Bytes)
    requires Uniform(s) && Holds(data, HEADER_SIZE, VectorBlocks(s))
    ensures VectorsAt(s, data)
  {
    VectorWidths(s);
    Pointwise(data, HEADER_SIZE, VectorBlocks(s), Width(s.dim, s.quantized));
    forall i | 0 <= i < Size(s) ensures BlockAt(data, HEADER_SIZE + i * Width(s.dim, s.quantized), VectorBlock(s, i)) {
      assert VectorBlocks(s)[i] == VectorBlock(s, i);
    }
  }

  lemma ParamsAtOf(s: Store, data: Bytes, at: nat)
    requires Paired(s) && Holds(data, at, ParamBlocks(s))
    ensures ParamsAt(s, data, at)
  {
    ParamWidths(s);
    Pointwise(data, at, ParamBlocks(s), PARAMS_ENTRY_SIZE);
    if s.quantized {
      forall i | 0 <= i < Size(s) ensures BlockAt(data, at + i * PARAMS_ENTRY_SIZE, ParamBlock(s, i)) {
        assert ParamBlocks(s)[i] == ParamBlock(s, i);
      }
    }
  }

  /** Block i of a section, found in the file that holds the section at `start`. */
  lemma BlockOf(data: Bytes, start: nat, blocks: seq<Bytes>, i: nat)
    requires Holds(data, start, blocks) && i < |blocks|
    ensures BlockAt(data, start + |Flatten(blocks[..i])|, blocks[i])
  {
    FlattenBlock(blocks, i);
    SliceWithin(data, start, Flatten(blocks), |Flatten(blocks[..i])|, blocks[i]);
  }

  /** Id i and its NUL sit at the id section's start plus the id's offset. */
  lemma StringAt(ids: seq<Bytes>, data: Bytes, io: nat, i: nat)
    requires Holds(data, io + |ids| * 8, StringBlocks(ids)) && i < |ids|
    ensures BlockAt(data, io + StringOffset(ids, i), ids[i] + [0])
  {
    BlockOf(data, io + |ids| * 8, StringBlocks(ids), i);
    StringOffsetFlat(ids, i);
  }

  lemma IdsAtOf(ids: seq<Bytes>, data: Bytes, io: nat)
    requires Holds(data, io, OffsetBlocks(ids)) && Holds(data, io + |ids| * 8, StringBlocks(ids))
    ensures IdsAt(ids, data, io)
  {
    OffsetWidths(ids);
    Pointwise(data, io, OffsetBlocks(ids), 8);
    forall i | 0 <= i < |ids|
      ensures BlockAt(data, io + 8 * i, OffsetField(ids, i)) && BlockAt(data, io + StringOffset(ids, i), ids[i] + [0])
    {
      assert OffsetBlocks(ids)[i] == OffsetField(ids, i);
      StringAt(ids, data, io, i);
    }
  }

  /** The header and the length of the bytes save_flat writes. */
  lemma HeadAndLength(s: Store)
    requires Paired(s) && Uniform(s) && s.dim < U32_LIMIT
    ensures Holds(FlatImage(s), 0, HeaderFields(s))
    ensures |FlatImage(s)| == LayoutOf(s).idOffset + |Ids(s)| * 8 + |Flatten(StringBlocks(Ids(s)))|
  {
    var sec := Sections(s);
    SectionStarts(s);
    assert sec[..0] == [];
    SectionAt(sec, 0, 0, HeaderFields(s));
  }

  /** The vectors and the params table of the bytes save_flat writes. */
  lemma VectorsPlaced(s: Store)
    requires Paired(s) && Uniform(s) && s.dim < U32_LIMIT
    ensures Holds(FlatImage(s), HEADER_SIZE, VectorBlocks(s))
    ensures Holds(FlatImage(s), LayoutOf(s).paramsOffset, ParamBlocks(s))
  {
    var sec := Sections(s);
    SectionStarts(s);
    SectionAt(sec, 1, HEADER_SIZE, VectorBlocks(s));
    if s.quantized {
      SectionAt(sec, 3, LayoutOf(s).paramsOffset, ParamBlocks(s));
    } else {
      assert ParamBlocks(s) == [];
    }
  }

  /** The id section of the bytes save_flat writes. */
  lemma IdsPlaced(s: Store)
    requires Paired(s) && Uniform(s) && s.dim < U32_LIMIT
    ensures Holds(FlatImage(s), LayoutOf(s).idOffset, OffsetBlocks(Ids(s)))
    ensures Holds(FlatImage(s), LayoutOf(s).idOffset + |Ids(s)| * 8, StringBlocks(Ids(s)))
  {
    var sec := Sections(s);
    SectionStarts(s);
    SectionAt(sec, 4, LayoutOf(s).idOffset, OffsetBlocks(Ids(s)));
    SectionAt(sec, 5, LayoutOf(s).idOffset + |Ids(s)| * 8, StringBlocks(Ids(s)));
  }

  /** The bytes save_flat writes have the layout of s. */
  lemma Placement(s: Store)
    requires Paired(s) && Uniform(s) && s.dim < U32_LIMIT
    ensures Laid(s, FlatImage(s))
  {
    HeadAndLength(s);
    VectorsPlaced(s);
    VectorsAtOf(s, FlatImage(s));
    ParamsAtOf(s, FlatImage(s), LayoutOf(s).paramsOffset);
    IdsPlaced(s);
    IdsAtOf(Ids(s), FlatImage(s), LayoutOf(s).idOffset);
  }

  /** A file starting with the 64 header bytes has the header's fields at their offsets. */
  lemma HeaderPrefix(data: Bytes, hdr: Bytes, f: seq<Bytes>)
    requires |hdr| == HEADER_SIZE && |data| >= HEADER_SIZE && data[..HEADER_SIZE] == hdr && |f| == 9
    requires hdr[..4] == f[0] && hdr[4..8] == f[1] && hdr[8..12] == f[2] && hdr[12..16] == f[3]
    requires hdr[16..24] == f[4] && hdr[24..32] == f[5] && hdr[32..40] == f[6] && hdr[40..48] == f[7]
    ensures data[..4] == f[0] && data[4..8] == f[1] && data[8..12] == f[2] && data[12..16] == f[3]
    ensures data[16..24] == f[4] && data[24..32] == f[5] && data[32..40] == f[6] && data[40..48] == f[7]
  {
    assert forall a, b | 0 <= a <= b <= HEADER_SIZE :: data[a..b] == hdr[a..b];
  }

  /** The offsets save_flat writes fit their u64 fields when the file does. */
  lemma LayoutFits(s: Store, n: nat)
    requires Paired(s) && Uniform(s) && n < U64_LIMIT
    requires n == LayoutOf(s).idOffset + |Ids(s)| * 8 + |Flatten(StringBlocks(Ids(s)))|
    ensures LayoutOf(s).count < U64_LIMIT && LayoutOf(s).paramsOffset < U64_LIMIT && LayoutOf(s).idOffset < U64_LIMIT
  {
    var l := LayoutOf(s);
    assert l.count <= l.count * 8;
    AlignUp4Least(Size(s) * Width(s.dim, s.quantized));
  }

  /** load() reads back the header of a file laid out for s. */
  lemma HeaderBack(s: Store, data: Bytes)
    requires Paired(s) && Uniform(s) && s.dim < U32_LIMIT && Laid(s, data) && |data| < U64_LIMIT
    ensures |data| >= HEADER_SIZE && ReadHeader(data) == HeaderOf(s)
    ensures data[..4] == MFVS && U32At(data, 4) == FLAT_VERSION
  {
    var l := LayoutOf(s);
    var f := HeaderFields(s);
    HeaderLayout(s);
    assert data[..HEADER_SIZE] == Flatten(f);
    HeaderPrefix(data, Flatten(f), f);
    LayoutFits(s, |data|);
    NarrowFits(l.count, U64_LIMIT);
    NarrowFits(l.paramsOffset, U64_LIMIT);
    NarrowFits(l.idOffset, U64_LIMIT);
    var flags := if s.quantized then 1 else 0;
    DecodeHeader(data, s.dim, flags, l.count, l.paramsOffset, l.idOffset);
    assert (flags % 2 == 1) == s.quantized;
  }

  /** load() reads back the header save_flat wrote. */
  lemma ReadHeaderBack(s: Store)
    requires Flattenable(s)
    ensures |FlatImage(s)| >= HEADER_SIZE && ReadHeader(FlatImage(s)) == HeaderOf(s)
    ensures FlatImage(s)[..4] == MFVS && U32At(FlatImage(s), 4) == FLAT_VERSION
  {
    Placement(s);
    HeaderBack(s, FlatImage(s));
  }

  /** Decoding header fields that hold encoded values gives the values back. */
  lemma DecodeHeader(data: Bytes, dim: nat, flags: nat, count: nat, paramsOffset: nat, idOffset: nat)
    requires dim < U32_LIMIT && flags < U32_LIMIT && count < U64_LIMIT && paramsOffset < U64_LIMIT && idOffset < U64_LIMIT
    requires |data| >= HEADER_SIZE
    requires data[4..8] == U32(FLAT_VERSION) && data[8..12] == U32(dim) && data[12..16] == U32(flags)
    requires data[16..24] == U64(count) && data[24..32] == U64(HEADER_SIZE)
    requires data[32..40] == U64(paramsOffset) && data[40..48] == U64(idOffset)
    ensures U32At(data, 4) == FLAT_VERSION
    ensures ReadHeader(data) == FlatHeader(dim, flags % 2 == 1, count, HEADER_SIZE, paramsOffset, idOffset)
  {
    U32RoundTrip(FLAT_VERSION);
    U32RoundTrip(dim);
    U32RoundTrip(flags);
    U64RoundTrip(count);
    U64RoundTrip(HEADER_SIZE);
    U64RoundTrip(paramsOffset);
    U64RoundTrip(idOffset);
  }

  /** Offset-table entry i leads to id i, NUL-terminated inside the file. */
  lemma IdEntry(ids: seq<Bytes>, data: Bytes, io: nat, i: nat)
    requires IdsAt(ids, data, io) && |data| < U64_LIMIT && NoNul(ids) && i < |ids|
    ensures io + 8 * i + 8 <= |data| && U64At(data, io + 8 * i) == StringOffset(ids, i)
    ensures io + StringOffset(ids, i) <= |data|
    ensures CString(data, io + StringOffset(ids, i)) == ids[i] && Terminated(data, io + StringOffset(ids, i))
  {
    var off := StringOffset(ids, i);
    assert BlockAt(data, io + 8 * i, OffsetField(ids, i)) && BlockAt(data, io + off, ids[i] + [0]);
    assert U64At(data, io + 8 * i) == off by {
      NarrowFits(off, U64_LIMIT);
      U64RoundTrip(off);
    }
    CStringOf(data, io + off, ids[i]);
  }

  /** The id IdAt reads, from where the offset table points. */
  lemma IdAtFrom(data: Bytes, h: FlatHeader, i: nat, id: Bytes, off: nat)
    requires InBounds(data, h) && i < h.count
    requires U64At(data, h.idOffset + 8 * i) == off && h.idOffset + off <= |data| && CString(data, h.idOffset + off) == id
    ensures IdAt(data, h, i) == id
  {
  }

  /** The id search resolves for index i is the i-th id. */
  lemma IdAtEntry(ids: seq<Bytes>, data: Bytes, h: FlatHeader, i: nat)
    requires InBounds(data, h) && i < h.count
    requires IdsAt(ids, data, h.idOffset) && |data| < U64_LIMIT && NoNul(ids) && i < |ids|
    ensures IdAt(data, h, i) == ids[i]
  {
    IdEntry(ids, data, h.idOffset, i);
    IdAtFrom(data, h, i, ids[i], StringOffset(ids, i));
  }

  /** Every offset-table entry leads to a NUL-terminated id inside the file. */
  lemma IdsFit(ids: seq<Bytes>, data: Bytes, io: nat)
    requires IdsAt(ids, data, io) && |data| < U64_LIMIT && NoNul(ids)
    ensures forall i | 0 <= i < |ids| ::
      io + 8 * i + 8 <= |data| && io + U64At(data, io + 8 * i) <= |data| && Terminated(data, io + U64At(data, io + 8 * i))
  {
    forall i | 0 <= i < |ids|
      ensures io + 8 * i + 8 <= |data|
      ensures io + U64At(data, io + 8 * i) <= |data| && Terminated(data, io + U64At(data, io + 8 * i))
    {
      IdEntry(ids, data, io, i);
    }
  }

  /** The sections end where the id section starts. */
  lemma SectionsBelowIds(s: Store)
    requires Paired(s)
    ensures LayoutOf(s).count == Size(s) == |Ids(s)|
    ensures HEADER_SIZE + Size(s) * Width(s.dim, s.quantized) <= LayoutOf(s).idOffset
    ensures s.quantized ==> LayoutOf(s).paramsOffset + Size(s) * PARAMS_ENTRY_SIZE == LayoutOf(s).idOffset
  {
    AlignUp4Least(Size(s) * Width(s.dim, s.quantized));
  }

  /** Everything search reads from a file laid out for s lies inside it. */
  lemma InBoundsOf(s: Store, data: Bytes)
    requires Paired(s) && Uniform(s) && s.dim < U32_LIMIT && Laid(s, data) && |data| < U64_LIMIT && NoNul(Ids(s))
    ensures InBounds(data, HeaderOf(s))
  {
    SectionsBelowIds(s);
    IdsFit(Ids(s), data, LayoutOf(s).idOffset);
  }

  /** Everything search reads from a save_flat file lies inside it. */
  lemma FlatInBounds(s: Store)
    requires Flattenable(s)
    ensures |FlatImage(s)| >= HEADER_SIZE && InBounds(FlatImage(s), HeaderOf(s))
  {
    Placement(s);
    HeaderBack(s, FlatImage(s));
    InBoundsOf(s, FlatImage(s));
  }

  /** load() accepts the file of a non-empty store, and refuses the 64-byte file of an empty one. */
  lemma AcceptedOf(s: Store, data: Bytes)
    requires Paired(s) && Uniform(s) && s.dim < U32_LIMIT && Laid(s, data) && |data| < U64_LIMIT
    ensures HeaderAccepted(data) <==> Size(s) > 0
  {
    var l := LayoutOf(s);
    HeaderBack(s, data);
    SectionsBelowIds(s);
    if Size(s) == 0 {
      assert |Flatten(StringBlocks(Ids(s)))| == 0 by { assert StringBlocks(Ids(s)) == []; }
    } else {
      assert l.idOffset < |data|;
    }
  }

  /** load() accepts the file save_flat writes for a non-empty store, and refuses the 64-byte file of an empty one. */
  lemma FlatAccepted(s: Store)
    requires Flattenable(s)
    ensures HeaderAccepted(FlatImage(s)) <==> Size(s) > 0
  {
    Placement(s);
    AcceptedOf(s, FlatImage(s));
  }

  // ---------------------------------------------------------------------
  // What search ranks

  /** One (index, score) per vector of the file, in file order. */
  function FlatCandidates(data: Bytes, h: FlatHeader, query: seq<F32>, sim: (seq<real>, seq<real>) -> real): (c: seq<Scored<nat>>)
    requires InBounds(data, h)
    ensures |c| == h.count && forall j | 0 <= j < |c| :: c[j].item == j
  {
    seq(h.count, i requires 0 <= i < h.count => Scored(i, sim(Vals(query), FlatVector(data, h, i))))
  }

  /** Each ranked index replaced by its id, the score kept. */
  function Resolve(data: Bytes, h: FlatHeader, top: seq<Scored<nat>>): (r: seq<Scored<Bytes>>)
    requires InBounds(data, h) && forall j | 0 <= j < |top| :: top[j].item < h.count
    ensures |r| == |top|
  {
    seq(|top|, j requires 0 <= j < |top| => Scored(IdAt(data, h, top[j].item), top[j].score))
  }

  /** The blocks save_flat writes for vector i decode to the heap store's vector i. */
  lemma DecodeBlock(s: Store, i: nat)
    requires Paired(s) && i < Size(s)
    ensures s.quantized ==> |ParamBlock(s, i)| == PARAMS_ENTRY_SIZE
    ensures DecodeVector(s.quantized, VectorBlock(s, i), if s.quantized then ParamBlock(s, i) else []) == Vector(s, i)
  {
    if s.quantized {
      var p := s.params[i].value;
      var e := ParamBlock(s, i);
      Int8RoundTrip(s.codes[i].value);
      assert e[..4] == p.scale && e[4..8] == I32(p.zeroPoint);
      I32RoundTrip(p.zeroPoint);
    } else {
      UnpackPack(s.floats[i].value);
    }
  }

  /** Entry i of the resolved candidates: id i with vector i's score. */
  lemma ResolvedAt(data: Bytes, h: FlatHeader, query: seq<F32>, sim: (seq<real>, seq<real>) -> real, i: nat)
    requires InBounds(data, h) && i < h.count
    ensures |Resolve(data, h, FlatCandidates(data, h, query, sim))| == h.count
    ensures Resolve(data, h, FlatCandidates(data, h, query, sim))[i] == Scored(IdAt(data, h, i), sim(Vals(query), FlatVector(data, h, i)))
  {
  }

  /** Vector block i has the width of every vector. */
  lemma VectorWidth(s: Store, i: nat)
    requires Uniform(s) && i < Size(s)
    ensures |VectorBlock(s, i)| == Width(s.dim, s.quantized)
  {
    if s.quantized { assert |s.codes[i].value| == s.dim; } else { assert |s.floats[i].value| == s.dim; }
  }

  /** The vector FlatVector decodes from the given block and params entry. */
  lemma FlatVectorFrom(data: Bytes, h: FlatHeader, i: nat, block: Bytes, entry: Bytes)
    requires InBounds(data, h) && i < h.count
    requires BlockAt(data, h.vecOffset + i * Width(h.dim, h.quantized), block) && |block| == Width(h.dim, h.quantized)
    requires h.quantized ==> BlockAt(data, h.paramsOffset + i * PARAMS_ENTRY_SIZE, entry) && |entry| == PARAMS_ENTRY_SIZE
    requires !h.quantized ==> entry == []
    ensures FlatVector(data, h, i) == DecodeVector(h.quantized, block, entry)
  {
    FlatVectorAt(data, h, i);
  }

  /** Vector i read from the file is the stored vector i, dequantized as the heap store does. */
  lemma VectorBack(s: Store, data: Bytes, i: nat)
    requires Paired(s) && Uniform(s) && InBounds(data, HeaderOf(s)) && i < Size(s)
    requires BlockAt(data, HEADER_SIZE + i * Width(s.dim, s.quantized), VectorBlock(s, i))
    requires s.quantized ==> BlockAt(data, HeaderOf(s).paramsOffset + i * PARAMS_ENTRY_SIZE, ParamBlock(s, i))
    ensures FlatVector(data, HeaderOf(s), i) == Vector(s, i)
  {
    var h := HeaderOf(s);
    var entry := if s.quantized then ParamBlock(s, i) else [];
    VectorWidth(s, i);
    DecodeBlock(s, i);
    FlatVectorFrom(data, h, i, VectorBlock(s, i), entry);
  }

  /** With each index resolved to its id, the candidates of a file laid out for s are those of s. */
  lemma AgreesOf(s: Store, data: Bytes, query: seq<F32>, sim: (seq<real>, seq<real>) -> real)
    requires Paired(s) && Uniform(s) && VectorsAt(s, data) && ParamsAt(s, data, HeaderOf(s).paramsOffset)
    requires IdsAt(Ids(s), data, HeaderOf(s).idOffset)
    requires |data| < U64_LIMIT && NoNul(Ids(s)) && InBounds(data, HeaderOf(s))
    ensures Resolve(data, HeaderOf(s), FlatCandidates(data, HeaderOf(s), query, sim)) == Candidates(s, query, sim)
  {
    var h := HeaderOf(s);
    var r := Resolve(data, h, FlatCandidates(data, h, query, sim));
    var c := Candidates(s, query, sim);
    forall i | 0 <= i < |c| ensures r[i] == c[i] {
      ResolvedAt(data, h, query, sim, i);
      VectorBack(s, data, i);
      IdAtEntry(Ids(s), data, h, i);
    }
  }

  /**
   * The flat store ranks the same candidates as the heap store it was
   * saved from: with each index resolved to its id, the file's candidates
   * are the heap store's, in the same order with the same scores.
   */
  lemma FlatAgreesWithHeap(s: Store, query: seq<F32>, sim: (seq<real>, seq<real>) -> real)
    requires Flattenable(s)
    ensures InBounds(FlatImage(s), HeaderOf(s))
    ensures Resolve(FlatImage(s), HeaderOf(s), FlatCandidates(FlatImage(s), HeaderOf(s), query, sim))
        == Candidates(s, query, sim)
  {
    Placement(s);
    InBoundsOf(s, FlatImage(s));
    AgreesOf(s, FlatImage(s), query, sim);
  }
}
