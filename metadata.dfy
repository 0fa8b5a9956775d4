/** The byte layout of Macrium Reflect metadata: the footer's magic marker, the
    32-byte metadata block header, its flag bits and the eight block tags. */
module Metadata {
  import opened Bytes

  /** "MACRIUM_FILE"; the C array also holds a terminator, which the size excludes. */
  const MAGIC_BYTES_VX: string := "MACRIUM_FILE"
  const MAGIC_BYTES_VX_SIZE: nat := |MAGIC_BYTES_VX|

  const BLOCK_NAME_LENGTH: nat := 8

  // Field widths of MetadataBlockHeader, in declaration order.
  const NAME_SIZE: nat := BLOCK_NAME_LENGTH
  const LENGTH_SIZE: nat := 4
  const HASH_SIZE: nat := 16
  const FLAGS_SIZE: nat := 1
  const PADDING_SIZE: nat := 3

  const LENGTH_OFFSET: nat := NAME_SIZE
  const HASH_OFFSET: nat := LENGTH_OFFSET + LENGTH_SIZE
  const FLAGS_OFFSET: nat := HASH_OFFSET + HASH_SIZE
  const PADDING_OFFSET: nat := FLAGS_OFFSET + FLAGS_SIZE
  const HEADER_SIZE: nat := PADDING_OFFSET + PADDING_SIZE

  lemma LayoutSizes()
    ensures MAGIC_BYTES_VX_SIZE == 12
    ensures HEADER_SIZE == 32
    ensures LENGTH_OFFSET == 8 && HASH_OFFSET == 12 && FLAGS_OFFSET == 28 && PADDING_OFFSET == 29
  {
  }

  /** MetadataBlockHeader: 8-byte name, uint32 length, 16-byte hash, one byte
      of flag bits and 3 bytes of padding. */
  datatype MetadataBlockHeader = MetadataBlockHeader(
    blockName: seq<byte>,
    blockLength: u32,
    hash: seq<byte>,
    flags: byte,
    padding: seq<byte>)
  {
    ghost predicate WellFormed() {
      |blockName| == NAME_SIZE && |hash| == HASH_SIZE && |padding| == PADDING_SIZE
    }
  }

  // MetadataHeaderFlags: bit-fields allocated from the least significant bit.
  function LastBlock(h: MetadataBlockHeader): nat { h.flags % 2 }
  function Compression(h: MetadataBlockHeader): nat { (h.flags / 2) % 2 }
  function Encryption(h: MetadataBlockHeader): nat { (h.flags / 4) % 2 }
  function Unused(h: MetadataBlockHeader): nat { h.flags / 8 }

  lemma FlagBits(h: MetadataBlockHeader)
    ensures LastBlock(h) < 2 && Compression(h) < 2 && Encryption(h) < 2 && Unused(h) < 32
    ensures h.flags == LastBlock(h) + 2 * Compression(h) + 4 * Encryption(h) + 8 * Unused(h)
  {
    var x := h.flags as int;
    var a, f1 := x % 2, x / 2;
    var b, f2 := f1 % 2, f1 / 2;
    var c, f3 := f2 % 2, f2 / 2;
    assert x == 8 * f3 + (a + 2 * b + 4 * c);
    DivUnique(x, 8, f3, a + 2 * b + 4 * c);
    DivUnique(x, 4, 2 * f3 + c, a + 2 * b);
  }

  /** The header as it is laid out in the file. */
  function ParseHeader(b: seq<byte>): (h: MetadataBlockHeader)
    requires |b| == HEADER_SIZE
    ensures h.WellFormed()
  {
    MetadataBlockHeader(
      b[..LENGTH_OFFSET],
      U32(b[LENGTH_OFFSET..HASH_OFFSET]),
      b[HASH_OFFSET..FLAGS_OFFSET],
      b[FLAGS_OFFSET],
      b[PADDING_OFFSET..])
  }

  function EncodeHeader(h: MetadataBlockHeader): (b: seq<byte>)
    requires h.WellFormed()
    ensures |b| == HEADER_SIZE
  {
    h.blockName + ToLE(h.blockLength, LENGTH_SIZE) + h.hash + [h.flags] + h.padding
  }

  lemma ParseEncodeHeader(h: MetadataBlockHeader)
    requires h.WellFormed()
    ensures ParseHeader(EncodeHeader(h)) == h
  {
    var b := EncodeHeader(h);
    assert b[LENGTH_OFFSET..HASH_OFFSET] == ToLE(h.blockLength, LENGTH_SIZE);
    Pow256Widths();
    FromToLE(h.blockLength, LENGTH_SIZE);
    assert b[..LENGTH_OFFSET] == h.blockName;
    assert b[HASH_OFFSET..FLAGS_OFFSET] == h.hash;
    assert b[PADDING_OFFSET..] == h.padding;
  }

  lemma EncodeParseHeader(b: seq<byte>)
    requires |b| == HEADER_SIZE
    ensures EncodeHeader(ParseHeader(b)) == b
  {
    var h := ParseHeader(b);
    ToFromLE(b[LENGTH_OFFSET..HASH_OFFSET]);
    assert b == b[..LENGTH_OFFSET] + b[LENGTH_OFFSET..HASH_OFFSET] + b[HASH_OFFSET..FLAGS_OFFSET]
              + [b[FLAGS_OFFSET]] + b[PADDING_OFFSET..];
  }

  // Block tags, each exactly BLOCK_NAME_LENGTH space-padded ASCII characters.
  const JSON_HEADER: string   := "$JSON   "
  const BITMAP_HEADER: string := "$BITMAP "
  const FAT_HEADER: string    := "$FAT    "
  const CBT_HEADER: string    := "$CBT    "
  const MFT_HEADER: string    := "$MFT    "
  const TRACK_0: string       := "$TRACK0 "
  const IDX_HEADER: string    := "$INDEX  "
  const EXT_PAR_TABLE: string := "$EPT    "

  const ALL_TAGS: seq<string> :=
    [JSON_HEADER, BITMAP_HEADER, FAT_HEADER, CBT_HEADER, MFT_HEADER, TRACK_0, IDX_HEADER, EXT_PAR_TABLE]

  /** memcmp(header.BlockName, tag, BLOCK_NAME_LENGTH) == 0. */
  predicate HasTag(h: MetadataBlockHeader, tag: string) {
    && |h.blockName| >= BLOCK_NAME_LENGTH && |tag| >= BLOCK_NAME_LENGTH
    && forall i :: 0 <= i < BLOCK_NAME_LENGTH ==> h.blockName[i] == (tag[i] as int) % 256
  }

  /** A block name padded with spaces to BLOCK_NAME_LENGTH characters. */
  function Pad(name: string): (t: string)
    requires |name| <= BLOCK_NAME_LENGTH
    ensures |t| == BLOCK_NAME_LENGTH && t[..|name|] == name
    ensures forall i :: |name| <= i < |t| ==> t[i] == ' '
  {
    name + seq(BLOCK_NAME_LENGTH - |name|, _ => ' ')
  }

  /** The names the tags pad: '$' and no spaces. */
  const TAG_NAMES: seq<string> := ["$JSON", "$BITMAP", "$FAT", "$CBT", "$MFT", "$TRACK0", "$INDEX", "$EPT"]

  lemma TagsSpacePadded()
    ensures |ALL_TAGS| == |TAG_NAMES|
    ensures forall k :: 0 <= k < |ALL_TAGS| ==> |TAG_NAMES[k]| <= BLOCK_NAME_LENGTH && ALL_TAGS[k] == Pad(TAG_NAMES[k])
    ensures forall k :: 0 <= k < |TAG_NAMES| ==> TAG_NAMES[k][0] == '$' && ' ' !in TAG_NAMES[k]
  {
  }

  /** A header tagged $INDEX is not taken for the $BITMAP block. */
  lemma IndexIsNotBitmap(h: MetadataBlockHeader)
    requires HasTag(h, IDX_HEADER)
    ensures !HasTag(h, BITMAP_HEADER)
  {
    assert h.blockName[1] == 'I' as int;
  }

  /** The eight tags differ within their 8 bytes, so memcmp matches a header
      against at most one of them. */
  lemma TagsExclusive(h: MetadataBlockHeader, i: nat, j: nat)
    requires i < j < |ALL_TAGS|
    ensures !(HasTag(h, ALL_TAGS[i]) && HasTag(h, ALL_TAGS[j]))
  {
    var initials := "JBFCMTIE";
    assert forall k :: 0 <= k < |ALL_TAGS| ==> ALL_TAGS[k][1] == initials[k];
  }
}
