/** TypeIds: the tags of a bulk table file and of its chunks, each the four ASCII
 *  letters of its name read as a little-endian 32-bit integer, and the byte that
 *  marks the start of a row. */
module TypeIds {
  import opened Bytes
  import opened Serialiser

  /** Every character is ASCII. */
  predicate IsAscii(s: string)
  {
    forall i :: 0 <= i < |s| ==> s[i] < 128 as char
  }

  /** Encoding.ASCII.GetBytes of an ASCII string: one byte per character. */
  function Ascii(s: string): (r: seq<byte>)
    requires IsAscii(s)
    ensures |r| == |s| && forall i :: 0 <= i < |s| ==> r[i] as int == s[i] as int
  {
    seq(|s|, i requires 0 <= i < |s| => s[i] as int as byte)
  }

  /** BitConverter.ToUInt32 of the ASCII bytes of a four-letter name. */
  function Tag(name: string): uint32
    requires |name| == 4 && IsAscii(name)
  {
    UInt32Of(Ascii(name))
  }

  const FileHeader: uint32 := Tag("BTBL")
  const TableNameChunk: uint32 := Tag("TABL")
  const ColumnsChunk: uint32 := Tag("COLS")
  const RowDataChunk: uint32 := Tag("ROWD")
  const RowHeader: byte := 0x52

  /** The tags' values. */
  lemma TagValues()
    ensures FileHeader == 0x4C42_5442 && TableNameChunk == 0x4C42_4154
    ensures ColumnsChunk == 0x534C_4F43 && RowDataChunk == 0x4457_4F52
  {
    PowValues();
  }

  /** Written as a 32-bit integer, each tag is its name's letters in order. */
  lemma TagsSpellTheirNames()
    ensures UInt32Bytes(FileHeader) == Ascii("BTBL") && UInt32Bytes(TableNameChunk) == Ascii("TABL")
    ensures UInt32Bytes(ColumnsChunk) == Ascii("COLS") && UInt32Bytes(RowDataChunk) == Ascii("ROWD")
  {
    TagSpellsName("BTBL");
    TagSpellsName("TABL");
    TagSpellsName("COLS");
    TagSpellsName("ROWD");
  }

  /** A tag written as a 32-bit integer is its name's bytes. */
  lemma TagSpellsName(name: string)
    requires |name| == 4 && IsAscii(name)
    ensures UInt32Bytes(Tag(name)) == Ascii(name)
  {
    PowValues();
    UnsignedCodec(0, 4, Ascii(name));
  }

  /** No two tags are the same, and the row marker is the letter R. */
  lemma TagsDistinct()
    ensures FileHeader != TableNameChunk && FileHeader != ColumnsChunk && FileHeader != RowDataChunk
    ensures TableNameChunk != ColumnsChunk && TableNameChunk != RowDataChunk && ColumnsChunk != RowDataChunk
    ensures RowHeader == Ascii("R")[0]
  {
    TagValues();
  }
}
