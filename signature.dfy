/** The signature test of `_CheckSignature` (sqliterc/schema_extractor.py):
    the first 16 bytes of a file against the magic header string of the
    SQLite database file format (section 1.3.1, "Magic Header String", of
    the SQLite Database File Format document). */
module Signature {
  import opened Wrappers

  newtype byte = x: int | 0 <= x < 256

  /** "SQLite format 3" followed by a zero byte. */
  const SqliteMagic: seq<byte> :=
    [0x53, 0x51, 0x4c, 0x69, 0x74, 0x65, 0x20, 0x66, 0x6f, 0x72, 0x6d, 0x61, 0x74, 0x20, 0x33, 0x00]

  /** `read(size)` from the start of a file: at most `size` bytes, fewer when
      the file is shorter. */
  function ReadFromStart(content: seq<byte>, size: nat): (r: seq<byte>)
    ensures |r| <= size
    ensures |r| <= |content| && r == content[..|r|]
    ensures |content| >= size ==> |r| == size
    ensures |content| < size ==> r == content
  {
    if |content| <= size then content else content[..size]
  }

  /** `_CheckSignature` on the content of a file-like object, None when
      there is no file-like object. */
  function CheckSignature(fileContent: Option<seq<byte>>): bool {
    match fileContent
    case None => false
    case Some(content) => ReadFromStart(content, 16) == SqliteMagic
  }

  /** A file passes exactly when it has at least 16 bytes and they are the
      magic header string. */
  lemma CheckSignatureIff(fileContent: Option<seq<byte>>)
    ensures CheckSignature(fileContent) <==>
              fileContent.Some? && |fileContent.value| >= 16 && fileContent.value[..16] == SqliteMagic
  {
    if fileContent.Some? && |fileContent.value| < 16 {
      assert |ReadFromStart(fileContent.value, 16)| < 16;
    }
  }

  /** The magic bytes are the ASCII codes of "SQLite format 3" and a
      terminating zero. */
  lemma MagicIsAsciiText()
    ensures |SqliteMagic| == 16
    ensures forall k :: 0 <= k < 15 ==> SqliteMagic[k] as int == "SQLite format 3"[k] as int
    ensures SqliteMagic[15] == 0
  {
  }
}
