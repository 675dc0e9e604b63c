/** The byte-signature classifier of UTF Cast (MainWindow.GuessFileEncoding).
    It reads up to five bytes of a file into a freshly allocated, zero-filled
    buffer and checks an ordered chain of byte-order-mark signatures. */
module Detector {

  newtype byte = b: int | 0 <= b < 256

  /** The encodings GuessFileEncoding can return, named after the .NET
      `Encoding` properties UTF Cast's C# code returns. */
  datatype EncodingLabel = UTF8 | Unicode | UTF32 | UTF7 | Default

  /** What opening the file and reading from it yields: the file's bytes, or
      an exception (missing file, sharing violation, no permission, ...). */
  datatype FileRead = Contents(bytes: seq<byte>) | Unreadable

  /** Length of the buffer the C# code allocates and asks `Read` to fill. */
  const BufferSize: nat := 5

  const Utf8Signature: seq<byte> := [0xEF, 0xBB, 0xBF]
  const UnicodeSignature: seq<byte> := [0xFE, 0xFF]
  const Utf32Signature: seq<byte> := [0x00, 0x00, 0xFE, 0xFF]
  const Utf7Signature: seq<byte> := [0x2B, 0x2F, 0x76]

  /** The signatures in the order the C# code tests them, with their labels. */
  const SignatureTable: seq<(seq<byte>, EncodingLabel)> :=
    [(Utf8Signature, UTF8), (UnicodeSignature, Unicode), (Utf32Signature, UTF32), (Utf7Signature, UTF7)]

  predicate StartsWith(bytes: seq<byte>, prefix: seq<byte>) {
    |prefix| <= |bytes| && bytes[..|prefix|] == prefix
  }

  function Zeros(n: nat): (z: seq<byte>)
    ensures |z| == n && forall i :: 0 <= i < n ==> z[i] == 0
  {
    if n == 0 then [] else [0] + Zeros(n - 1)
  }

  /** The buffer after `new byte[5]` and `Read(buffer, 0, 5)`: the file's
      first bytes, and the zeros of the fresh array past the end of a short file. */
  function ReadBuffer(bytes: seq<byte>): (buffer: seq<byte>)
    ensures |buffer| == BufferSize
    ensures forall i :: 0 <= i < BufferSize ==> buffer[i] == if i < |bytes| then bytes[i] else 0
  {
    if |bytes| >= BufferSize then bytes[..BufferSize] else bytes + Zeros(BufferSize - |bytes|)
  }

  /** The chain of conditionals over the filled buffer. */
  function ClassifyBuffer(buffer: seq<byte>): EncodingLabel
    requires |buffer| == BufferSize
  {
    if buffer[0] == 0xEF && buffer[1] == 0xBB && buffer[2] == 0xBF then UTF8
    else if buffer[0] == 0xFE && buffer[1] == 0xFF then Unicode
    else if buffer[0] == 0x00 && buffer[1] == 0x00 && buffer[2] == 0xFE && buffer[3] == 0xFF then UTF32
    else if buffer[0] == 0x2B && buffer[1] == 0x2F && buffer[2] == 0x76 then UTF7
    else Default
  }

  /** GuessFileEncoding: any failure to open or read degrades to Default,
      so the classifier never propagates an exception. */
  function GuessFileEncoding(file: FileRead): (guess: EncodingLabel)
    ensures file.Unreadable? ==> guess == Default
    ensures file.Contents? && |file.bytes| < |UnicodeSignature| ==> guess == Default
  {
    match file
    case Unreadable => Default
    case Contents(bytes) => ClassifyBuffer(ReadBuffer(bytes))
  }

  /** Reference reading of the chain: the label of the first table entry whose
      signature starts the file's actual bytes (no padding), else Default. */
  function FirstMatch(table: seq<(seq<byte>, EncodingLabel)>, bytes: seq<byte>): EncodingLabel {
    if table == [] then Default
    else if StartsWith(bytes, table[0].0) then table[0].1
    else FirstMatch(table[1..], bytes)
  }

  /** Zero padding never completes a signature that ends in a nonzero byte:
      the padded buffer starts with such a signature iff the file itself does. */
  lemma PaddingPreservesSignature(bytes: seq<byte>, signature: seq<byte>)
    requires 0 < |signature| <= BufferSize
    requires signature[|signature| - 1] != 0
    ensures StartsWith(ReadBuffer(bytes), signature) <==> StartsWith(bytes, signature)
  {
  }

  /** Each branch of the chain, phrased on the file's own bytes. */
  lemma GuessByIndices(bytes: seq<byte>)
    ensures GuessFileEncoding(Contents(bytes)) == UTF8 <==> StartsWith(bytes, Utf8Signature)
    ensures GuessFileEncoding(Contents(bytes)) == Unicode <==>
      !StartsWith(bytes, Utf8Signature) && StartsWith(bytes, UnicodeSignature)
    ensures GuessFileEncoding(Contents(bytes)) == UTF32 <==>
      !StartsWith(bytes, Utf8Signature) && !StartsWith(bytes, UnicodeSignature) && StartsWith(bytes, Utf32Signature)
    ensures GuessFileEncoding(Contents(bytes)) == UTF7 <==>
      !StartsWith(bytes, Utf8Signature) && !StartsWith(bytes, UnicodeSignature) &&
      !StartsWith(bytes, Utf32Signature) && StartsWith(bytes, Utf7Signature)
    ensures GuessFileEncoding(Contents(bytes)) == Default <==>
      !StartsWith(bytes, Utf8Signature) && !StartsWith(bytes, UnicodeSignature) &&
      !StartsWith(bytes, Utf32Signature) && !StartsWith(bytes, Utf7Signature)
  {
  }

  /** First match wins: the classifier agrees with the signature table read in order. */
  lemma GuessIsFirstMatch(bytes: seq<byte>)
    ensures GuessFileEncoding(Contents(bytes)) == FirstMatch(SignatureTable, bytes)
  {
    GuessByIndices(bytes);
    var t1 := [(UnicodeSignature, Unicode), (Utf32Signature, UTF32), (Utf7Signature, UTF7)];
    var t2 := [(Utf32Signature, UTF32), (Utf7Signature, UTF7)];
    var t3 := [(Utf7Signature, UTF7)];
    assert SignatureTable[1..] == t1 && t1[1..] == t2 && t2[1..] == t3 && t3[1..] == [];
    assert FirstMatch(t3, bytes) == if StartsWith(bytes, Utf7Signature) then UTF7 else Default;
    assert FirstMatch(t2, bytes) == if StartsWith(bytes, Utf32Signature) then UTF32 else FirstMatch(t3, bytes);
    assert FirstMatch(t1, bytes) == if StartsWith(bytes, UnicodeSignature) then Unicode else FirstMatch(t2, bytes);
    assert FirstMatch(SignatureTable, bytes) ==
      if StartsWith(bytes, Utf8Signature) then UTF8 else FirstMatch(t1, bytes);
  }

  /** The four signatures begin with four different bytes, so at most one of
      them starts any file and the order of the chain never decides a result. */
  lemma SignaturesAreExclusive(bytes: seq<byte>, i: nat, j: nat)
    requires i < |SignatureTable| && j < |SignatureTable|
    requires StartsWith(bytes, SignatureTable[i].0) && StartsWith(bytes, SignatureTable[j].0)
    ensures i == j
  {
    assert bytes[0] == SignatureTable[i].0[0];
    assert bytes[0] == SignatureTable[j].0[0];
  }

  /** A file that starts with the UTF-8 mark is UTF8 whatever follows it,
      e.g. after being rewritten with a leading byte-order mark. */
  lemma Utf8WhateverFollows(rest: seq<byte>)
    ensures GuessFileEncoding(Contents(Utf8Signature + rest)) == UTF8
  {
  }

  /** Short reads behave as zero padding: an empty file is Default, a file of
      exactly FE FF is Unicode and a file of exactly 00 00 FE FF is UTF32. */
  lemma ShortFiles()
    ensures GuessFileEncoding(Contents([])) == Default
    ensures GuessFileEncoding(Contents(UnicodeSignature)) == Unicode
    ensures GuessFileEncoding(Contents(Utf32Signature)) == UTF32
    ensures GuessFileEncoding(Contents([0x00, 0x00, 0xFE])) == Default
  {
  }

  /** Only the first four buffer bytes are inspected: two files whose
      zero-padded first four bytes agree get the same label. */
  lemma OnlyFourBytesInspected(bytes1: seq<byte>, bytes2: seq<byte>)
    requires ReadBuffer(bytes1)[..4] == ReadBuffer(bytes2)[..4]
    ensures GuessFileEncoding(Contents(bytes1)) == GuessFileEncoding(Contents(bytes2))
  {
  }

  /** The part of a file that one `Read(buffer, 0, 5)` can see. */
  function Head(bytes: seq<byte>): seq<byte> {
    if |bytes| <= BufferSize then bytes else bytes[..BufferSize]
  }

  /** Two files that agree on their first five bytes (the whole of a shorter
      file) get the same label. */
  lemma DependsOnlyOnHead(bytes1: seq<byte>, bytes2: seq<byte>)
    requires Head(bytes1) == Head(bytes2)
    ensures GuessFileEncoding(Contents(bytes1)) == GuessFileEncoding(Contents(bytes2))
  {
  }
}
