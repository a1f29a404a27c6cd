/** Literal strings (section 2.2.1 of the SPIR-V specification): UTF-8
    octets packed four per word, little-endian, the last word padded with
    zero bytes. A Rust `String` is modelled by its UTF-8 bytes; decoding a
    literal gives back bytes when they are valid UTF-8 and an error
    otherwise (`str::from_utf8`). */
module Literal {
  import opened Words
  import opened Utf8

  /** The outcome of `literal_to_string_le`. */
  datatype Decoded = Ok(bytes: seq<Byte>) | Utf8Error

  /** Byte `i` of `b`, or zero past its end (the zero-filled chunk). */
  function PadByte(b: seq<Byte>, i: nat): Byte
  {
    if i < |b| then b[i] else 0
  }

  function Zeros(n: nat): (z: seq<Byte>)
    ensures |z| == n && forall i :: 0 <= i < n ==> z[i] == 0
  {
    if n == 0 then [] else [0] + Zeros(n - 1)
  }

  /** Zero bytes needed to fill the last word. */
  function PadLength(n: nat): (p: nat)
    ensures p < 4 && (n + p) % 4 == 0
    ensures n + p == 4 * ((n + 3) / 4)
  {
    if n % 4 == 0 then 0 else 4 - n % 4
  }

  /** `b` padded with zero bytes up to a multiple of four. */
  function Padded(b: seq<Byte>): (r: seq<Byte>)
    ensures |r| == |b| + PadLength(|b|)
  {
    b + Zeros(PadLength(|b|))
  }

  /** The words `string_to_literal_le` returns: word `k` holds bytes
      4k..4k+3, the first least significant, zero past the end. */
  function PackLiteral(b: seq<Byte>): (r: seq<Word>)
    ensures |r| == (|b| + 3) / 4
  {
    seq((|b| + 3) / 4, (k: nat) => WordFromBytes(PadByte(b, 4 * k), PadByte(b, 4 * k + 1),
                                          PadByte(b, 4 * k + 2), PadByte(b, 4 * k + 3)))
  }

  /** `string_to_literal_le`: cut the bytes into groups of four, copy each
      group into a zero-filled chunk, and push the chunk as a word. */
  method StringToLiteralLe(s: seq<Byte>) returns (out: seq<Word>)
    ensures out == PackLiteral(s)
  {
    out := [];
    var chunks := (|s| + 3) / 4;
    for c := 0 to chunks
      invariant out == PackLiteral(s)[..c]
    {
      var lo := 4 * c;
      var hi := if lo + 4 <= |s| then lo + 4 else |s|;
      var group := s[lo..hi];
      var chunk: seq<Byte> := [0, 0, 0, 0];
      chunk := group + chunk[|group|..];
      assert forall j :: 0 <= j < 4 ==> chunk[j] == PadByte(s, lo + j);
      out := out + [WordFromBytes(chunk[0], chunk[1], chunk[2], chunk[3])];
      assert PackLiteral(s)[..c + 1] == PackLiteral(s)[..c] + [PackLiteral(s)[c]];
    }
    assert PackLiteral(s)[..chunks] == PackLiteral(s);
  }

  lemma PackedByte(b: seq<Byte>, k: nat, j: nat)
    requires k < (|b| + 3) / 4 && j < 4
    ensures 4 * k + j < 4 * |PackLiteral(b)|
    ensures U32SliceToU8Vec(PackLiteral(b))[4 * k + j] == PadByte(b, 4 * k + j)
  {
    var w := PackLiteral(b);
    var bs := [PadByte(b, 4 * k), PadByte(b, 4 * k + 1), PadByte(b, 4 * k + 2), PadByte(b, 4 * k + 3)];
    BytesOfWord(bs[0], bs[1], bs[2], bs[3]);
    assert WordToBytes(w[k]) == bs;
    var u := U32SliceToU8Vec(w);
    assert u[4 * k + j] == WordToBytes(w[k])[j];
    assert bs[j] == PadByte(b, 4 * k + j) by {
      if j == 0 {} else if j == 1 {} else if j == 2 {} else {}
    }
  }

  lemma PaddedByte(b: seq<Byte>, i: nat)
    requires i < |Padded(b)|
    ensures Padded(b)[i] == PadByte(b, i)
  {
    if i >= |b| {
      assert Padded(b)[i] == Zeros(PadLength(|b|))[i - |b|];
    }
  }

  /** The packed words hold exactly the padded bytes. */
  lemma PackLiteralBytes(b: seq<Byte>)
    ensures U32SliceToU8Vec(PackLiteral(b)) == Padded(b)
  {
    var bytes := U32SliceToU8Vec(PackLiteral(b));
    var p := Padded(b);
    forall i | 0 <= i < |p| ensures bytes[i] == p[i] {
      PackedByte(b, i / 4, i % 4);
      PaddedByte(b, i);
    }
  }

  /** The packer is `u8_slice_to_u32_vec` on the padded bytes. */
  lemma PackLiteralIsU8Slice(b: seq<Byte>)
    ensures PackLiteral(b) == U8SliceToU32Vec(Padded(b))
  {
    PackLiteralBytes(b);
    WordsBytesWords(PackLiteral(b));
  }

  /** What `literal_to_string_le` returns: the little-endian bytes of every
      word, if they are valid UTF-8. */
  function DecodeLiteral(input: seq<Word>): Decoded
  {
    var bytes := U32SliceToU8Vec(input);
    if ValidUtf8(bytes) then Ok(bytes) else Utf8Error
  }

  lemma U32SlicePrefix(input: seq<Word>, k: nat)
    requires k < |input|
    ensures U32SliceToU8Vec(input[..k + 1]) == U32SliceToU8Vec(input[..k]) + WordToBytes(input[k])
  {
    U32SliceAppend(input[..k], [input[k]]);
    assert input[..k + 1] == input[..k] + [input[k]];
    assert U32SliceToU8Vec([input[k]]) == WordToBytes(input[k]) + U32SliceToU8Vec([]);
  }

  /** `literal_to_string_le`: append the four bytes of each word, then
      validate. */
  method LiteralToStringLe(input: seq<Word>) returns (r: Decoded)
    ensures r == DecodeLiteral(input)
  {
    var bytes: seq<Byte> := [];
    for k := 0 to |input|
      invariant bytes == U32SliceToU8Vec(input[..k])
    {
      U32SlicePrefix(input, k);
      bytes := bytes + WordToBytes(input[k]);
    }
    assert input[..|input|] == input;
    if ValidUtf8(bytes) {
      r := Ok(bytes);
    } else {
      r := Utf8Error;
    }
  }

  /** Decoding an encoded string gives the string back followed by the zero
      bytes of the padding: exactly the string when its length is a
      multiple of four. */
  lemma LiteralRoundTrip(b: seq<Byte>)
    requires ValidUtf8(b)
    ensures DecodeLiteral(PackLiteral(b)) == Ok(Padded(b))
    ensures |b| % 4 == 0 ==> DecodeLiteral(PackLiteral(b)) == Ok(b)
  {
    PackLiteralBytes(b);
    var z := Zeros(PadLength(|b|));
    AsciiIsValid(z);
    ValidUtf8Append(b, z);
    if |b| % 4 == 0 {
      assert Padded(b) == b;
    }
  }

  /** Bytes of a string of ASCII characters. */
  function AsciiBytes(s: string): (b: seq<Byte>)
    requires forall i :: 0 <= i < |s| ==> s[i] as int < 0x80
    ensures |b| == |s|
    ensures forall i :: 0 <= i < |b| ==> b[i] < 0x80
  {
    seq(|s|, i requires 0 <= i < |s| => s[i] as int)
  }

  /** The name of the GLSL extended instruction set. */
  function GlslStd450(): seq<Byte>
  {
    AsciiBytes("GLSL.std.450")
  }

  lemma GlslStd450Bytes()
    ensures GlslStd450() == [71, 76, 83, 76, 46, 115, 116, 100, 46, 52, 53, 48]
  {
  }

  lemma GlslStd450Words()
    ensures PackLiteral(GlslStd450()) == [1280527431, 1685353262, 808793134]
  {
    var b := GlslStd450();
    GlslStd450Bytes();
    assert WordFromBytes(71, 76, 83, 76) == 1280527431;
    assert WordFromBytes(46, 115, 116, 100) == 1685353262;
    assert WordFromBytes(46, 52, 53, 48) == 808793134;
  }

  /** The unit test of src/util.rs: "GLSL.std.450" packs to the three
      words it expects, and those words decode back to the same string. */
  lemma GlslStd450Literal()
    ensures PackLiteral(GlslStd450()) == [1280527431, 1685353262, 808793134]
    ensures DecodeLiteral([1280527431, 1685353262, 808793134]) == Ok(GlslStd450())
  {
    var b := GlslStd450();
    AsciiIsValid(b);
    GlslStd450Words();
    LiteralRoundTrip(b);
  }

  // ---------------------------------------------------------------------
  // The terminating nul.

  /** Section 2.2.1 of the SPIR-V specification: a literal string ends with
      a nul byte inside its last word. */
  predicate NulTerminated(words: seq<Word>)
  {
    var bytes := U32SliceToU8Vec(words);
    words != [] && exists i :: 4 * (|words| - 1) <= i < |bytes| && bytes[i] == 0
  }

  /** As written, a string whose length is a multiple of four, such as
      "GLSL.std.450", is packed without a nul: no byte of the result is
      zero. */
  lemma MissingNul()
    ensures !NulTerminated(PackLiteral(GlslStd450()))
  {
    var b := GlslStd450();
    GlslStd450Bytes();
    PackLiteralBytes(b);
    assert PadLength(|b|) == 0 && Zeros(0) == [];
    assert Padded(b) == b + [];
    assert forall i :: 0 <= i < |b| ==> b[i] != 0;
  }

  /** The packing the specification asks for: the bytes, one nul, and zero
      padding to the end of the word. */
  function PackTerminated(b: seq<Byte>): seq<Word>
  {
    PackLiteral(b + [0])
  }

  /** The packer with the nul. */
  method StringToLiteralTerminated(s: seq<Byte>) returns (out: seq<Word>)
    ensures out == PackTerminated(s)
  {
    out := StringToLiteralLe(s + [0]);
  }

  /** The terminated packing holds the string, then only zero bytes, and
      always has a nul in its last word. */
  lemma PackTerminatedNul(b: seq<Byte>)
    ensures NulTerminated(PackTerminated(b))
    ensures U32SliceToU8Vec(PackTerminated(b))[..|b|] == b
    ensures forall i :: |b| <= i < 4 * |PackTerminated(b)| ==> U32SliceToU8Vec(PackTerminated(b))[i] == 0
  {
    var c := b + [0];
    PackLiteralBytes(c);
    var bytes := U32SliceToU8Vec(PackTerminated(b));
    assert bytes == Padded(c);
    assert bytes[|b|] == 0;
    assert bytes[..|b|] == b;
  }

  /** The terminated packing decodes to the string, its nul, and the zero
      bytes that fill the last word. */
  lemma PackTerminatedRoundTrip(b: seq<Byte>)
    requires ValidUtf8(b)
    ensures DecodeLiteral(PackTerminated(b)) == Ok(b + [0] + Zeros(PadLength(|b| + 1)))
  {
    var c := b + [0];
    AsciiIsValid([0]);
    ValidUtf8Append(b, [0]);
    LiteralRoundTrip(c);
    assert PackTerminated(b) == PackLiteral(c);
    assert |c| == |b| + 1 && Padded(c) == c + Zeros(PadLength(|b| + 1));
  }

  /** "GLSL.std.450" packed with its nul takes four words. */
  lemma GlslStd450Terminated()
    ensures PackTerminated(GlslStd450()) == [1280527431, 1685353262, 808793134, 0]
  {
    var b := GlslStd450();
    GlslStd450Bytes();
  }
}
