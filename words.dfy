/** 32-bit words, 16-bit half words and bytes of a SPIR-V binary, and the
    conversions between them (the word helpers of src/util.rs and the slice
    conversions of src/lib.rs). A `u32` is an integer below 2^32; the
    shift-and-mask expressions of the source are written with `/` and `%`
    by powers of two, which is the same thing on values of that width. */
module Words {

  type Word = w: int | 0 <= w < 0x1_0000_0000
  type HalfWord = h: int | 0 <= h < 0x1_0000
  type Byte = b: int | 0 <= b < 0x100

  /** `(value >> 16) & 0xFFFF`: the word count packed in an instruction's first word. */
  function HiWord(value: Word): HalfWord
  {
    value / 0x1_0000
  }

  /** `value & 0xFFFF`: the opcode packed in an instruction's first word. */
  function LoWord(value: Word): HalfWord
  {
    value % 0x1_0000
  }

  /** `(hiword << 16) | loword`. */
  function EncodeWord(hi: HalfWord, lo: HalfWord): (w: Word)
    ensures HiWord(w) == hi && LoWord(w) == lo
  {
    hi * 0x1_0000 + lo
  }

  /** Splitting a word and packing the halves again gives the word back. */
  lemma EncodeOfHalves(v: Word)
    ensures EncodeWord(HiWord(v), LoWord(v)) == v
  {
  }

  /** `b0 | b1 << 8 | b2 << 16 | b3 << 24`: four bytes, the first one least significant. */
  function WordFromBytes(b0: Byte, b1: Byte, b2: Byte, b3: Byte): Word
  {
    b0 + 0x100 * (b1 + 0x100 * (b2 + 0x100 * b3))
  }

  /** The first byte is the least significant one, the last the most. */
  lemma LittleEndian(b0: Byte, b1: Byte, b2: Byte, b3: Byte)
    ensures WordFromBytes(b0, b1, b2, b3) % 0x100 == b0
    ensures WordFromBytes(b0, b1, b2, b3) / 0x100_0000 == b3
  {
  }

  /** `w.to_le_bytes()`: the four bytes of a word, least significant first. */
  function WordToBytes(w: Word): (bs: seq<Byte>)
    ensures |bs| == 4
    ensures WordFromBytes(bs[0], bs[1], bs[2], bs[3]) == w
  {
    var b0 := w % 0x100;
    var r1 := w / 0x100;
    var b1 := r1 % 0x100;
    var r2 := r1 / 0x100;
    var b2 := r2 % 0x100;
    var b3 := r2 / 0x100;
    assert r1 == b1 + 0x100 * r2;
    assert r2 == b2 + 0x100 * b3;
    [b0, b1, b2, b3]
  }

  lemma BytesOfWord(b0: Byte, b1: Byte, b2: Byte, b3: Byte)
    ensures WordToBytes(WordFromBytes(b0, b1, b2, b3)) == [b0, b1, b2, b3]
  {
    var w := WordFromBytes(b0, b1, b2, b3);
    assert w / 0x100 == b1 + 0x100 * (b2 + 0x100 * b3);
    assert w / 0x100 / 0x100 == b2 + 0x100 * b3;
  }

  /** `u8_slice_to_u32_vec`: every group of four bytes becomes one word. The
      source asserts that the length is a multiple of 4; here that is the
      precondition. */
  function U8SliceToU32Vec(bytes: seq<Byte>): (words: seq<Word>)
    requires |bytes| % 4 == 0
    ensures |words| == |bytes| / 4
    ensures forall i :: 0 <= i < |words| ==>
      words[i] == WordFromBytes(bytes[4 * i], bytes[4 * i + 1], bytes[4 * i + 2], bytes[4 * i + 3])
  {
    if bytes == [] then []
    else [WordFromBytes(bytes[0], bytes[1], bytes[2], bytes[3])] + U8SliceToU32Vec(bytes[4..])
  }

  /** `u32_slice_to_u8_vec`: every word becomes its four little-endian bytes. */
  function U32SliceToU8Vec(words: seq<Word>): (bytes: seq<Byte>)
    ensures |bytes| == 4 * |words|
    ensures forall i, j :: 0 <= i < |words| && 0 <= j < 4 ==> bytes[4 * i + j] == WordToBytes(words[i])[j]
  {
    if words == [] then []
    else WordToBytes(words[0]) + U32SliceToU8Vec(words[1..])
  }

  /** Converting words to bytes and back gives the words back. */
  lemma {:induction false} WordsBytesWords(words: seq<Word>)
    ensures U8SliceToU32Vec(U32SliceToU8Vec(words)) == words
  {
    if words != [] {
      var bs := WordToBytes(words[0]);
      var rest := U32SliceToU8Vec(words[1..]);
      assert U32SliceToU8Vec(words) == bs + rest;
      assert (bs + rest)[4..] == rest;
      WordsBytesWords(words[1..]);
    }
  }

  /** Converting a byte sequence whose length is a multiple of 4 to words and
      back gives the bytes back. */
  lemma {:induction false} BytesWordsBytes(bytes: seq<Byte>)
    requires |bytes| % 4 == 0
    ensures U32SliceToU8Vec(U8SliceToU32Vec(bytes)) == bytes
  {
    if bytes != [] {
      BytesOfWord(bytes[0], bytes[1], bytes[2], bytes[3]);
      BytesWordsBytes(bytes[4..]);
      var ws := U8SliceToU32Vec(bytes);
      assert ws[1..] == U8SliceToU32Vec(bytes[4..]);
      assert bytes == bytes[..4] + bytes[4..];
    }
  }

  /** Both conversions distribute over concatenation. */
  lemma {:induction false} U8SliceAppend(a: seq<Byte>, b: seq<Byte>)
    requires |a| % 4 == 0 && |b| % 4 == 0
    ensures U8SliceToU32Vec(a + b) == U8SliceToU32Vec(a) + U8SliceToU32Vec(b)
  {
    if a != [] {
      assert (a + b)[4..] == a[4..] + b;
      U8SliceAppend(a[4..], b);
    } else {
      assert a + b == b;
    }
  }

  lemma {:induction false} U32SliceAppend(a: seq<Word>, b: seq<Word>)
    ensures U32SliceToU8Vec(a + b) == U32SliceToU8Vec(a) + U32SliceToU8Vec(b)
  {
    if a != [] {
      assert (a + b)[1..] == a[1..] + b;
      U32SliceAppend(a[1..], b);
    } else {
      assert a + b == b;
    }
  }
}
