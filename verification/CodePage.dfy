/** The translation tables between the EBCDIC of the client and the ISO-Latin-1 of the outside. */
module CodePage {
  import opened Bytes

  const E2A_ROWS: seq<seq<byte>> := [
    [0x20, 0x20, 0x20, 0x20, 0x20, 0x20, 0x20, 0x20, 0x20, 0x20, 0x20, 0x20, 0x20, 0x0D, 0x20, 0x20],
    [0x20, 0x20, 0x20, 0x20, 0x20, 0x20, 0x20, 0x20, 0x20, 0x20, 0x20, 0x20, 0x20, 0x20, 0x20, 0x20],
    [0x20, 0x20, 0x20, 0x20, 0x20, 0x0A, 0x20, 0x20, 0x20, 0x20, 0x20, 0x20, 0x20, 0x20, 0x20, 0x20],
    [0x20, 0x20, 0x20, 0x20, 0x20, 0x20, 0x20, 0x20, 0x20, 0x20, 0x20, 0x20, 0x20, 0x20, 0x20, 0x20],
    [0x20, 0xA0, 0xE2, 0xE4, 0xE0, 0xE1, 0xE3, 0xE5, 0xE7, 0xF1, 0xA2, 0x2E, 0x3C, 0x28, 0x2B, 0x7C],
    [0x26, 0xE9, 0xEA, 0xEB, 0xE8, 0xED, 0xEE, 0xEF, 0xEC, 0xDF, 0x21, 0x24, 0x2A, 0x29, 0x3B, 0xAC],
    [0x2D, 0x2F, 0xC2, 0xC4, 0xC0, 0xC1, 0xC3, 0xC5, 0xC7, 0xD1, 0xA6, 0x2C, 0x25, 0x5F, 0x3E, 0x3F],
    [0xF8, 0xC9, 0xCA, 0xCB, 0xC8, 0xCD, 0xCE, 0xCF, 0xCC, 0x60, 0x3A, 0x23, 0x40, 0x27, 0x3D, 0x22],
    [0xD8, 0x61, 0x62, 0x63, 0x64, 0x65, 0x66, 0x67, 0x68, 0x69, 0xAB, 0xBB, 0xF0, 0xFD, 0xFE, 0xB1],
    [0xB0, 0x6A, 0x6B, 0x6C, 0x6D, 0x6E, 0x6F, 0x70, 0x71, 0x72, 0xAA, 0xBA, 0xE6, 0xB8, 0xC6, 0xA4],
    [0xB5, 0x7E, 0x73, 0x74, 0x75, 0x76, 0x77, 0x78, 0x79, 0x7A, 0xA1, 0xBF, 0xD0, 0x5B, 0xDE, 0xAE],
    [0x5E, 0xA3, 0xA5, 0xB7, 0xA9, 0xA7, 0xB6, 0xBC, 0xBD, 0xBE, 0xDD, 0xA8, 0xAF, 0x5D, 0xB4, 0xD7],
    [0x7B, 0x41, 0x42, 0x43, 0x44, 0x45, 0x46, 0x47, 0x48, 0x49, 0xAD, 0xF4, 0xF6, 0xF2, 0xF3, 0xF5],
    [0x7D, 0x4A, 0x4B, 0x4C, 0x4D, 0x4E, 0x4F, 0x50, 0x51, 0x52, 0xB9, 0xFB, 0xFC, 0xF9, 0xFA, 0xFF],
    [0x5C, 0xF7, 0x53, 0x54, 0x55, 0x56, 0x57, 0x58, 0x59, 0x5A, 0xB2, 0xD4, 0xD6, 0xD2, 0xD3, 0xD5],
    [0x30, 0x31, 0x32, 0x33, 0x34, 0x35, 0x36, 0x37, 0x38, 0x39, 0xB3, 0xDB, 0xDC, 0xD9, 0xDA, 0x20]
  ]

  const A2E_ROWS: seq<seq<byte>> := [
    [0x40, 0x40, 0x40, 0x40, 0x40, 0x40, 0x40, 0x40, 0x40, 0x40, 0x25, 0x40, 0x40, 0x0D, 0x40, 0x40],
    [0x40, 0x40, 0x40, 0x40, 0x40, 0x40, 0x40, 0x40, 0x40, 0x40, 0x40, 0x40, 0x40, 0x40, 0x40, 0x40],
    [0x40, 0x5A, 0x7F, 0x7B, 0x5B, 0x6C, 0x50, 0x7D, 0x4D, 0x5D, 0x5C, 0x4E, 0x6B, 0x60, 0x4B, 0x61],
    [0xF0, 0xF1, 0xF2, 0xF3, 0xF4, 0xF5, 0xF6, 0xF7, 0xF8, 0xF9, 0x7A, 0x5E, 0x4C, 0x7E, 0x6E, 0x6F],
    [0x7C, 0xC1, 0xC2, 0xC3, 0xC4, 0xC5, 0xC6, 0xC7, 0xC8, 0xC9, 0xD1, 0xD2, 0xD3, 0xD4, 0xD5, 0xD6],
    [0xD7, 0xD8, 0xD9, 0xE2, 0xE3, 0xE4, 0xE5, 0xE6, 0xE7, 0xE8, 0xE9, 0xAD, 0xE0, 0xBD, 0xB0, 0x6D],
    [0x79, 0x81, 0x82, 0x83, 0x84, 0x85, 0x86, 0x87, 0x88, 0x89, 0x91, 0x92, 0x93, 0x94, 0x95, 0x96],
    [0x97, 0x98, 0x99, 0xA2, 0xA3, 0xA4, 0xA5, 0xA6, 0xA7, 0xA8, 0xA9, 0xC0, 0x4F, 0xD0, 0xA1, 0x40],
    [0x40, 0x40, 0x40, 0x40, 0x40, 0x40, 0x40, 0x40, 0x40, 0x40, 0x40, 0x40, 0x40, 0x40, 0x40, 0x40],
    [0x40, 0x40, 0x40, 0x40, 0x40, 0x40, 0x40, 0x40, 0x40, 0x40, 0x40, 0x40, 0x40, 0x40, 0x40, 0x40],
    [0x41, 0xAA, 0x4A, 0xB1, 0x9F, 0xB2, 0x6A, 0xB5, 0xBB, 0xB4, 0x9A, 0x8A, 0x5F, 0xCA, 0xAF, 0xBC],
    [0x90, 0x8F, 0xEA, 0xFA, 0xBE, 0xA0, 0xB6, 0xB3, 0x9D, 0xDA, 0x9B, 0x8B, 0xB7, 0xB8, 0xB9, 0xAB],
    [0x64, 0x65, 0x62, 0x66, 0x63, 0x67, 0x9E, 0x68, 0x74, 0x71, 0x72, 0x73, 0x78, 0x75, 0x76, 0x77],
    [0xAC, 0x69, 0xED, 0xEE, 0xEB, 0xEF, 0xEC, 0xBF, 0x80, 0xFD, 0xFE, 0xFB, 0xFC, 0xBA, 0xAE, 0x59],
    [0x44, 0x45, 0x42, 0x46, 0x43, 0x47, 0x9C, 0x48, 0x54, 0x51, 0x52, 0x53, 0x58, 0x55, 0x56, 0x57],
    [0x8C, 0x49, 0xCD, 0xCE, 0xCB, 0xCF, 0xCC, 0xE1, 0x70, 0xDD, 0xDE, 0xDB, 0xDC, 0x8D, 0x8E, 0xDF]
  ]

  /** EBCDIC to ISO-Latin-1: the table has 16 rows of 16 entries. */
  function E2A(c: byte): byte {
    E2A_ROWS[(c >> 4) as int][(c & 15) as int]
  }

  /** ISO-Latin-1 to EBCDIC. */
  function A2E(c: byte): byte {
    A2E_ROWS[(c >> 4) as int][(c & 15) as int]
  }

  /** What the translating copies do to a block. */
  function Translate(xtab: byte -> byte, text: seq<byte>): (r: seq<byte>)
    ensures |r| == |text|
    ensures forall i :: 0 <= i < |text| ==> r[i] == xtab(text[i])
  {
    if text == [] then [] else [xtab(text[0])] + Translate(xtab, text[1..])
  }

  lemma {:induction false} TranslateAppend(xtab: byte -> byte, a: seq<byte>, b: seq<byte>)
    ensures Translate(xtab, a + b) == Translate(xtab, a) + Translate(xtab, b)
  {
    var joined, parts := Translate(xtab, a + b), Translate(xtab, a) + Translate(xtab, b);
    assert forall i :: 0 <= i < |joined| ==> joined[i] == parts[i];
  }

  /** The character survives the way to the outside and back. */
  predicate Faithful(e2a: byte -> byte, a2e: byte -> byte, c: byte) {
    a2e(e2a(c)) == c
  }

  /** The tables carry the two line end characters through in both directions. */
  lemma LineEndsFaithful()
    ensures E2A(0x0D) == 0x0D && A2E(0x0D) == 0x0D
    ensures E2A(0x25) == 0x0A && A2E(0x0A) == 0x25
  {
  }

  /** Nothing translates to a null byte. */
  lemma NoNull(c: byte)
    ensures A2E(c) != 0
  {
  }

  /** Only a line feed translates to a line feed, in both directions. */
  lemma OnlyLfToEbcdic(c: byte)
    ensures A2E(c) == 0x25 ==> c == 0x0A
  {
  }

  lemma OnlyLfToAscii(c: byte)
    ensures E2A(c) == 0x0A ==> c == 0x25
  {
  }

  lemma BlankIsSpace()
    ensures A2E(0x20) == 0x40 && E2A(0x40) == 0x20
  {
  }

  /** Digits, and the three ranges of letters of either case, become those of ISO-Latin-1. */
  lemma LettersAndDigits(c: byte)
    ensures 0xF0 <= c <= 0xF9 ==> E2A(c) == 0x30 + (c - 0xF0)
    ensures 0xC1 <= c <= 0xC9 ==> E2A(c) == 0x41 + (c - 0xC1)
    ensures 0xD1 <= c <= 0xD9 ==> E2A(c) == 0x4A + (c - 0xD1)
    ensures 0xE2 <= c <= 0xE9 ==> E2A(c) == 0x53 + (c - 0xE2)
    ensures 0x81 <= c <= 0x89 ==> E2A(c) == 0x61 + (c - 0x81)
    ensures 0x91 <= c <= 0x99 ==> E2A(c) == 0x6A + (c - 0x91)
    ensures 0xA2 <= c <= 0xA9 ==> E2A(c) == 0x73 + (c - 0xA2)
  {
  }

  /** They come back. */
  lemma LettersAndDigitsFaithful(c: byte)
    requires 0xF0 <= c <= 0xF9 || 0xC1 <= c <= 0xC9 || 0xD1 <= c <= 0xD9 || 0xE2 <= c <= 0xE9
          || 0x81 <= c <= 0x89 || 0x91 <= c <= 0x99 || 0xA2 <= c <= 0xA9
    ensures Faithful(E2A, A2E, c)
  {
  }
}
