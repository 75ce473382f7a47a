/** The base64 codec of protocol/ic_base64.c: section 4 of RFC 4648, written in
    lines of 76 characters as in section 6.8 of RFC 2045. Shifts and masks on
    bytes are written as division and remainder. */
module Base64 {
  import opened Basics

  type Byte = b: int | 0 <= b < 256

  const CR: Byte := 10
  const PAD: Byte := 61       // '='
  const LINE: nat := 76       // 19 groups of four characters

  // ----- the two tables, row by row -----

  const D0: seq<Byte> := [62, 65, 65, 65, 63, 52, 53, 54, 55, 56]
  const D1: seq<Byte> := [57, 58, 59, 60, 61, 65, 65, 65, 64, 65]
  const D2: seq<Byte> := [65, 65,  0,  1,  2,  3,  4,  5,  6,  7]
  const D3: seq<Byte> := [ 8,  9, 10, 11, 12, 13, 14, 15, 16, 17]
  const D4: seq<Byte> := [18, 19, 20, 21, 22, 23, 24, 25, 65, 65]
  const D5: seq<Byte> := [65, 65, 65, 65, 26, 27, 28, 29, 30, 31]
  const D6: seq<Byte> := [32, 33, 34, 35, 36, 37, 38, 39, 40, 41]
  const D7: seq<Byte> := [42, 43, 44, 45, 46, 47, 48, 49, 50, 51]
  const DECODE_LOW: seq<Byte> := D0 + D1 + D2 + D3
  const DECODE_HIGH: seq<Byte> := D4 + D5 + D6 + D7
  const DECODE_TABLE: seq<Byte> := DECODE_LOW + DECODE_HIGH

  const E0: seq<Byte> := [0x41, 0x42, 0x43, 0x44, 0x45, 0x46, 0x47, 0x48]
  const E1: seq<Byte> := [0x49, 0x4A, 0x4B, 0x4C, 0x4D, 0x4E, 0x4F, 0x50]
  const E2: seq<Byte> := [0x51, 0x52, 0x53, 0x54, 0x55, 0x56, 0x57, 0x58]
  const E3: seq<Byte> := [0x59, 0x5A, 0x61, 0x62, 0x63, 0x64, 0x65, 0x66]
  const E4: seq<Byte> := [0x67, 0x68, 0x69, 0x6A, 0x6B, 0x6C, 0x6D, 0x6E]
  const E5: seq<Byte> := [0x6F, 0x70, 0x71, 0x72, 0x73, 0x74, 0x75, 0x76]
  const E6: seq<Byte> := [0x77, 0x78, 0x79, 0x7A, 0x30, 0x31, 0x32, 0x33]
  const E7: seq<Byte> := [0x34, 0x35, 0x36, 0x37, 0x38, 0x39, 0x2B, 0x2F]
  const ENCODE_TABLE: seq<Byte> := E0 + E1 + E2 + E3 + E4 + E5 + E6 + E7

  /** The alphabet of RFC 4648 by its order: A-Z, a-z, 0-9, '+', '/'. */
  function Letter(i: nat): Byte
    requires i < 64
  {
    if i < 26 then 65 + i
    else if i < 52 then 97 + (i - 26)
    else if i < 62 then 48 + (i - 52)
    else if i == 62 then 43 else 47
  }

  /** The position of a character in the alphabet, 64 for '=', 65 for any other. */
  function Value(c: Byte): (v: nat)
    ensures v <= 65
    ensures v < 64 ==> Letter(v) == c
    ensures v == 64 <==> c == PAD
  {
    if 65 <= c <= 90 then c - 65
    else if 97 <= c <= 122 then c - 97 + 26
    else if 48 <= c <= 57 then c - 48 + 52
    else if c == 43 then 62
    else if c == 47 then 63
    else if c == PAD then 64
    else 65
  }

  /** The encode table is the standard alphabet. */
  lemma EncodeTableIsAlphabet(i: nat)
    requires i < 64
    ensures |ENCODE_TABLE| == 64 && ENCODE_TABLE[i] == Letter(i)
  {
    assert ENCODE_TABLE[i] ==
      if i < 8 then E0[i] else if i < 16 then E1[i - 8] else if i < 24 then E2[i - 16] else if i < 32 then E3[i - 24]
      else if i < 40 then E4[i - 32] else if i < 48 then E5[i - 40] else if i < 56 then E6[i - 48] else E7[i - 56];
  }

  lemma DecodeLow(i: nat)
    requires i < 40
    ensures |DECODE_LOW| == 40 && DECODE_LOW[i] == Value(43 + i)
  {
    assert DECODE_LOW[i] ==
      if i < 10 then D0[i] else if i < 20 then D1[i - 10] else if i < 30 then D2[i - 20] else D3[i - 30];
  }

  lemma DecodeHigh(i: nat)
    requires i < 40
    ensures |DECODE_HIGH| == 40 && DECODE_HIGH[i] == Value(83 + i)
  {
    assert DECODE_HIGH[i] ==
      if i < 10 then D4[i] else if i < 20 then D5[i - 10] else if i < 30 then D6[i - 20] else D7[i - 30];
  }

  /** The decode table, entered at '+', gives the position of every character
      up to 'z'; characters outside that range have none. */
  lemma DecodeTableIsInverse(c: Byte)
    ensures |DECODE_TABLE| == 80
    ensures 43 <= c <= 122 ==> DECODE_TABLE[c - 43] == Value(c)
    ensures !(43 <= c <= 122) ==> Value(c) == 65
  {
    DecodeLow(0);
    DecodeHigh(0);
    if 43 <= c <= 82 {
      DecodeLow(c - 43);
    } else if 83 <= c <= 122 {
      DecodeHigh(c - 83);
    }
  }

  // ----- the text of a byte string -----

  /** The groups of four characters of RFC 4648, section 4. */
  function Quad(a: Byte, b: Byte, c: Byte): (q: seq<Byte>)
    ensures |q| == 4
  {
    [Letter(a / 4), Letter(a % 4 * 16 + b / 16), Letter(b % 16 * 4 + c / 64), Letter(c % 64)]
  }

  function Quad2(a: Byte, b: Byte): (q: seq<Byte>)
    ensures |q| == 4
  {
    [Letter(a / 4), Letter(a % 4 * 16 + b / 16), Letter(b % 16 * 4), PAD]
  }

  function Quad1(a: Byte): (q: seq<Byte>)
    ensures |q| == 4
  {
    [Letter(a / 4), Letter(a % 4 * 16), PAD, PAD]
  }

  function Text(src: seq<Byte>): (t: seq<Byte>) {
    if |src| == 0 then []
    else if |src| == 1 then Quad1(src[0])
    else if |src| == 2 then Quad2(src[0], src[1])
    else Quad(src[0], src[1], src[2]) + Text(src[3..])
  }

  lemma {:induction false} TextLength(src: seq<Byte>)
    ensures |Text(src)| == 4 * ((|src| + 2) / 3)
  {
    if |src| >= 3 {
      TextLength(src[3..]);
      assert (|src| + 2) / 3 == 1 + (|src[3..]| + 2) / 3;
    }
  }

  /** The text with a CR after every full line, the last line left open. */
  function Broken(t: seq<Byte>): seq<Byte> {
    if |t| < LINE then t else t[..LINE] + [CR] + Broken(t[LINE..])
  }

  /** What the encoder writes before the final NUL: an open line gets its CR too. */
  function Encoded(src: seq<Byte>): seq<Byte> {
    var t := Text(src);
    Broken(t) + (if |t| % LINE == 0 then [] else [CR])
  }

  lemma {:induction false} BrokenLength(t: seq<Byte>)
    ensures |Broken(t)| == |t| + |t| / LINE
  {
    if |t| >= LINE {
      BrokenLength(t[LINE..]);
      assert |t| / LINE == 1 + |t[LINE..]| / LINE;
    }
  }

  /** The length that the encoder computes beforehand is the length it writes. */
  lemma EncodedLength(src: seq<Byte>)
    ensures var quads := (|src| + 2) / 3;
            |Encoded(src)| == 4 * quads + (quads + 18) / 19
  {
    var t := Text(src);
    TextLength(src);
    BrokenLength(t);
  }

  /** Adding a group to the text adds it to the broken text, and a CR when it
      fills the line. */
  lemma {:induction false} BrokenAppend(t: seq<Byte>, q: seq<Byte>)
    requires |q| == 4 && |t| % 4 == 0
    ensures Broken(t + q) == Broken(t) + q + (if (|t| + 4) % LINE == 0 then [CR] else [])
  {
    if |t| < LINE {
      assert |t| + 4 <= LINE;
      if |t| + 4 == LINE {
        assert (t + q)[..LINE] == t + q && (t + q)[LINE..] == [];
      }
    } else {
      BrokenFirst(t, q);
      LineShift(|t|);
      hide Broken;
      BrokenAppend(t[LINE..], q);
    }
  }

  lemma BrokenFirst(t: seq<Byte>, q: seq<Byte>)
    requires |t| >= LINE
    ensures Broken(t) == t[..LINE] + [CR] + Broken(t[LINE..])
    ensures Broken(t + q) == t[..LINE] + [CR] + Broken(t[LINE..] + q)
  {
    assert (t + q)[..LINE] == t[..LINE] && (t + q)[LINE..] == t[LINE..] + q;
  }

  lemma LineShift(n: nat)
    requires n >= LINE
    ensures (n + 4) % LINE == 0 <==> (n - LINE + 4) % LINE == 0
    ensures n % 4 == 0 ==> (n - LINE) % 4 == 0
  {
    AddOnce(n - LINE + 4, LINE);
    AddMultiple(n - LINE, 19, 4);
  }

  /** The text of whole groups of three, extended by one more. */
  lemma {:induction false} TextSnoc(src: seq<Byte>, last: seq<Byte>)
    requires |src| % 3 == 0
    ensures Text(src + last) == Text(src) + Text(last)
  {
    if src == [] {
      assert src + last == last;
    } else {
      assert (src + last)[3..] == src[3..] + last;
      TextSnoc(src[3..], last);
    }
  }

  // ----- ic_base64_encode -----

  function FromTable(i: nat): (c: Byte)
    requires i < 64
    ensures c == Letter(i)
  {
    EncodeTableIsAlphabet(i);
    ENCODE_TABLE[i]
  }

  /** dst_len as computed before encoding. */
  function Size(srcLen: nat): nat {
    var quads := (srcLen + 2) / 3;
    4 * quads + (quads + 18) / 19
  }

  /** The same in the 32-bit arithmetic of the source. */
  function Size32(srcLen: nat): nat {
    var quads := ((srcLen + 2) % TWO_TO_32) / 3;
    (4 * quads + (quads + 18) / 19) % TWO_TO_32
  }

  /** The source computes the right size exactly when it is a 32-bit number. */
  lemma SizeIsRightIff(srcLen: nat)
    requires srcLen < TWO_TO_32
    ensures Size32(srcLen) == Size(srcLen) <==> Size(srcLen) < TWO_TO_32
  {
  }

  /** Where the output stands after `quads` full groups. */
  function Written(quads: nat): nat {
    4 * quads + quads / 19
  }

  lemma WrittenIsBroken(t: seq<Byte>, quads: nat)
    requires |t| == 4 * quads
    ensures |Broken(t)| == Written(quads)
    ensures |t| % LINE == 0 <==> quads % 19 == 0
  {
    BrokenLength(t);
  }

  /** There is always room for the next group and its CR. */
  lemma RoomForQuad(srcLen: nat, quads: nat)
    requires quads < (srcLen + 2) / 3
    ensures Written(quads) + 5 <= Size(srcLen)
      || (Written(quads) + 4 <= Size(srcLen) && (quads + 1) % 19 != 0)
    ensures Written(quads) + 5 <= Size(srcLen) + 1
  {
  }

  /** Write one group at `at`. */
  method PutQuad(dst: array<Byte>, at: nat, q: seq<Byte>)
    requires |q| == 4 && at + 4 <= dst.Length
    modifies dst
    ensures dst[..at + 4] == old(dst[..at]) + q
  {
    dst[at], dst[at + 1], dst[at + 2], dst[at + 3] := q[0], q[1], q[2], q[3];
  }

  /** The sizes are 32-bit numbers, so the source needs the size of the result
      and its NUL to be one. Returns the buffer; its last byte is the NUL. */
  method Encode(src: seq<Byte>) returns (dest: array<Byte>)
    requires Size(|src|) + 1 < TWO_TO_32
    ensures fresh(dest) && dest.Length == Size(|src|) + 1
    ensures dest[..] == Encoded(src) + [0]
  {
    EncodedLength(src);
    dest := new Byte[Size(|src|) + 1](_ => 0);
    var dst, crCount := EncodeQuads(src, dest);
    dst, crCount := EncodeLeftOvers(src, dest, dst, crCount);
    hide Text, Broken, Size;
    if crCount != 0 {
      dest[dst] := CR;
      dst := dst + 1;
    }
    dest[dst] := 0;
    dst := dst + 1;
    assert dst == dest.Length;
    assert dest[..] == dest[..dst];
  }

  /** The last one or two bytes, padded to a group. */
  method EncodeLeftOvers(src: seq<Byte>, dest: array<Byte>, at: nat, crCount: nat) returns (dst: nat, crCount': nat)
    requires dest.Length == Size(|src|) + 1
    requires var whole := src[..3 * (|src| / 3)];
             && at == |Broken(Text(whole))| <= dest.Length
             && dest[..at] == Broken(Text(whole))
             && crCount == (|src| / 3) % 19
    modifies dest
    ensures dst + (if crCount' == 0 then 0 else 1) == Size(|src|)
    ensures dest[..dst] + (if crCount' == 0 then [] else [CR]) == Encoded(src)
  {
    var stdQuads := |src| / 3;
    var leftOvers := |src| - 3 * stdQuads;
    LeftOversStep(src);
    dst, crCount' := at, crCount;
    if leftOvers > 0 {
      var q := if leftOvers == 1 then TableQuad1(src[3 * stdQuads])
               else TableQuad2(src[3 * stdQuads], src[3 * stdQuads + 1]);
      hide *;
      PutQuad(dest, dst, q);
      dst, crCount' := dst + 4, crCount + 1;
    }
  }

  lemma WholeText(whole: seq<Byte>, k: nat)
    requires |whole| == 3 * k
    ensures |Text(whole)| % 4 == 0
    ensures |Text(whole)| % LINE == 0 <==> k % 19 == 0
    ensures |Broken(Text(whole))| == Written(k)
  {
    TextLength(whole);
    assert |Text(whole)| == 4 * k;
    hide Text, Broken;
    WrittenIsBroken(Text(whole), k);
  }

  /** What the bytes after the last full group add. */
  lemma AfterWhole(whole: seq<Byte>, last: seq<Byte>, k: nat)
    requires |whole| == 3 * k && |last| <= 2
    ensures |Broken(Text(whole))| == Written(k)
    ensures last == [] ==> Encoded(whole + last) == Broken(Text(whole)) + (if k % 19 == 0 then [] else [CR])
    ensures last != [] ==> Encoded(whole + last) == Broken(Text(whole)) + Text(last) + [CR]
  {
    hide *;
    TextSnoc(whole, last);
    WholeText(whole, k);
    TextOfLast(last);
    EncodedIs(whole + last);
    if last == [] {
      assert Text(whole) + Text(last) == Text(whole);
    } else {
      BrokenOpen(Text(whole), Text(last));
    }
  }

  lemma TextOfLast(last: seq<Byte>)
    requires |last| <= 2
    ensures last == [] ==> Text(last) == []
    ensures last != [] ==> |Text(last)| == 4
  {
    hide Letter;
  }

  lemma EncodedIs(src: seq<Byte>)
    ensures Encoded(src) == Broken(Text(src)) + (if |Text(src)| % LINE == 0 then [] else [CR])
  {
    hide Broken, Text;
  }

  lemma LeftOversStep(src: seq<Byte>)
    ensures var k := |src| / 3;
            var done := Broken(Text(src[..3 * k]));
            var left := |src| - 3 * k;
            && |done| == Written(k)
            && (left == 0 ==> Encoded(src) == done + (if k % 19 == 0 then [] else [CR]))
            && (left == 1 ==> Encoded(src) == done + Quad1(src[3 * k]) + [CR])
            && (left == 2 ==> Encoded(src) == done + Quad2(src[3 * k], src[3 * k + 1]) + [CR])
            && |Encoded(src)| == Size(|src|)
  {
    var k := |src| / 3;
    var whole, last := src[..3 * k], src[3 * k..];
    EncodedLength(src);
    assert |last| == 1 ==> Text(last) == Quad1(src[3 * k]);
    assert |last| == 2 ==> Text(last) == Quad2(src[3 * k], src[3 * k + 1]);
    assert Size(|src|) == |Encoded(src)|;
    hide *;
    assert src == whole + last;
    AfterWhole(whole, last, k);
  }

  /** Appending the last group, with its CR in any case. */
  lemma BrokenOpen(t: seq<Byte>, q: seq<Byte>)
    requires |q| == 4 && |t| % 4 == 0
    ensures Broken(t) + q + [CR] == Broken(t + q) + (if |t + q| % LINE == 0 then [] else [CR])
  {
    BrokenAppend(t, q);
  }

  /** The loop over the full groups of three bytes. */
  method EncodeQuads(src: seq<Byte>, dest: array<Byte>) returns (dst: nat, crCount: nat)
    requires dest.Length == Size(|src|) + 1
    modifies dest
    ensures var whole := src[..3 * (|src| / 3)];
            && dst == |Broken(Text(whole))| <= dest.Length
            && dest[..dst] == Broken(Text(whole))
            && crCount == (|src| / 3) % 19
  {
    dst, crCount := 0, 0;
    assert src[..0] == [];
    hide Text, Broken;
    for i := 0 to |src| / 3
      invariant dst == Written(i) <= dest.Length
      invariant dest[..dst] == Broken(Text(src[..3 * i]))
      invariant crCount == i % 19
    {
      dst, crCount := EncodeQuad(src, dest, i, dst, crCount);
    }
  }

  /** One round of that loop. */
  method EncodeQuad(src: seq<Byte>, dest: array<Byte>, i: nat, at: nat, crCount: nat) returns (dst: nat, crCount': nat)
    requires dest.Length == Size(|src|) + 1 && i < |src| / 3
    requires at == Written(i) <= dest.Length && crCount == i % 19
    requires dest[..at] == Broken(Text(src[..3 * i]))
    modifies dest
    ensures dst == Written(i + 1) <= dest.Length && crCount' == (i + 1) % 19
    ensures dest[..dst] == Broken(Text(src[..3 * (i + 1)]))
  {
    var q := TableQuad(src[3 * i], src[3 * i + 1], src[3 * i + 2]);
    QuadStep(src, i);
    hide *;
    PutQuad(dest, at, q);
    dst, crCount' := at + 4, crCount + 1;
    if crCount' == 19 {
      dest[dst] := CR;
      dst := dst + 1;
      crCount' := 0;
    }
  }

  /** c1 to c4 of a full group, looked up in the table. */
  function TableQuad(a: Byte, b: Byte, c: Byte): (q: seq<Byte>)
    ensures q == Quad(a, b, c)
  {
    [FromTable(a / 4), FromTable(a % 4 * 16 + b / 16), FromTable(b % 16 * 4 + c / 64), FromTable(c % 64)]
  }

  function TableQuad2(a: Byte, b: Byte): (q: seq<Byte>)
    ensures q == Quad2(a, b)
  {
    [FromTable(a / 4), FromTable(a % 4 * 16 + b / 16), FromTable(b % 16 * 4), PAD]
  }

  function TableQuad1(a: Byte): (q: seq<Byte>)
    ensures q == Quad1(a)
  {
    [FromTable(a / 4), FromTable(a % 4 * 16), PAD, PAD]
  }

  /** Counting groups by line, by character and by output position. */
  lemma LineArithmetic(i: nat)
    ensures (4 * i) % LINE == 0 <==> i % 19 == 0
    ensures Written(i + 1) == Written(i) + 4 + (if (i + 1) % 19 == 0 then 1 else 0)
    ensures (i + 1) % 19 == if i % 19 == 18 then 0 else i % 19 + 1
  {
    var q, r := i / 19, i % 19;
    assert 4 * i == LINE * q + 4 * r && 4 * r < LINE;
    AddMultiple(4 * r, q, LINE);
    if r == 18 {
      assert (i + 1) / 19 == q + 1;
    } else {
      assert (i + 1) / 19 == q;
    }
  }

  /** What one more full group adds to the output, and that there is room. */
  lemma QuadStep(src: seq<Byte>, i: nat)
    requires i < |src| / 3
    ensures Written(i) + 5 <= Size(|src|) + 1
    ensures Written(i + 1) == Written(i) + 4 + (if (i + 1) % 19 == 0 then 1 else 0)
    ensures (i + 1) % 19 == if i % 19 == 18 then 0 else i % 19 + 1
    ensures Broken(Text(src[..3 * (i + 1)])) ==
              Broken(Text(src[..3 * i])) + Quad(src[3 * i], src[3 * i + 1], src[3 * i + 2])
                                                + (if (i + 1) % 19 == 0 then [CR] else [])
  {
    RoomForQuad(|src|, i);
    LineArithmetic(i);
    LineArithmetic(i + 1);
    QuadAppends(src, i);
    hide *;
  }

  lemma QuadAppends(src: seq<Byte>, i: nat)
    requires i < |src| / 3
    ensures Broken(Text(src[..3 * (i + 1)])) ==
              Broken(Text(src[..3 * i])) + Quad(src[3 * i], src[3 * i + 1], src[3 * i + 2])
                                                + (if (4 * (i + 1)) % LINE == 0 then [CR] else [])
  {
    hide Broken, Text, Quad;
    var at := 3 * i;
    assert 3 * (i + 1) == at + 3;
    NextQuad(src, at);
    var t := Text(src[..at]);
    TextLength(src[..at]);
    assert |t| == 4 * i;
    BrokenAppend(t, Quad(src[at], src[at + 1], src[at + 2]));
  }

  lemma NextQuad(src: seq<Byte>, at: nat)
    requires at % 3 == 0 && at + 3 <= |src|
    ensures Text(src[..at + 3]) == Text(src[..at]) + Quad(src[at], src[at + 1], src[at + 2])
  {
    var three := src[at..at + 3];
    assert src[..at + 3] == src[..at] + three;
    assert three[3..] == [];
    TextSnoc(src[..at], three);
  }
}
