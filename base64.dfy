/** The standard Base64 encoding of section 4 of RFC 4648 (alphabet `A-Z`,
    `a-z`, `0-9`, `+`, `/`, padding `=`), as `base64.b64encode` produces it, and
    a strict decoder that accepts exactly the encoder's outputs. */
module Base64 {
  import opened Outcomes

  newtype byte = x: int | 0 <= x < 256

  /** A 6-bit value: one character of the encoding. */
  type sextet = x: nat | x < 64

  const Pad: char := '='

  /** The character for value `i` in the encoding table of the standard. */
  function CharOf(i: sextet): (c: char)
  {
    if i < 26 then ('A' as int + i) as char
    else if i < 52 then ('a' as int + (i - 26)) as char
    else if i < 62 then ('0' as int + (i - 52)) as char
    else if i == 62 then '+'
    else '/'
  }

  predicate IsAlphabetChar(c: char)
  {
    ('A' <= c <= 'Z') || ('a' <= c <= 'z') || ('0' <= c <= '9') || c == '+' || c == '/'
  }

  /** Text made of alphabet characters and `=` only. */
  predicate EncodingText(s: string)
  {
    forall i :: 0 <= i < |s| ==> IsAlphabetChar(s[i]) || s[i] == Pad
  }

  /** The value of an alphabet character: the inverse of `CharOf`. */
  function ValueOf(c: char): (i: sextet)
    requires IsAlphabetChar(c)
    ensures CharOf(i) == c
  {
    if 'A' <= c <= 'Z' then c as int - 'A' as int
    else if 'a' <= c <= 'z' then c as int - 'a' as int + 26
    else if '0' <= c <= '9' then c as int - '0' as int + 52
    else if c == '+' then 62
    else 63
  }

  lemma ValueOfCharOf(i: sextet)
    ensures IsAlphabetChar(CharOf(i)) && ValueOf(CharOf(i)) == i
  {
  }

  /** A 24-bit group in big-endian order, from three bytes. */
  function Group(b0: byte, b1: byte, b2: byte): (n: nat)
    ensures n < 0x100_0000
  {
    b0 as nat * 0x1_0000 + b1 as nat * 0x100 + b2 as nat
  }

  /** The `k` leading 6-bit groups of a 24-bit group, as characters. */
  function Sextets(n: nat, k: nat): (s: string)
    requires n < 0x100_0000 && k <= 4
    ensures |s| == k
  {
    [CharOf(n / 0x4_0000), CharOf(n / 0x1000 % 64), CharOf(n / 64 % 64), CharOf(n % 64)][..k]
  }

  /** The Base64 text of `b`: full 3-byte groups, then a 1- or 2-byte tail
      padded with zero bits and `=` characters. */
  function Encode(b: seq<byte>): (s: string)
    ensures EncodingText(s)
    ensures |b| > 0 ==> |s| >= 4
    decreases |b|
  {
    if |b| == 0 then ""
    else if |b| == 1 then
      SextetsAlphabet(Group(b[0], 0, 0), 2);
      Sextets(Group(b[0], 0, 0), 2) + [Pad, Pad]
    else if |b| == 2 then
      SextetsAlphabet(Group(b[0], b[1], 0), 3);
      Sextets(Group(b[0], b[1], 0), 3) + [Pad]
    else
      SextetsAlphabet(Group(b[0], b[1], b[2]), 4);
      Sextets(Group(b[0], b[1], b[2]), 4) + Encode(b[3..])
  }

  lemma SextetsAlphabet(n: nat, k: nat)
    requires n < 0x100_0000 && k <= 4
    ensures forall i :: 0 <= i < k ==> IsAlphabetChar(Sextets(n, k)[i])
  {
    ValueOfCharOf(n / 0x4_0000);
    ValueOfCharOf(n / 0x1000 % 64);
    ValueOfCharOf(n / 64 % 64);
    ValueOfCharOf(n % 64);
  }

  /** Every 3 bytes, and a last group of 1 or 2, take 4 characters. */
  lemma {:induction false} EncodedLength(b: seq<byte>)
    ensures |Encode(b)| == 4 * ((|b| + 2) / 3)
    decreases |b|
  {
    if |b| <= 2 {
      EncodedLengthShort(b);
    } else {
      var rest := b[3..];
      EncodedLength(rest);
      EncodedLengthStep(b, |Encode(rest)|);
    }
  }

  lemma EncodedLengthShort(b: seq<byte>)
    requires |b| <= 2
    ensures |Encode(b)| == 4 * ((|b| + 2) / 3)
  {
    if |b| == 1 {
      assert |Sextets(Group(b[0], 0, 0), 2)| == 2;
    } else if |b| == 2 {
      assert |Sextets(Group(b[0], b[1], 0), 3)| == 3;
    }
  }

  lemma EncodedLengthStep(b: seq<byte>, restLength: nat)
    requires |b| > 2 && restLength == |Encode(b[3..])| == 4 * ((|b| - 1) / 3)
    ensures |Encode(b)| == 4 * ((|b| + 2) / 3)
  {
    assert |Encode(b)| == 4 + restLength;
    assert (|b| + 2) / 3 == (|b| - 1) / 3 + 1;
  }

  /** The 24-bit group spelled by four alphabet characters. */
  function Ungroup(c0: char, c1: char, c2: char, c3: char): (n: nat)
    requires IsAlphabetChar(c0) && IsAlphabetChar(c1) && IsAlphabetChar(c2) && IsAlphabetChar(c3)
    ensures n < 0x100_0000
  {
    ValueOf(c0) * 0x4_0000 + ValueOf(c1) * 0x1000 + ValueOf(c2) * 64 + ValueOf(c3)
  }

  /** The bytes of the quantum `c0 c1 c2 c3`, or `None` when it is not one the
      encoder can produce (a stray character, padding that is misplaced or not
      last, or padded bits that are not zero). */
  function DecodeQuantum(c0: char, c1: char, c2: char, c3: char, last: bool): (r: Option<seq<byte>>)
  {
    if !IsAlphabetChar(c0) || !IsAlphabetChar(c1) then None
    else if IsAlphabetChar(c2) && IsAlphabetChar(c3) then
      var n := Ungroup(c0, c1, c2, c3);
      Some([(n / 0x1_0000) as byte, (n / 0x100 % 0x100) as byte, (n % 0x100) as byte])
    else if !last then None
    else if IsAlphabetChar(c2) && c3 == Pad then
      var n := Ungroup(c0, c1, c2, 'A');
      if n % 0x100 != 0 then None
      else Some([(n / 0x1_0000) as byte, (n / 0x100 % 0x100) as byte])
    else if c2 == Pad && c3 == Pad then
      var n := Ungroup(c0, c1, 'A', 'A');
      if n % 0x1_0000 != 0 then None
      else Some([(n / 0x1_0000) as byte])
    else None
  }

  /** The bytes a Base64 text stands for, or `None` when it is not the encoding
      of any byte sequence. */
  function Decode(s: string): (r: Option<seq<byte>>)
    decreases |s|
  {
    if |s| == 0 then Some([])
    else if |s| < 4 then None
    else
      match DecodeQuantum(s[0], s[1], s[2], s[3], |s| == 4)
      case None => None
      case Some(head) =>
        if |head| < 3 then Some(head)
        else
          match Decode(s[4..])
          case None => None
          case Some(tail) => Some(head + tail)
  }

  // ---------------------------------------------------------------------------
  // Round trips

  /** The digits of a sum of 6-bit digits are the summands. */
  lemma SextetDigits(n: nat, a: sextet, b: sextet, c: sextet, d: sextet)
    requires n == a * 0x4_0000 + b * 0x1000 + c * 64 + d
    ensures n / 0x4_0000 == a && n / 0x1000 % 64 == b && n / 64 % 64 == c && n % 64 == d
  {
    assert n / 0x1000 == a * 64 + b;
    assert n / 64 == a * 0x1000 + b * 64 + c;
  }

  /** The same for the three 8-bit digits of a 24-bit group. */
  lemma ByteDigits(n: nat, a: byte, b: byte, c: byte)
    requires n == a as nat * 0x1_0000 + b as nat * 0x100 + c as nat
    ensures n / 0x1_0000 == a as nat && n / 0x100 % 0x100 == b as nat && n % 0x100 == c as nat
  {
    assert n / 0x100 == a as nat * 0x100 + b as nat;
  }

  /** Every 24-bit group is the sum of its four 6-bit digits. */
  lemma SplitSextets(n: nat)
    requires n < 0x100_0000
    ensures n == (n / 0x4_0000) * 0x4_0000 + (n / 0x1000 % 64) * 0x1000 + (n / 64 % 64) * 64 + n % 64
    ensures n % 0x1000 == (n / 64 % 64) * 64 + n % 64
  {
    var a, r1 := n / 0x4_0000, n % 0x4_0000;
    var b, r2 := r1 / 0x1000, r1 % 0x1000;
    var c, d := r2 / 64, r2 % 64;
    assert n == a * 0x4_0000 + b * 0x1000 + c * 64 + d;
    SextetDigits(n, a, b, c, d);
  }

  /** Reading back the characters of a group gives the group, with the unwritten
      trailing digits as zero. */
  lemma UngroupSextets(n: nat)
    requires n < 0x100_0000
    ensures var s := Sextets(n, 4);
      && IsAlphabetChar(s[0]) && IsAlphabetChar(s[1]) && IsAlphabetChar(s[2]) && IsAlphabetChar(s[3])
      && Ungroup(s[0], s[1], s[2], s[3]) == n
      && Ungroup(s[0], s[1], s[2], 'A') == n - n % 64
      && Ungroup(s[0], s[1], 'A', 'A') == n - n % 0x1000
  {
    ValueOfCharOf(n / 0x4_0000);
    ValueOfCharOf(n / 0x1000 % 64);
    ValueOfCharOf(n / 64 % 64);
    ValueOfCharOf(n % 64);
    assert ValueOf('A') == 0;
    SplitSextets(n);
  }

  /** A full quantum decodes to the three bytes it encodes. */
  lemma FullQuantumRoundTrip(b0: byte, b1: byte, b2: byte, last: bool)
    ensures var q := Sextets(Group(b0, b1, b2), 4);
      DecodeQuantum(q[0], q[1], q[2], q[3], last) == Some([b0, b1, b2])
  {
    var n := Group(b0, b1, b2);
    UngroupSextets(n);
    ByteDigits(n, b0, b1, b2);
  }

  /** A quantum with one `=` decodes to the two bytes it encodes. */
  lemma TwoByteRoundTrip(b0: byte, b1: byte)
    ensures var q := Sextets(Group(b0, b1, 0), 3);
      DecodeQuantum(q[0], q[1], q[2], Pad, true) == Some([b0, b1])
  {
    var n := Group(b0, b1, 0);
    var k := b0 as nat * 0x400 + b1 as nat * 4;
    assert n == k * 64;
    assert n % 64 == 0;
    UngroupSextets(n);
    assert Sextets(n, 3) == Sextets(n, 4)[..3];
    ByteDigits(n, b0, b1, 0);
  }

  /** A quantum with two `=` decodes to the byte it encodes. */
  lemma OneByteRoundTrip(b0: byte)
    ensures var q := Sextets(Group(b0, 0, 0), 2);
      DecodeQuantum(q[0], q[1], Pad, Pad, true) == Some([b0])
  {
    var n := Group(b0, 0, 0);
    OneByteGroup(b0);
    UngroupSextets(n);
    var q, full := Sextets(n, 2), Sextets(n, 4);
    assert q[0] == full[0] && q[1] == full[1];
    DoublePadQuantum(q[0], q[1], n);
  }

  /** The group of one byte has zero low 16 bits, and its high byte is that byte. */
  lemma OneByteGroup(b0: byte)
    ensures var n := Group(b0, 0, 0);
      n % 0x1000 == 0 && n % 0x1_0000 == 0 && n / 0x1_0000 == b0 as nat
  {
    var n := Group(b0, 0, 0);
    assert n == (b0 as nat * 16) * 0x1000;
    ByteDigits(n, b0, 0, 0);
  }

  /** A quantum ending in `==` decodes to the high byte of its group when the
      other two bytes are zero. */
  lemma DoublePadQuantum(c0: char, c1: char, n: nat)
    requires IsAlphabetChar(c0) && IsAlphabetChar(c1)
    requires Ungroup(c0, c1, 'A', 'A') == n && n % 0x1_0000 == 0
    ensures DecodeQuantum(c0, c1, Pad, Pad, true) == Some([(n / 0x1_0000) as byte])
  {
    assert !IsAlphabetChar(Pad);
  }

  /** A one-byte sequence is one quantum with two `=`. */
  lemma DecodeEncodeOne(b: seq<byte>)
    requires |b| == 1
    ensures Decode(Encode(b)) == Some(b)
  {
    OneByteRoundTrip(b[0]);
    assert [b[0]] == b;
  }

  /** A two-byte sequence is one quantum with one `=`. */
  lemma DecodeEncodeTwo(b: seq<byte>)
    requires |b| == 2
    ensures Decode(Encode(b)) == Some(b)
  {
    TwoByteRoundTrip(b[0], b[1]);
    assert [b[0], b[1]] == b;
  }

  /** A full quantum in front of a decodable text contributes its three bytes. */
  lemma DecodeFullQuantumFirst(b0: byte, b1: byte, b2: byte, rest: string, tail: seq<byte>)
    requires Decode(rest) == Some(tail)
    ensures Decode(Sextets(Group(b0, b1, b2), 4) + rest) == Some([b0, b1, b2] + tail)
  {
    var q := Sextets(Group(b0, b1, b2), 4);
    var s := q + rest;
    FullQuantumRoundTrip(b0, b1, b2, |s| == 4);
    assert s[4..] == rest;
  }

  lemma SplitFirstThree(b: seq<byte>)
    requires |b| >= 3
    ensures [b[0], b[1], b[2]] + b[3..] == b
  {
  }

  /** Decoding the encoding of any byte sequence gives that sequence back. */
  lemma {:induction false} DecodeEncode(b: seq<byte>)
    ensures Decode(Encode(b)) == Some(b)
    decreases |b|
  {
    if |b| == 1 {
      DecodeEncodeOne(b);
    } else if |b| == 2 {
      DecodeEncodeTwo(b);
    } else if |b| > 2 {
      var rest := b[3..];
      DecodeEncode(rest);
      DecodeFullQuantumFirst(b[0], b[1], b[2], Encode(rest), rest);
      SplitFirstThree(b);
    }
  }

  /** Four alphabet characters are the characters of the group they spell. */
  lemma SextetsOfUngroup(c0: char, c1: char, c2: char, c3: char)
    requires IsAlphabetChar(c0) && IsAlphabetChar(c1) && IsAlphabetChar(c2) && IsAlphabetChar(c3)
    ensures Sextets(Ungroup(c0, c1, c2, c3), 4) == [c0, c1, c2, c3]
  {
    SextetDigits(Ungroup(c0, c1, c2, c3), ValueOf(c0), ValueOf(c1), ValueOf(c2), ValueOf(c3));
  }

  /** A 24-bit group is the group of its three bytes. */
  lemma GroupOfBytes(n: nat)
    requires n < 0x100_0000
    ensures Group((n / 0x1_0000) as byte, (n / 0x100 % 0x100) as byte, (n % 0x100) as byte) == n
  {
    var a, r := n / 0x1_0000, n % 0x1_0000;
    assert n == a * 0x1_0000 + (r / 0x100) * 0x100 + r % 0x100;
    ByteDigits(n, a as byte, (r / 0x100) as byte, (r % 0x100) as byte);
  }

  /** Two bytes whose group has no bits below them are that group. */
  lemma TwoBytesRegroup(n: nat)
    requires n < 0x100_0000 && n % 0x100 == 0
    ensures Group((n / 0x1_0000) as byte, (n / 0x100 % 0x100) as byte, 0) == n
  {
    GroupOfBytes(n);
  }

  /** One byte whose group has no bits below it is that group. */
  lemma OneByteRegroup(n: nat)
    requires n < 0x100_0000 && n % 0x1_0000 == 0
    ensures Group((n / 0x1_0000) as byte, 0, 0) == n
  {
    assert n / 0x100 % 0x100 == 0 && n % 0x100 == 0;
    GroupOfBytes(n);
  }

  /** Fewer characters of a group are a prefix of all four. */
  lemma SextetsPrefix(n: nat, k: nat)
    requires n < 0x100_0000 && k <= 4
    ensures Sextets(n, k) == Sextets(n, 4)[..k]
  {
  }

  /** A decodable quantum with one `=` is the encoding of its two bytes. */
  lemma EncodeDecodeTwo(c0: char, c1: char, c2: char)
    requires DecodeQuantum(c0, c1, c2, Pad, true).Some? && IsAlphabetChar(c2)
    ensures Encode(DecodeQuantum(c0, c1, c2, Pad, true).value) == [c0, c1, c2, Pad]
  {
    var n := Ungroup(c0, c1, c2, 'A');
    var b := [(n / 0x1_0000) as byte, (n / 0x100 % 0x100) as byte];
    assert DecodeQuantum(c0, c1, c2, Pad, true) == Some(b) && n % 0x100 == 0;
    TwoBytesRegroup(n);
    SextetsOfUngroup(c0, c1, c2, 'A');
    SextetsPrefix(n, 3);
    assert Sextets(n, 3) == [c0, c1, c2];
    assert Encode(b) == Sextets(n, 3) + [Pad];
  }

  /** A decodable quantum with two `=` is the encoding of its byte. */
  lemma EncodeDecodeOne(c0: char, c1: char)
    requires DecodeQuantum(c0, c1, Pad, Pad, true).Some?
    ensures Encode(DecodeQuantum(c0, c1, Pad, Pad, true).value) == [c0, c1, Pad, Pad]
  {
    var n := Ungroup(c0, c1, 'A', 'A');
    var b := [(n / 0x1_0000) as byte];
    assert DecodeQuantum(c0, c1, Pad, Pad, true) == Some(b) && n % 0x1_0000 == 0;
    OneByteRegroup(n);
    SextetsOfUngroup(c0, c1, 'A', 'A');
    SextetsPrefix(n, 2);
    assert Sextets(n, 2) == [c0, c1];
    assert Encode(b) == Sextets(n, 2) + [Pad, Pad];
  }

  /** A full quantum in front of a text that is an encoding. */
  lemma EncodeDecodeFull(c0: char, c1: char, c2: char, c3: char, last: bool, rest: string, tail: seq<byte>)
    requires IsAlphabetChar(c0) && IsAlphabetChar(c1) && IsAlphabetChar(c2) && IsAlphabetChar(c3)
    requires Encode(tail) == rest
    ensures Encode(DecodeQuantum(c0, c1, c2, c3, last).value + tail) == [c0, c1, c2, c3] + rest
  {
    var n := Ungroup(c0, c1, c2, c3);
    var head := [(n / 0x1_0000) as byte, (n / 0x100 % 0x100) as byte, (n % 0x100) as byte];
    assert DecodeQuantum(c0, c1, c2, c3, last) == Some(head);
    SextetsOfUngroup(c0, c1, c2, c3);
    GroupOfBytes(n);
    var b := head + tail;
    assert b[3..] == tail;
    assert Encode(b) == Sextets(n, 4) + rest;
  }

  /** Every text the decoder accepts is the encoding of what it decodes to, so
      the decoder accepts exactly the encoder's outputs. */
  lemma {:induction false} EncodeDecode(s: string)
    requires Decode(s).Some?
    ensures Encode(Decode(s).value) == s
    decreases |s|
  {
    if |s| > 0 {
      SplitFirstFour(s);
      if IsAlphabetChar(s[2]) && IsAlphabetChar(s[3]) {
        var tail := Decode(s[4..]).value;
        EncodeDecode(s[4..]);
        EncodeDecodeFull(s[0], s[1], s[2], s[3], |s| == 4, s[4..], tail);
      } else if s[3] == Pad && IsAlphabetChar(s[2]) {
        EncodeDecodeTwo(s[0], s[1], s[2]);
      } else {
        EncodeDecodeOne(s[0], s[1]);
      }
    }
  }

  lemma SplitFirstFour(s: string)
    requires |s| >= 4
    ensures s == [s[0], s[1], s[2], s[3]] + s[4..]
    ensures |s| == 4 ==> s == [s[0], s[1], s[2], s[3]]
  {
  }
}
