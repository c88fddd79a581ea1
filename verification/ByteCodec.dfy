/** to_byte_array of attributes.py, in both directions. */
module ByteCodec {
  import opened Wrappers
  import opened Bytes
  import opened Chunks

  // ----- Integers, by way of a string of binary digits -----

  function BitLength(n: nat): nat
  {
    if n == 0 then 0 else 1 + BitLength(n / 2)
  }

  function BinaryDigit(d: nat): char
  {
    if d == 0 then '0' else '1'
  }

  function Binary(n: nat): string
  {
    if n < 2 then [BinaryDigit(n)] else Binary(n / 2) + [BinaryDigit(n % 2)]
  }

  /** Zero padding to a width, which goes between a minus sign and the digits. */
  function Format(n: int, width: nat): string
  {
    if n < 0 then "-" + ZeroFill(Binary(-n), if width == 0 then 0 else width - 1) else ZeroFill(Binary(n), width)
  }

  function ZeroFill(digits: string, width: nat): string
  {
    if |digits| >= width then digits else seq(width - |digits|, _ => '0') + digits
  }

  function ParseBinary(s: string): nat
  {
    if s == "" then 0 else ParseBinary(s[..|s| - 1]) * 2 + if s[|s| - 1] == '1' then 1 else 0
  }

  function ParseSigned(s: string): int
  {
    if s != "" && s[0] == '-' then
      var magnitude: int := ParseBinary(s[1..]);
      -magnitude
    else ParseBinary(s)
  }

  /** Each piece as a byte, wrapped as CK_BYTE wraps. */
  function PieceBytes(pieces: seq<string>): seq<Byte>
  {
    if pieces == [] then [] else [ParseSigned(pieces[0]) % 256] + PieceBytes(pieces[1..])
  }

  function RoundUp(bits: nat): nat
  {
    bits + 8 - if bits % 8 == 0 then 8 else bits % 8
  }

  function Width(n: int): nat
  {
    RoundUp(BitLength(if n < 0 then -n else n))
  }

  function IntBytes(n: int): seq<Byte>
  {
    PieceBytes(Split(Format(n, Width(n)), 8))
  }

  // ----- Proof that this is the shortest big-endian spelling -----

  predicate IsBinary(s: string)
  {
    forall i :: 0 <= i < |s| ==> s[i] == '0' || s[i] == '1'
  }

  function Power2(k: nat): nat
  {
    if k == 0 then 1 else 2 * Power2(k - 1)
  }

  lemma {:induction false} BinarySpells(n: nat)
    ensures IsBinary(Binary(n)) && ParseBinary(Binary(n)) == n && |Binary(n)| == if n == 0 then 1 else BitLength(n)
  {
    if n >= 2 {
      BinarySpells(n / 2);
      assert Binary(n)[..|Binary(n)| - 1] == Binary(n / 2);
    } else {
      assert Binary(n)[..0] == "";
    }
  }

  lemma {:induction false} LeadingZeros(k: nat, s: string)
    ensures ParseBinary(seq(k, _ => '0') + s) == ParseBinary(s)
  {
    var t := seq(k, _ => '0') + s;
    if s != "" {
      LeadingZeros(k, s[..|s| - 1]);
      assert t[..|t| - 1] == seq(k, _ => '0') + s[..|s| - 1];
    } else if k > 0 {
      LeadingZeros(k - 1, s);
      assert t[..|t| - 1] == seq(k - 1, _ => '0') + s;
    }
  }

  lemma {:induction false} ParseConcat(a: string, b: string)
    ensures ParseBinary(a + b) == ParseBinary(a) * Power2(|b|) + ParseBinary(b)
  {
    if b == "" {
      assert a + b == a;
    } else {
      var c := b[..|b| - 1];
      ParseConcat(a, c);
      assert (a + b)[..|a + b| - 1] == a + c;
      assert ParseBinary(a) * Power2(|b|) == 2 * (ParseBinary(a) * Power2(|c|));
    }
  }

  lemma {:induction false} ParseBound(s: string)
    ensures ParseBinary(s) < Power2(|s|)
  {
    if s != "" {
      ParseBound(s[..|s| - 1]);
    }
  }

  /** Whole blocks can be split off the end as well as off the front. */
  lemma {:induction false} SplitLast(s: string, k: nat)
    requires |s| == 8 * (k + 1)
    ensures Split(s, 8) == Split(s[..8 * k], 8) + [s[8 * k..]]
  {
    if k > 0 {
      SplitLast(s[8..], k - 1);
      assert s[8..][..8 * (k - 1)] == s[..8 * k][8..];
      assert s[8..][8 * (k - 1)..] == s[8 * k..];
      assert s[..8 * k][..8] == s[..8];
      if k == 1 {
        assert s[..8 * k][8..] == "";
        assert Split(s[..8 * k], 8) == [s[..8]];
      }
    }
  }

  lemma {:induction false} PieceBytesAppend(a: seq<string>, last: string)
    ensures PieceBytes(a + [last]) == PieceBytes(a) + [ParseSigned(last) % 256]
  {
    if a != [] {
      PieceBytesAppend(a[1..], last);
      assert (a + [last])[1..] == a[1..] + [last];
    }
  }

  lemma {:induction false} BlocksSpell(s: string, k: nat)
    requires |s| == 8 * k && IsBinary(s)
    ensures |PieceBytes(Split(s, 8))| == k && BigEndian(PieceBytes(Split(s, 8))) == ParseBinary(s)
  {
    if k > 0 {
      var front, last := s[..8 * (k - 1)], s[8 * (k - 1)..];
      assert s == front + last;
      SplitLast(s, k - 1);
      PieceBytesAppend(Split(front, 8), last);
      BlocksSpell(front, k - 1);
      ParseConcat(front, last);
      ParseBound(last);
      assert Power2(8) == 256;
      assert last[0] == s[8 * (k - 1)];
      var bytes := PieceBytes(Split(s, 8));
      assert bytes[..|bytes| - 1] == PieceBytes(Split(front, 8));
    }
  }

  lemma {:induction false} BitLengthBound(n: nat)
    ensures n < Power2(BitLength(n)) && (n > 0 ==> Power2(BitLength(n) - 1) <= n)
  {
    if n > 0 {
      BitLengthBound(n / 2);
    }
  }

  lemma {:induction false} SpellingBound(bytes: seq<Byte>)
    ensures BigEndian(bytes) < Power2(8 * |bytes|)
  {
    if bytes != [] {
      SpellingBound(bytes[..|bytes| - 1]);
      var p := Power2(8 * (|bytes| - 1));
      assert Power2(8 * |bytes|) == 256 * p by {
        var k := 8 * |bytes|;
        assert Power2(k) == 2 * Power2(k - 1) == 4 * Power2(k - 2) == 8 * Power2(k - 3) == 16 * Power2(k - 4);
        assert Power2(k - 4) == 2 * Power2(k - 5) == 4 * Power2(k - 6) == 8 * Power2(k - 7) == 16 * Power2(k - 8);
      }
    }
  }

  lemma {:induction false} LeadingZeroByte(bytes: seq<Byte>)
    requires bytes != [] && bytes[0] == 0
    ensures BigEndian(bytes) == BigEndian(bytes[1..])
  {
    if |bytes| > 1 {
      LeadingZeroByte(bytes[..|bytes| - 1]);
      assert bytes[..|bytes| - 1][1..] == bytes[1..][..|bytes| - 2];
    }
  }

  lemma {:induction false} Power2Grows(a: nat, b: nat)
    requires a <= b
    ensures Power2(a) <= Power2(b)
  {
    if a < b {
      Power2Grows(a, b - 1);
    }
  }

  /** The digit string is a whole number of eights, and still spells n. */
  lemma PaddedDigits(n: nat)
    requires n > 0
    ensures var k, digits := (BitLength(n) + 7) / 8, Format(n, Width(n));
            |digits| == 8 * k && IsBinary(digits) && ParseBinary(digits) == n
  {
    BinarySpells(n);
    RoundUpToEights(BitLength(n));
    PaddedSpells(Binary(n), Width(n));
  }

  lemma RoundUpToEights(bits: nat)
    ensures RoundUp(bits) == 8 * ((bits + 7) / 8) >= bits
  {
  }

  lemma PaddedSpells(digits: string, width: nat)
    requires IsBinary(digits) && |digits| <= width
    ensures var s := ZeroFill(digits, width); |s| == width && IsBinary(s) && ParseBinary(s) == ParseBinary(digits)
  {
    LeadingZeros(width - |digits|, digits);
  }

  lemma TooFewBytes(n: nat, bytes: seq<Byte>)
    requires n > 0 && bytes != [] && bytes[0] == 0 && |bytes| == (BitLength(n) + 7) / 8
    ensures BigEndian(bytes) < n
  {
    var k := |bytes|;
    LeadingZeroByte(bytes);
    SpellingBound(bytes[1..]);
    BitLengthBound(n);
    Power2Grows(8 * (k - 1), BitLength(n) - 1);
  }

  lemma ZeroByte()
    ensures IntBytes(0) == [0] && BigEndian([0]) == 0
  {
    assert Split("0", 8) == ["0"] && ParseBinary("0") == 0;
    assert PieceBytes(["0"]) == [0];
    assert [0][..0] == [];
  }

  /** The bytes of a digit string of whole eights. */
  lemma BytesSpell(n: nat) returns (bytes: seq<Byte>, k: nat)
    requires n > 0
    ensures k == (BitLength(n) + 7) / 8 && bytes == IntBytes(n)
    ensures BigEndian(bytes) == n && |bytes| == k
  {
    var digits;
    digits, k := DigitsInEights(n);
    bytes := PieceBytes(Split(digits, 8));
    BlocksSpell(digits, k);
  }

  lemma DigitsInEights(n: nat) returns (digits: string, k: nat)
    requires n > 0
    ensures IntBytes(n) == PieceBytes(Split(digits, 8)) && k == (BitLength(n) + 7) / 8
    ensures |digits| == 8 * k && IsBinary(digits) && ParseBinary(digits) == n
  {
    PaddedDigits(n);
    digits, k := Format(n, Width(n)), (BitLength(n) + 7) / 8;
  }

  /** So many bytes cannot spell it with a zero in front. */
  lemma NoByteIsSpare(n: nat, bytes: seq<Byte>)
    requires n > 0 && BigEndian(bytes) == n && |bytes| == (BitLength(n) + 7) / 8
    ensures NoLeadingZero(bytes) && Shortest(n) == bytes
  {
    if bytes[0] == 0 {
      TooFewBytes(n, bytes);
    }
    ShortestIsUnique(bytes);
  }

  /** For every n >= 0 the width arithmetic and the slicing give the unique shortest big-endian
      spelling of n, in max(1, ceil(bit length / 8)) bytes. */
  lemma IntBytesAreShortest(n: nat)
    ensures IntBytes(n) == Shortest(n) && BigEndian(IntBytes(n)) == n && NoLeadingZero(IntBytes(n))
    ensures |IntBytes(n)| == if n == 0 then 1 else (BitLength(n) + 7) / 8
  {
    if n == 0 {
      ZeroByte();
    } else {
      var bytes, _ := BytesSpell(n);
      NoByteIsSpare(n, bytes);
    }
  }

  // ----- Negative numbers -----

  /** One digit more than whole eights makes a block of its own. */
  lemma {:induction false} SplitOneMore(s: string, k: nat)
    requires |s| == 8 * k + 1
    ensures Split(s, 8) == Split(s[..8 * k], 8) + [s[8 * k..]]
  {
    if k > 0 {
      SplitOneMore(s[8..], k - 1);
      assert s[8..][..8 * (k - 1)] == s[..8 * k][8..];
      assert s[8..][8 * (k - 1)..] == s[8 * k..];
      assert s[..8 * k][..8] == s[..8];
      if k == 1 {
        assert s[..8 * k][8..] == "";
        assert Split(s[..8 * k], 8) == [s[..8]];
      }
    }
  }

  lemma LeadingZeroDigit(digits: string)
    ensures ParseBinary("0" + digits) == ParseBinary(digits)
  {
    LeadingZeros(1, digits);
    assert seq(1, _ => '0') == "0";
  }

  lemma FirstPiece(first: string, rest: string)
    requires |first| == 8
    ensures var bytes := PieceBytes(Split(first + rest, 8));
            bytes != [] && bytes[0] == ParseSigned(first) % 256 && bytes[1..] == PieceBytes(Split(rest, 8))
  {
    assert (first + rest)[..8] == first && (first + rest)[8..] == rest;
    if rest == "" {
      assert first + rest == first;
      assert PieceBytes([first])[1..] == [];
    } else {
      assert Split(first + rest, 8) == [first] + Split(rest, 8);
      assert ([first] + Split(rest, 8))[1..] == Split(rest, 8);
    }
  }

  /** With the first byte negated. */
  function Negated(bytes: seq<Byte>): seq<Byte>
  {
    if bytes == [] then []
    else
      var first: int := bytes[0];
      [(256 - first) % 256] + bytes[1..]
  }

  lemma TopPiece(top: string)
    requires |top| == 7 && IsBinary(top)
    ensures ParseSigned("0" + top) == ParseBinary(top) < 128
    ensures ParseSigned("-" + top) == 0 - ParseBinary(top)
  {
    LeadingZeroDigit(top);
    ParseBound(top);
    assert Power2(7) == 128;
    assert ("-" + top)[1..] == top && ("-" + top)[0] == '-' && ("0" + top)[0] == '0';
  }

  lemma IsNegated(plain: seq<Byte>, signed: seq<Byte>, x: int)
    requires plain != [] && signed != [] && plain[1..] == signed[1..]
    requires 0 <= x < 128 && plain[0] == x % 256 && signed[0] == (0 - x) % 256
    ensures signed == Negated(plain)
  {
    assert signed == [signed[0]] + signed[1..];
  }

  lemma PiecesDiffer(plain: string, signed: string, rest: string, x: int)
    requires |plain| == |signed| == 8 && 0 <= x < 128 && ParseSigned(plain) == x && ParseSigned(signed) == 0 - x
    ensures PieceBytes(Split(signed + rest, 8)) == Negated(PieceBytes(Split(plain + rest, 8)))
  {
    FirstPiece(plain, rest);
    FirstPiece(signed, rest);
    IsNegated(PieceBytes(Split(plain + rest, 8)), PieceBytes(Split(signed + rest, 8)), x);
  }

  /** A minus sign in place of a leading zero negates the first byte. */
  lemma SignedPieces(digits: string, k: nat)
    requires k > 0 && |digits| == 8 * k - 1 && IsBinary(digits)
    ensures var plain, signed := PieceBytes(Split("0" + digits, 8)), PieceBytes(Split("-" + digits, 8));
            |plain| == k && BigEndian(plain) == ParseBinary(digits) && signed == Negated(plain)
  {
    var top, rest := digits[..7], digits[7..];
    assert "0" + digits == "0" + top + rest && "-" + digits == "-" + top + rest;
    TopPiece(top);
    PiecesDiffer("0" + top, "-" + top, rest, ParseBinary(top));
    LeadingZeroDigit(digits);
    BlocksSpell("0" + digits, k);
  }

  lemma NegatedDigits(n: nat, digits: string, k: nat)
    requires n > 0 && IsBinary(digits) && ParseBinary(digits) == n
    requires k == (BitLength(n) + 7) / 8 && |digits| == 8 * k - 1
    ensures PieceBytes(Split("-" + digits, 8)) == Negated(Shortest(n))
  {
    SignedPieces(digits, k);
    NoByteIsSpare(n, PieceBytes(Split("0" + digits, 8)));
  }

  lemma OneDigitPiece(last: string)
    requires |last| == 1 && IsBinary(last)
    ensures ParseSigned(last) == if last[0] == '1' then 1 else 0
  {
    assert last[..0] == "" && ParseBinary("") == 0;
    assert last[0] == '0' || last[0] == '1';
    assert ParseBinary(last) == ParseBinary(last[..0]) * 2 + if last[0] == '1' then 1 else 0;
  }

  /** The last of 8 * k digits, moved on by the sign, makes a byte of its own. */
  lemma LastDigitApart(digits: string, k: nat)
    requires k > 0 && |digits| == 8 * k && IsBinary(digits)
    ensures PieceBytes(Split("-" + digits, 8)) ==
            PieceBytes(Split("-" + digits[..8 * k - 1], 8)) + [if digits[8 * k - 1] == '1' then 1 else 0]
  {
    var front, last, s := digits[..8 * k - 1], digits[8 * k - 1..], "-" + digits;
    SplitOneMore(s, k);
    assert s[..8 * k] == "-" + front && s[8 * k..] == last;
    PieceBytesAppend(Split("-" + front, 8), last);
    OneDigitPiece(last);
  }

  lemma FullBytesNegated(n: nat, digits: string, k: nat)
    requires n > 0 && IsBinary(digits) && ParseBinary(digits) == n && |digits| == BitLength(n) == 8 * k
    ensures PieceBytes(Split("-" + digits, 8)) == Negated(Shortest(n / 2)) + [n % 2]
  {
    LastDigitApart(digits, k);
    HalfDigits(n, digits);
    NegatedDigits(n / 2, digits[..8 * k - 1], k);
  }

  lemma HalfDigits(n: nat, digits: string)
    requires n > 0 && IsBinary(digits) && ParseBinary(digits) == n && digits != ""
    ensures ParseBinary(digits[..|digits| - 1]) == n / 2 && n % 2 == (if digits[|digits| - 1] == '1' then 1 else 0)
    ensures BitLength(n / 2) == BitLength(n) - 1
  {
  }

  lemma RoomForSign(bits: nat)
    requires bits % 8 != 0
    ensures RoundUp(bits) == 8 * ((bits + 7) / 8) && RoundUp(bits) - 1 >= bits
  {
  }

  lemma BinaryOf(m: nat) returns (digits: string)
    requires m > 0
    ensures digits == Binary(m) && |digits| == BitLength(m) && IsBinary(digits) && ParseBinary(digits) == m
  {
    BinarySpells(m);
    digits := Binary(m);
  }

  /** The bytes of -m, by way of the digits of m. */
  function SignedBytes(m: nat): seq<Byte>
  {
    var width := RoundUp(BitLength(m));
    PieceBytes(Split("-" + ZeroFill(Binary(m), if width == 0 then 0 else width - 1), 8))
  }

  lemma FormatNegative(n: int)
    requires n < 0
    ensures IntBytes(n) == SignedBytes(-n)
  {
  }

  /** With a bit to spare, the digits leave room for the sign. */
  lemma SpareBitDigits(m: nat) returns (digits: string, k: nat)
    requires m > 0 && BitLength(m) % 8 != 0
    ensures k == (BitLength(m) + 7) / 8 && SignedBytes(m) == PieceBytes(Split("-" + digits, 8))
    ensures |digits| == 8 * k - 1 && IsBinary(digits) && ParseBinary(digits) == m
  {
    var short := BinaryOf(m);
    RoomForSign(BitLength(m));
    k := (BitLength(m) + 7) / 8;
    PaddedSpells(short, 8 * k - 1);
    digits := ZeroFill(short, 8 * k - 1);
  }

  lemma NoSpareBitDigits(m: nat) returns (digits: string, k: nat)
    requires m > 0 && BitLength(m) % 8 == 0
    ensures SignedBytes(m) == PieceBytes(Split("-" + digits, 8))
    ensures |digits| == BitLength(m) == 8 * k && IsBinary(digits) && ParseBinary(digits) == m
  {
    digits := BinaryOf(m);
    k := BitLength(m) / 8;
  }

  lemma SpareBitNegated(m: nat)
    requires m > 0 && BitLength(m) % 8 != 0
    ensures SignedBytes(m) == Negated(Shortest(m))
  {
    var digits, k := SpareBitDigits(m);
    NegatedDigits(m, digits, k);
  }

  lemma NoSpareBitNegated(m: nat)
    requires m > 0 && BitLength(m) % 8 == 0
    ensures SignedBytes(m) == Negated(Shortest(m / 2)) + [m % 2]
  {
    var digits, k := NoSpareBitDigits(m);
    FullBytesNegated(m, digits, k);
  }

  /** Below zero the minus sign takes the place of a digit. The bytes are those of the magnitude,
      the first one negated, unless the magnitude fills whole bytes: then all its bits move on
      by one place, and the last of them is a byte of its own. */
  lemma NegativeBytes(n: int)
    requires n < 0
    ensures var m := -n;
            IntBytes(n) == if BitLength(m) % 8 != 0 then Negated(Shortest(m)) else Negated(Shortest(m / 2)) + [m % 2]
  {
    var m := -n;
    FormatNegative(n);
    if BitLength(m) % 8 != 0 {
      SpareBitNegated(m);
    } else {
      NoSpareBitNegated(m);
    }
  }
}
