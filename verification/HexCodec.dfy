/** The other inputs of to_byte_array (bytestrings and iterables), and its output as hex text. */
module HexCodec {
  import opened Wrappers
  import opened Bytes
  import opened ByteCodec

  // ----- Hex digits, as ASCII codes -----

  predicate IsHexDigit(c: Byte)
  {
    48 <= c <= 57 || 65 <= c <= 70 || 97 <= c <= 102
  }

  predicate IsHexText(t: seq<Byte>)
  {
    t != [] && forall i :: 0 <= i < |t| ==> IsHexDigit(t[i])
  }

  /** The value of a hex digit; other characters never reach the conversion. */
  function DigitValue(c: Byte): (v: nat)
    ensures v < 16
  {
    if 48 <= c <= 57 then c - 48 else if 65 <= c <= 70 then c - 55 else if 97 <= c <= 102 then c - 87 else 0
  }

  function HexDigit(v: nat): (c: Byte)
    requires v < 16
    ensures IsHexDigit(c) && DigitValue(c) == v && !(65 <= c <= 70)
  {
    if v < 10 then 48 + v else 87 + v
  }

  /** int(t, 16) of hex text */
  function ParseHex(t: seq<Byte>): nat
  {
    if t == [] then 0 else ParseHex(t[..|t| - 1]) * 16 + DigitValue(t[|t| - 1])
  }

  /** binascii.hexlify */
  function Hexlify(bytes: seq<Byte>): (t: seq<Byte>)
    ensures |t| == 2 * |bytes|
  {
    if bytes == [] then []
    else
      var last := bytes[|bytes| - 1];
      Hexlify(bytes[..|bytes| - 1]) + [HexDigit(last / 16), HexDigit(last % 16)]
  }

  // ----- The conversions -----

  datatype Source = Number(n: int) | Literal(text: seq<Byte>) | Items(values: seq<int>)

  predicate HasPrefix(t: seq<Byte>)
  {
    |t| >= 2 && t[0] == 48 && t[1] == 120
  }

  function StripPrefix(t: seq<Byte>): seq<Byte>
  {
    if HasPrefix(t) then t[2..] else t
  }

  /** Whether repr() of the bytestring shows a "\x": some byte is neither printable nor tab,
      newline or return, or a backslash is followed by an x. */
  predicate HasEscape(t: seq<Byte>)
  {
    exists i :: 0 <= i < |t| && (!Printable(t[i]) || (t[i] == 92 && i + 1 < |t| && t[i + 1] == 120))
  }

  predicate Printable(c: Byte)
  {
    32 <= c <= 126 || c == 9 || c == 10 || c == 13
  }

  /** Forward; None stands for ValueError. */
  function ToByteArray(v: Source): Option<seq<Byte>>
  {
    match v
    case Number(n) => Some(IntBytes(n))
    case Literal(text) =>
      var t := StripPrefix(text);
      if HasEscape(t) then Some(t) else if IsHexText(t) then Some(IntBytes(ParseHex(t))) else None
    case Items(values) => AsBytes(values)
  }

  /** bytearray(values) */
  function AsBytes(values: seq<int>): (r: Option<seq<Byte>>)
    ensures r.Some? <==> forall i :: 0 <= i < |values| ==> 0 <= values[i] < 256
    ensures r.Some? ==> r.value == values
  {
    if values == [] then Some([])
    else
      match AsBytes(values[..|values| - 1])
      case None => None
      case Some(front) =>
        var last := values[|values| - 1];
        if 0 <= last < 256 then Some(front + [last]) else None
  }

  /** Back. */
  function FromByteArray(bytes: seq<Byte>, toHex: bool): seq<Byte>
  {
    if toHex then Hexlify(bytes) else bytes
  }

  // ----- Hex text and the numbers it spells -----

  function Unhex(t: seq<Byte>): (bytes: seq<Byte>)
    ensures |bytes| == |t| / 2
  {
    if |t| < 2 then []
    else Unhex(t[..|t| - 2]) + [16 * DigitValue(t[|t| - 2]) + DigitValue(t[|t| - 1])]
  }

  predicate LowerCase(t: seq<Byte>)
  {
    forall i :: 0 <= i < |t| ==> !(65 <= t[i] <= 70)
  }

  lemma DigitsOfByte(a: Byte, b: Byte)
    requires IsHexDigit(a) && IsHexDigit(b) && !(65 <= a <= 70) && !(65 <= b <= 70)
    ensures var v := 16 * DigitValue(a) + DigitValue(b); v < 256 && HexDigit(v / 16) == a && HexDigit(v % 16) == b
  {
  }

  lemma HexlifyLast(bytes: seq<Byte>, last: Byte)
    ensures Hexlify(bytes + [last]) == Hexlify(bytes) + [HexDigit(last / 16), HexDigit(last % 16)]
  {
    assert (bytes + [last])[..|bytes|] == bytes;
  }

  lemma UnhexLast(t: seq<Byte>, a: Byte, b: Byte)
    ensures Unhex(t + [a, b]) == Unhex(t) + [16 * DigitValue(a) + DigitValue(b)]
  {
    var u := t + [a, b];
    assert u[|u| - 2] == a && u[|u| - 1] == b;
    assert u[..|u| - 2] == t;
  }

  lemma ParseHexLast(t: seq<Byte>, a: Byte, b: Byte)
    ensures ParseHex(t + [a, b]) == ParseHex(t) * 256 + (16 * DigitValue(a) + DigitValue(b))
  {
    var u := t + [a, b];
    assert u[..|u| - 1] == t + [a];
    assert (t + [a])[..|t|] == t;
  }

  lemma BigEndianLast(bytes: seq<Byte>, last: Byte)
    ensures BigEndian(bytes + [last]) == BigEndian(bytes) * 256 + last
  {
    assert (bytes + [last])[..|bytes|] == bytes;
  }

  /** The hex form of bytes spells the same number as the bytes. */
  lemma {:induction false} HexlifySpells(bytes: seq<Byte>)
    ensures ParseHex(Hexlify(bytes)) == BigEndian(bytes)
  {
    if bytes != [] {
      var front, last := bytes[..|bytes| - 1], bytes[|bytes| - 1];
      HexlifySpells(front);
      assert bytes == front + [last];
      HexlifyLast(front, last);
      BigEndianLast(front, last);
      ParseHexLast(Hexlify(front), HexDigit(last / 16), HexDigit(last % 16));
    }
  }

  lemma {:induction false} HexlifyIsHex(bytes: seq<Byte>)
    ensures bytes != [] ==> IsHexText(Hexlify(bytes))
    ensures LowerCase(Hexlify(bytes))
  {
    if bytes != [] {
      HexlifyIsHex(bytes[..|bytes| - 1]);
    }
  }

  lemma {:induction false} UnhexOfHexlify(bytes: seq<Byte>)
    ensures Unhex(Hexlify(bytes)) == bytes
  {
    if bytes != [] {
      var front, last := bytes[..|bytes| - 1], bytes[|bytes| - 1];
      UnhexOfHexlify(front);
      assert bytes == front + [last];
      HexlifyLast(front, last);
      UnhexLast(Hexlify(front), HexDigit(last / 16), HexDigit(last % 16));
    }
  }

  lemma HexlifyOfPair(front: seq<Byte>, a: Byte, b: Byte)
    requires Hexlify(Unhex(front)) == front
    requires IsHexDigit(a) && IsHexDigit(b) && !(65 <= a <= 70) && !(65 <= b <= 70)
    ensures Hexlify(Unhex(front + [a, b])) == front + [a, b]
  {
    DigitsOfByte(a, b);
    UnhexLast(front, a, b);
    HexlifyLast(Unhex(front), 16 * DigitValue(a) + DigitValue(b));
  }

  lemma {:induction false} HexlifyOfUnhex(t: seq<Byte>, k: nat)
    requires |t| == 2 * k && (t == [] || IsHexText(t)) && LowerCase(t)
    ensures Hexlify(Unhex(t)) == t
  {
    if k > 0 {
      var front, a, b := t[..2 * k - 2], t[2 * k - 2], t[2 * k - 1];
      HexlifyOfUnhex(front, k - 1);
      HexlifyOfPair(front, a, b);
      assert t == front + [a, b];
    }
  }

  function Lower(t: seq<Byte>): (r: seq<Byte>)
    ensures |r| == |t|
    ensures forall i :: 0 <= i < |t| ==> r[i] == if 65 <= t[i] <= 70 then t[i] + 32 else t[i]
  {
    if t == [] then [] else Lower(t[..|t| - 1]) + [if 65 <= t[|t| - 1] <= 70 then t[|t| - 1] + 32 else t[|t| - 1]]
  }

  function EvenPad(t: seq<Byte>): seq<Byte>
  {
    if |t| % 2 == 1 then [48] + t else t
  }

  function DropZeroBytes(t: seq<Byte>): seq<Byte>
  {
    if |t| > 2 && t[0] == 48 && t[1] == 48 then DropZeroBytes(t[2..]) else t
  }

  /** Lower case, a whole number of bytes, no leading zero bytes. */
  function Canonical(t: seq<Byte>): seq<Byte>
  {
    DropZeroBytes(EvenPad(Lower(t)))
  }

  lemma {:induction false} LowerSpells(t: seq<Byte>)
    requires IsHexText(t)
    ensures IsHexText(Lower(t)) && LowerCase(Lower(t)) && ParseHex(Lower(t)) == ParseHex(t)
  {
    if |t| > 1 {
      LowerSpells(t[..|t| - 1]);
    }
    assert Lower(t)[..|t| - 1] == Lower(t[..|t| - 1]);
  }

  lemma {:induction false} LeadingZeroDigit(t: seq<Byte>)
    requires t != [] && t[0] == 48
    ensures ParseHex(t) == ParseHex(t[1..])
  {
    if |t| > 1 {
      LeadingZeroDigit(t[..|t| - 1]);
      assert t[..|t| - 1][1..] == t[1..][..|t| - 2];
    }
  }

  lemma {:induction false} DropZeroBytesSpells(t: seq<Byte>)
    requires IsHexText(t) && LowerCase(t) && |t| % 2 == 0
    ensures var u := DropZeroBytes(t);
            && IsHexText(u) && LowerCase(u) && |u| % 2 == 0 && ParseHex(u) == ParseHex(t)
            && (|u| == 2 || u[0] != 48 || u[1] != 48)
  {
    if |t| > 2 && t[0] == 48 && t[1] == 48 {
      LeadingZeroDigit(t);
      LeadingZeroDigit(t[1..]);
      assert t[1..][1..] == t[2..];
      DropZeroBytesSpells(t[2..]);
    }
  }

  /** The canonical text is the hex form of the shortest bytes for its value. */
  lemma CanonicalIsShortest(t: seq<Byte>)
    requires IsHexText(t)
    ensures IsHexText(Canonical(t)) && ParseHex(Canonical(t)) == ParseHex(t)
    ensures Canonical(t) == Hexlify(Shortest(ParseHex(t)))
  {
    LowerSpells(t);
    EvenPadSpells(Lower(t));
    DropZeroBytesSpells(EvenPad(Lower(t)));
    WholeBytesAreShortest(Canonical(t));
  }

  lemma EvenPadSpells(t: seq<Byte>)
    requires IsHexText(t) && LowerCase(t)
    ensures var u := EvenPad(t); IsHexText(u) && LowerCase(u) && |u| % 2 == 0 && ParseHex(u) == ParseHex(t)
  {
    if |t| % 2 == 1 {
      LeadingZeroDigit(EvenPad(t));
      assert EvenPad(t)[1..] == t;
    }
  }

  lemma {:induction false} UnhexFirst(t: seq<Byte>)
    requires |t| % 2 == 0 && t != []
    ensures Unhex(t)[0] == 16 * DigitValue(t[0]) + DigitValue(t[1])
  {
    if |t| > 2 {
      UnhexFirst(t[..|t| - 2]);
    }
  }

  lemma WholeBytesAreShortest(u: seq<Byte>)
    requires IsHexText(u) && LowerCase(u) && |u| % 2 == 0 && (|u| == 2 || u[0] != 48 || u[1] != 48)
    ensures u == Hexlify(Shortest(ParseHex(u)))
  {
    HexlifyOfUnhex(u, |u| / 2);
    HexlifySpells(Unhex(u));
    UnhexFirst(u);
    ShortestIsUnique(Unhex(u));
  }

  // ----- Round trips -----

  lemma HexTextOf(bytes: seq<Byte>)
    requires bytes != []
    ensures var t := Hexlify(bytes); IsHexText(t) && LowerCase(t) && |t| % 2 == 0 && ParseHex(t) == BigEndian(bytes)
  {
    HexlifySpells(bytes);
    HexlifyIsHex(bytes);
  }

  /** Any n >= 0 comes back as hex text of whole bytes, in lower case, with value n. */
  lemma NumberRoundTrip(n: nat)
    ensures ToByteArray(Number(n)) == Some(Shortest(n))
    ensures var t := FromByteArray(Shortest(n), true); IsHexText(t) && LowerCase(t) && |t| % 2 == 0 && ParseHex(t) == n
  {
    var bytes := Shortest(n);
    ShortestSpells(n);
    HexTextOf(bytes);
    IntBytesAreShortest(n);
  }

  lemma HexIsNotEscaped(t: seq<Byte>)
    requires IsHexText(t)
    ensures !HasEscape(t) && !HasPrefix(t)
  {
    assert |t| >= 2 ==> IsHexDigit(t[1]);
  }

  lemma HexForward(t: seq<Byte>, prefixed: bool)
    requires IsHexText(t)
    ensures ToByteArray(Literal(if prefixed then [48, 120] + t else t)) == Some(Shortest(ParseHex(t)))
  {
    HexIsNotEscaped(t);
    assert ([48, 120] + t)[2..] == t;
    IntBytesAreShortest(ParseHex(t));
  }

  /** Hex text, with or without one 0x in front, comes back in canonical form with the same
      value, and converting that once more changes nothing. */
  lemma HexRoundTrip(t: seq<Byte>, prefixed: bool)
    requires IsHexText(t)
    ensures var bytes := ToByteArray(Literal(if prefixed then [48, 120] + t else t));
            && bytes.Some? && FromByteArray(bytes.value, true) == Canonical(t)
            && ParseHex(Canonical(t)) == ParseHex(t)
            && ToByteArray(Literal(Canonical(t))) == bytes
  {
    HexForward(t, prefixed);
    CanonicalIsShortest(t);
    HexForward(Canonical(t), false);
  }

  /** An array's own hex text can be converted again exactly if the array is not empty, and is
      the same array again exactly if it has no leading zero byte to lose. */
  lemma ArrayRepeats(bytes: seq<Byte>)
    ensures var again := ToByteArray(Literal(FromByteArray(bytes, true)));
            && (again.Some? <==> bytes != [])
            && (bytes != [] ==> again == Some(Shortest(BigEndian(bytes))))
            && (again == Some(bytes) <==> NoLeadingZero(bytes))
  {
    if bytes != [] {
      HexTextOf(bytes);
      HexForward(Hexlify(bytes), false);
      ShortestSpells(BigEndian(bytes));
      if NoLeadingZero(bytes) {
        ShortestIsUnique(bytes);
      }
    }
  }

  lemma {:induction false} HexValueIsShort(t: seq<Byte>)
    requires IsHexText(t)
    ensures |Shortest(ParseHex(t))| <= (|t| + 1) / 2
    ensures |t| == 1 ==> Shortest(ParseHex(t)) == [DigitValue(t[0])]
  {
    if |t| == 1 {
      assert t[..0] == [];
    } else {
      var front := t[..|t| - 2];
      assert t == front + [t[|t| - 2], t[|t| - 1]];
      ParseHexLast(front, t[|t| - 2], t[|t| - 1]);
      if front != [] {
        HexValueIsShort(front);
        assert ParseHex(t) / 256 == ParseHex(front);
      }
    }
  }

  /** Bytes written as a bytestring come back as they were exactly when they show an escape
      and do not happen to begin with "0x". */
  lemma RawRoundTrip(text: seq<Byte>)
    ensures var bytes := ToByteArray(Literal(text));
            bytes.Some? && FromByteArray(bytes.value, false) == text <==> HasEscape(text) && !HasPrefix(text)
  {
    var t := StripPrefix(text);
    if !HasEscape(t) && IsHexText(t) {
      IntBytesAreShortest(ParseHex(t));
      HexValueIsShort(t);
      if |t| == 1 && !HasPrefix(text) {
        assert IsHexDigit(t[0]);
        assert DigitValue(t[0]) != text[0];
      }
    }
  }

  const DIGITS := "0123456789abcdef"
  const CAPITALS := "0123456789ABCDEF"

  lemma DigitsAreHex(v: nat)
    requires v < 16
    ensures IsHexDigit(DIGITS[v] as nat) && DigitValue(DIGITS[v] as nat) == v
    ensures IsHexDigit(CAPITALS[v] as nat) && DigitValue(CAPITALS[v] as nat) == v
  {
  }

  /** Every hex digit, small or capital, is a number. */
  lemma DigitCharacters(v: nat)
    requires v < 16
    ensures ToByteArray(Literal([DIGITS[v] as nat])) == Some([v]) &&
            ToByteArray(Literal([CAPITALS[v] as nat])) == Some([v])
  {
    DigitsAreHex(v);
    var small, capital := DIGITS[v] as nat, CAPITALS[v] as nat;
    OneDigit(small);
    OneDigit(capital);
  }

  predicate IsDigitCharacter(c: Byte)
  {
    exists d :: 0 <= d < 16 && (c == DIGITS[d] as nat || c == CAPITALS[d] as nat)
  }

  lemma HexDigitsAre(c: Byte)
    ensures IsHexDigit(c) <==> IsDigitCharacter(c)
  {
    if IsHexDigit(c) {
      var d := DigitValue(c);
      assert c == DIGITS[d] as nat || c == CAPITALS[d] as nat;
    }
  }

  /** Text of printable characters, tabs and line ends is taken exactly if, less one leading
      "0x", it is all hex digits; unless there is a backslash with an x after it. */
  lemma PlainText(t: seq<Byte>)
    requires forall i :: 0 <= i < |t| ==> 32 <= t[i] < 127 || t[i] in {9, 10, 13}
    requires forall i :: 0 <= i < |t| - 1 ==> t[i] != 92 || t[i + 1] != 120
    ensures var digits := if [48, 120] <= t then t[2..] else t;
            ToByteArray(Literal(t)).Some? <==>
            digits != [] && forall i :: 0 <= i < |digits| ==> IsDigitCharacter(digits[i])
  {
    assert [48, 120] <= t <==> HasPrefix(t);
    var digits := StripPrefix(t);
    forall i | 0 <= i < |digits|
      ensures IsHexDigit(digits[i]) <==> IsDigitCharacter(digits[i])
    {
      HexDigitsAre(digits[i]);
    }
  }

  lemma OneDigit(c: Byte)
    requires IsHexDigit(c)
    ensures ToByteArray(Literal([c])) == Some([DigitValue(c)])
  {
    HexForward([c], false);
    assert [c][..0] == [];
  }

  /** Text with a backslash and an x anywhere, or any unprintable byte, is raw; one leading "0x"
      is dropped from it, and only one. */
  lemma EscapedText(front: seq<Byte>, c: Byte, back: seq<Byte>)
    ensures var t := front + [92, 120] + back;
            ToByteArray(Literal([48, 120] + t)) == Some(t) && (!([48, 120] <= t) ==> ToByteArray(Literal(t)) == Some(t))
    ensures c >= 127 || (c < 32 && c != 9 && c != 10 && c != 13) ==>
              var t := front + [c] + back;
              ToByteArray(Literal([48, 120] + t)) == Some(t) &&
              (!([48, 120] <= t) ==> ToByteArray(Literal(t)) == Some(t))
  {
    var t := front + [92, 120] + back;
    assert t[|front|] == 92 && t[|front| + 1] == 120;
    assert ([48, 120] + t)[2..] == t;
    var u := front + [c] + back;
    assert u[|front|] == c;
    assert ([48, 120] + u)[2..] == u;
  }

  /** A list of byte values always comes back, either way; it is never replaced by its hex text,
      which is longer. */
  lemma ItemsRoundTrip(values: seq<Byte>)
    ensures var bytes := ToByteArray(Items(values));
            && bytes == Some(values) && Unhex(FromByteArray(bytes.value, true)) == values
            && (FromByteArray(values, true) == values <==> values == [])
  {
    UnhexOfHexlify(values);
  }
}
