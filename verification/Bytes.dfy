/** Bytes and the numbers they spell. */
module Bytes {
  type Byte = x: nat | x < 256

  /** Most significant byte first. */
  function BigEndian(bytes: seq<Byte>): nat
  {
    if bytes == [] then 0 else BigEndian(bytes[..|bytes| - 1]) * 256 + bytes[|bytes| - 1]
  }

  /** The shortest spelling of a number: at least one byte, none of them a leading zero. */
  function Shortest(n: nat): seq<Byte>
  {
    if n < 256 then [n] else Shortest(n / 256) + [n % 256]
  }

  predicate NoLeadingZero(bytes: seq<Byte>)
  {
    bytes != [] && (|bytes| == 1 || bytes[0] != 0)
  }

  lemma {:induction false} ShortestSpells(n: nat)
    ensures BigEndian(Shortest(n)) == n && NoLeadingZero(Shortest(n)) && (n > 0 ==> Shortest(n)[0] != 0)
  {
    if n >= 256 {
      ShortestSpells(n / 256);
      assert Shortest(n)[..|Shortest(n)| - 1] == Shortest(n / 256);
    }
  }

  /** No other spelling without leading zeros exists. */
  lemma {:induction false} ShortestIsUnique(bytes: seq<Byte>)
    requires NoLeadingZero(bytes)
    ensures Shortest(BigEndian(bytes)) == bytes
    ensures |bytes| > 1 ==> BigEndian(bytes) >= 256
  {
    var front, last := bytes[..|bytes| - 1], bytes[|bytes| - 1];
    if front == [] {
      assert bytes == [last];
    } else {
      ShortestIsUnique(front);
      if |front| == 1 {
        assert BigEndian(front) == front[0] by { assert front[..0] == []; }
      }
      assert BigEndian(bytes) == BigEndian(front) * 256 + last;
      assert BigEndian(bytes) / 256 == BigEndian(front) && BigEndian(bytes) % 256 == last;
    }
  }

  /** Least significant byte first, in a fixed number of bytes. */
  function LittleEndian(n: nat, width: nat): (bytes: seq<Byte>)
    ensures |bytes| == width
  {
    if width == 0 then [] else [n % 256] + LittleEndian(n / 256, width - 1)
  }

  lemma {:induction false} LittleEndianAt(n: nat, width: nat, i: nat)
    requires i < width
    ensures LittleEndian(n, width)[i] == n / Power256(i) % 256
  {
    if i > 0 {
      LittleEndianAt(n / 256, width - 1, i - 1);
      DivideTwice(n, Power256(i - 1));
    }
  }

  lemma DivideTwice(n: nat, d: nat)
    requires d > 0
    ensures n / 256 / d == n / (256 * d)
  {
    var q, r := n / 256 / d, n / 256 % d;
    assert n / 256 == q * d + r;
    assert n == 256 * (q * d + r) + n % 256;
    assert n - q * (256 * d) == 256 * r + n % 256 < 256 * d by {
      assert 256 * (q * d + r) == q * (256 * d) + 256 * r;
      assert r <= d - 1;
    }
    QuotientIs(n, 256 * d, q);
  }

  lemma QuotientIs(n: nat, d: nat, q: nat)
    requires d > 0 && q * d <= n < q * d + d
    ensures n / d == q
  {
    var e := n / d;
    assert e * d <= n < e * d + d;
    TimesGrows(e + 1, q, d);
    TimesGrows(q + 1, e, d);
  }

  lemma TimesGrows(a: nat, b: nat, d: nat)
    ensures a <= b ==> a * d <= b * d
  {
  }

  function FromLittleEndian(bytes: seq<Byte>): nat
  {
    if bytes == [] then 0 else bytes[0] + 256 * FromLittleEndian(bytes[1..])
  }

  function Power256(k: nat): (p: nat)
    ensures p > 0
  {
    if k == 0 then 1 else 256 * Power256(k - 1)
  }

  lemma {:induction false} LittleEndianRoundTrip(n: nat, width: nat)
    requires n < Power256(width)
    ensures FromLittleEndian(LittleEndian(n, width)) == n
  {
    if width > 0 {
      LittleEndianRoundTrip(n / 256, width - 1);
    }
  }
}
