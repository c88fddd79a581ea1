/** A cipher that holds back partial blocks and has output left for Final meets every assumption
    that the round trip makes of a token. */
module BlockCipher {
  import opened Wrappers
  import opened Bytes
  import opened Encryption
  import opened EncryptionProofs

  const BLOCK: nat := 16

  type Pending = s: seq<Byte> | |s| < BLOCK

  type Key = k: nat | k <= 256

  function Rotate(x: Byte, key: Key): Byte
  {
    if x + key >= 256 then x + key - 256 else x + key
  }

  function Shift(data: seq<Byte>, key: Key): seq<Byte>
  {
    seq(|data|, i requires 0 <= i < |data| => Rotate(data[i], key))
  }

  function WholeBlocks(n: nat): (m: nat)
    ensures m <= n < m + BLOCK
  {
    n - n % BLOCK
  }

  /** Outputs whole blocks, keeps the rest, and outputs that in the end. Its size queries
      overestimate. */
  function BlockShift(key: Key): Cipher<Pending>
  {
    Cipher(
      Started([]),
      (s: Pending, chunk: seq<Byte>) =>
        var all := s + chunk;
        Next(all[WholeBlocks(|all|)..], Shift(all[..WholeBlocks(|all|)], key)),
      (s: Pending, chunk: seq<Byte>) => Guess(|chunk| + BLOCK),
      (s: Pending) => Ended(Shift(s, key)),
      (s: Pending) => Guess(BLOCK),
      (s: Pending, data: seq<Byte>) => Ended(Shift(s + data, key)),
      (s: Pending, data: seq<Byte>) => Guess(|data| + BLOCK))
  }

  lemma BlocksCompose(s: Pending, a: seq<Byte>, b: seq<Byte>)
    ensures var n, kept := WholeBlocks(|s + a|), (s + a)[WholeBlocks(|s + a|)..];
            var m, all := WholeBlocks(|kept + b|), s + (a + b);
            && WholeBlocks(|all|) == n + m
            && all[n + m..] == (kept + b)[m..] && all[..n + m] == (s + a)[..n] + (kept + b)[..m]
  {
    var n := WholeBlocks(|s + a|);
    assert s + (a + b) == (s + a)[..n] + ((s + a)[n..] + b);
  }

  lemma ShiftConcat(a: seq<Byte>, b: seq<Byte>, key: Key)
    ensures Shift(a + b, key) == Shift(a, key) + Shift(b, key)
  {
  }

  lemma ShiftBack(data: seq<Byte>, key: Key)
    ensures Shift(Shift(data, key), 256 - key) == data
  {
  }

  lemma UpdatesCompose(key: Key, s: Pending, a: seq<Byte>, b: seq<Byte>)
    ensures var c := BlockShift(key); var first := c.update(s, a); var second := c.update(first.s, b);
            c.update(s, a + b) == Next(second.s, first.output + second.output)
  {
    BlocksCompose(s, a, b);
    var n := WholeBlocks(|s + a|);
    var kept := (s + a)[n..];
    ShiftConcat((s + a)[..n], (kept + b)[..WholeBlocks(|kept + b|)], key);
  }

  lemma BlockShiftIsAToken(key: Key)
    ensures SoundCipher(BlockShift(key)) && Streaming(BlockShift(key))
  {
    var c := BlockShift(key);
    forall s: Pending
      ensures c.update(s, []) == Next(s, [])
    {
      assert s + [] == s;
    }
    forall s: Pending, a: seq<Byte>, b: seq<Byte>
      ensures Composes(c, s, a, b)
    {
      UpdatesCompose(key, s, a, b);
    }
  }

  ghost predicate ShiftsAll(c: Cipher<Pending>, key: Key, data: seq<Byte>)
  {
    c.init.Started? && AllAtOnce(c, c.init.s, data) == Ended(Shift(data, key))
  }

  /** The cipher as a whole shifts by that key. */
  ghost predicate Shifts(c: Cipher<Pending>, key: Key)
  {
    c.init.Started? && forall data :: ShiftsAll(c, key, data)
  }

  lemma ShiftedAtOnce(key: Key, data: seq<Byte>)
    ensures ShiftsAll(BlockShift(key), key, data)
  {
    var n := WholeBlocks(|data|);
    assert [] + data == data && data == data[..n] + data[n..];
    ShiftConcat(data[..n], data[n..], key);
  }

  lemma BlockShiftShifts(key: Key)
    ensures Shifts(BlockShift(key), key)
  {
    var c := BlockShift(key);
    forall data
      ensures ShiftsAll(c, key, data)
    {
      ShiftedAtOnce(key, data);
    }
  }

  lemma ShiftsInvert(enc: Cipher<Pending>, dec: Cipher<Pending>, key: Key)
    requires Shifts(enc, key) && Shifts(dec, 256 - key)
    ensures Inverts(enc, dec)
  {
    forall data
      ensures Undoes(dec, enc, data)
    {
      assert ShiftsAll(enc, key, data) && ShiftsAll(dec, 256 - key, Shift(data, key));
      ShiftBack(data, key);
    }
  }

  lemma BlockShiftInverts(key: Key)
    ensures Inverts(BlockShift(key), BlockShift(256 - key))
  {
    BlockShiftShifts(key);
    BlockShiftShifts(256 - key);
    ShiftsInvert(BlockShift(key), BlockShift(256 - key), key);
  }
}
