/** Cutting a string into blocks and joining a list of strings. */
module Chunks {

  function Join<T>(pieces: seq<seq<T>>): seq<T>
  {
    if pieces == [] then [] else pieces[0] + Join(pieces[1..])
  }

  /** The blocks starting at 0, block, 2 * block, and so on; the last one may be short. */
  function Split<T>(s: seq<T>, block: nat): seq<seq<T>>
    requires block > 0
  {
    if s == [] then [] else if |s| <= block then [s] else [s[..block]] + Split(s[block..], block)
  }

  lemma {:induction false} JoinSplit<T>(s: seq<T>, block: nat)
    requires block > 0
    ensures Join(Split(s, block)) == s
  {
    if |s| > block {
      JoinSplit(s[block..], block);
      assert s == s[..block] + s[block..];
    } else if s != [] {
      assert Join([s]) == s + Join([]);
    }
  }

  /** There are as many blocks as it takes. */
  lemma {:induction false} SplitCount<T>(s: seq<T>, block: nat)
    requires block > 0 && s != []
    ensures var n := |Split(s, block)|; n > 0 && (n - 1) * block < |s| <= n * block
  {
    if |s| > block {
      SplitCount(s[block..], block);
      var n := |Split(s[block..], block)|;
      assert n * block == (n - 1) * block + block && (n + 1) * block == n * block + block;
    }
  }

  /** Every block but the last is full, and the last goes to the end. */
  lemma {:induction false} SplitBlocks<T>(s: seq<T>, block: nat, i: nat)
    requires block > 0 && i < |Split(s, block)|
    ensures var pieces := Split(s, block);
            && 0 <= i * block < |s|
            && (i < |pieces| - 1 ==> i * block + block < |s| && pieces[i] == s[i * block..i * block + block])
            && (i == |pieces| - 1 ==> pieces[i] == s[i * block..] && |pieces[i]| <= block)
  {
    if i > 0 {
      SplitBlocks(s[block..], block, i - 1);
      assert i * block == (i - 1) * block + block;
    } else if |s| > block {
      SplitCount(s[block..], block);
    }
  }

  lemma {:induction false} JoinAppend<T>(pieces: seq<seq<T>>, last: seq<T>)
    ensures Join(pieces + [last]) == Join(pieces) + last
  {
    if pieces != [] {
      JoinAppend(pieces[1..], last);
      assert (pieces + [last])[1..] == pieces[1..] + [last];
    } else {
      assert Join([last]) == last + Join([]);
    }
  }
}
