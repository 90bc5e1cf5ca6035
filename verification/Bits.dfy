/** One bit per key of the previous ledger, packed in 64-bit words: a word is its set bits. */
module Bits {
  type Word = s: set<nat> | forall bit <- s :: bit < 64

  /** Positions past the last word read as clear. */
  predicate IsSet(words: seq<Word>, at: nat) {
    at / 64 < |words| && at % 64 in words[at / 64]
  }

  function Set(words: seq<Word>, at: nat): seq<Word>
    requires at / 64 < |words|
  {
    words[at / 64 := words[at / 64] + {at % 64}]
  }

  function Words(bits: nat): seq<Word> {
    seq((bits + 63) / 64, _ => {})
  }

  function PopCount(words: seq<Word>): nat {
    if words == [] then 0 else PopCount(words[..|words| - 1]) + |words[|words| - 1]|
  }

  /** Setting a position sets it and no other, however the positions share words. */
  lemma SetOnly(words: seq<Word>, at: nat, other: nat)
    requires at / 64 < |words|
    ensures IsSet(Set(words, at), other) <==> other == at || IsSet(words, other)
  {
  }

  lemma {:induction false} SetCounts(words: seq<Word>, at: nat)
    requires at / 64 < |words| && !IsSet(words, at)
    ensures PopCount(Set(words, at)) == PopCount(words) + 1
  {
    var last := |words| - 1;
    var after := Set(words, at);
    if at / 64 == last {
      assert after[..last] == words[..last];
    } else {
      assert after[..last] == Set(words[..last], at);
      SetCounts(words[..last], at);
    }
  }

  lemma {:induction false} WordsClear(bits: nat)
    ensures PopCount(Words(bits)) == 0
    ensures forall at :: !IsSet(Words(bits), at)
    ensures forall at :: at < bits ==> at / 64 < |Words(bits)|
  {
    AllClear(Words(bits));
  }

  lemma {:induction false} AllClear(words: seq<Word>)
    requires forall i :: 0 <= i < |words| ==> words[i] == {}
    ensures PopCount(words) == 0
  {
    if words != [] { AllClear(words[..|words| - 1]); }
  }
}
