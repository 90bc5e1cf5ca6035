/** Whether a release's keys can be told apart by the bytes of them a segment stores. */
module Prefixes {
  import opened Wrappers
  import opened Sorting
  import opened Bytes
  import opened Plan
  import opened LedgerSplit

  const KEY_BYTES: nat := 16

  /** The bytes of a key that are stored. */
  function Prefix(key: Key, length: nat): seq<byte>
    requires key < KEY_SPACE && length <= KEY_BYTES
  {
    KeySpace();
    BigEndianInverts(key, KEY_BYTES);
    BigEndian(key, KEY_BYTES)[..length]
  }

  lemma KeySpace()
    ensures Space(KEY_BYTES) == KEY_SPACE
  {
    assert Space(8) == 0x1_0000_0000_0000_0000;
    assert Space(12) == 0x1_0000_0000_0000_0000 * 0x1_0000_0000;
  }

  /** Between two keys with one prefix, every key has it. */
  lemma {:induction false} PrefixBetween(a: Key, b: Key, c: Key, length: nat)
    requires a <= b <= c < KEY_SPACE && length <= KEY_BYTES
    requires Prefix(a, length) == Prefix(c, length)
    ensures Prefix(b, length) == Prefix(a, length)
  {
    KeySpace();
    BigEndianInverts(a, KEY_BYTES);
    BigEndianInverts(b, KEY_BYTES);
    BigEndianInverts(c, KEY_BYTES);
    PrefixMonotone(BigEndian(a, KEY_BYTES), BigEndian(b, KEY_BYTES), length);
    PrefixMonotone(BigEndian(b, KEY_BYTES), BigEndian(c, KEY_BYTES), length);
    Injective(Prefix(a, length), Prefix(b, length));
  }

  ghost predicate Collide(a: Key, b: Key, length: nat) {
    && a < b && a < KEY_SPACE && b < KEY_SPACE && length <= KEY_BYTES
    && Prefix(a, length) == Prefix(b, length)
  }

  /**
   * Two distinct keys that share their first `length` bytes, exactly where there are two:
   * sorted and deduplicated, only neighbours are compared.
   */
  method SharedPrefix(keys: seq<Key>, length: nat) returns (pair: Option<(Key, Key)>)
    requires length <= KEY_BYTES && forall key <- keys :: key < KEY_SPACE
    ensures pair.Some? ==> pair.value.0 in keys && pair.value.1 in keys && Collide(pair.value.0, pair.value.1, length)
    ensures pair.None? ==> forall a, b :: a in keys && b in keys ==> !Collide(a, b, length)
  {
    var sorted := SortDedup(keys);
    SortDedupAscending(keys);
    var i := 1;
    while i < |sorted|
      invariant forall j :: 1 <= j < i && j < |sorted| ==> !Collide(sorted[j - 1], sorted[j], length)
    {
      assert sorted[i - 1] in sorted && sorted[i] in sorted;
      if Prefix(sorted[i - 1], length) == Prefix(sorted[i], length) {
        return Some((sorted[i - 1], sorted[i]));
      }
      i := i + 1;
    }
    forall a, b | a in keys && b in keys ensures !Collide(a, b, length) {
      NeighboursSuffice(sorted, length, a, b);
    }
    return None;
  }

  lemma {:induction false} NeighboursSuffice(sorted: seq<Key>, length: nat, a: Key, b: Key)
    requires Ascending(sorted) && length <= KEY_BYTES && forall key <- sorted :: key < KEY_SPACE
    requires forall j :: 1 <= j < |sorted| ==> !Collide(sorted[j - 1], sorted[j], length)
    requires a in sorted && b in sorted
    ensures !Collide(a, b, length)
  {
    if Collide(a, b, length) {
      var i :| 0 <= i < |sorted| && sorted[i] == a;
      var j :| 0 <= j < |sorted| && sorted[j] == b;
      PrefixBetween(a, sorted[i + 1], b, length);
    }
  }

  /** Keys that share a prefix differ only in the bytes after it. */
  lemma {:induction false} CollideIsClose(a: Key, b: Key, length: nat)
    requires Collide(a, b, length)
    ensures b - a < Space(KEY_BYTES - length)
  {
    var low := PrefixBounds(a, length);
    var lowToo := PrefixBounds(b, length);
  }

  /** The least number of a prefix, and how far it is from the key. */
  lemma PrefixBounds(key: Key, length: nat) returns (low: nat)
    requires key < KEY_SPACE && length <= KEY_BYTES
    ensures low == LowOf(Prefix(key, length), KEY_BYTES - length)
    ensures low <= key < low + Space(KEY_BYTES - length)
  {
    KeySpace();
    BigEndianInverts(key, KEY_BYTES);
    var s := BigEndian(key, KEY_BYTES);
    assert s == s[..length] + s[length..];
    FromConcatenation(s[..length], s[length..]);
    FromBigEndianInverts(s[length..]);
    low := LowOf(s[..length], |s| - length);
  }

  function LowOf(prefix: seq<byte>, rest: nat): nat {
    FromBigEndian(prefix) * Space(rest)
  }

  /** The order of a pair's entry: its book big-endian, then its key. */
  function PairBytes(book: nat, key: Key): seq<byte> {
    BigEndian(book, 4) + BigEndian(key, KEY_BYTES)
  }

  /** Pairs are in the order of those twenty bytes. */
  lemma {:induction false} PairsOrderAsBytes(b: nat, k: Key, b': nat, k': Key)
    requires b < 0x1_0000_0000 && b' < 0x1_0000_0000 && k < KEY_SPACE && k' < KEY_SPACE
    ensures |PairBytes(b, k)| == |PairBytes(b', k')| == 20
    ensures PairOrder(b, k) < PairOrder(b', k') <==> LexLess(PairBytes(b, k), PairBytes(b', k'))
  {
    PairBytesSpell(b, k);
    PairBytesSpell(b', k');
    BigEndianIsLexicographic(PairBytes(b, k), PairBytes(b', k'));
  }

  lemma PairBytesSpell(book: nat, key: Key)
    requires book < 0x1_0000_0000 && key < KEY_SPACE
    ensures |PairBytes(book, key)| == 20 && FromBigEndian(PairBytes(book, key)) == PairOrder(book, key)
  {
    KeySpace();
    assert Space(4) == 0x1_0000_0000;
    BigEndianInverts(book, 4);
    BigEndianInverts(key, KEY_BYTES);
    FromConcatenation(BigEndian(book, 4), BigEndian(key, KEY_BYTES));
  }
}
