/** Fixed-width numbers as bytes, and what comparing the bytes compares. */
module Bytes {
  type byte = b: nat | b < 256

  /** The number some bytes spell, the first the most significant. */
  function FromBigEndian(s: seq<byte>): nat {
    if s == [] then 0 else FromBigEndian(s[..|s| - 1]) * 256 + s[|s| - 1]
  }

  function BigEndian(n: nat, width: nat): seq<byte> {
    if width == 0 then [] else BigEndian(n / 256, width - 1) + [n % 256]
  }

  function FromLittleEndian(s: seq<byte>): nat {
    if s == [] then 0 else s[0] + 256 * FromLittleEndian(s[1..])
  }

  function LittleEndian(n: nat, width: nat): seq<byte> {
    if width == 0 then [] else [n % 256] + LittleEndian(n / 256, width - 1)
  }

  /** One more than the greatest number `width` bytes hold. */
  function Space(width: nat): nat {
    if width == 0 then 1 else 256 * Space(width - 1)
  }

  lemma {:induction false} BigEndianInverts(n: nat, width: nat)
    requires n < Space(width)
    ensures |BigEndian(n, width)| == width && FromBigEndian(BigEndian(n, width)) == n
  {
    if width > 0 { BigEndianInverts(n / 256, width - 1); }
  }

  lemma {:induction false} FromBigEndianInverts(s: seq<byte>)
    ensures FromBigEndian(s) < Space(|s|) && BigEndian(FromBigEndian(s), |s|) == s
  {
    if s != [] {
      FromBigEndianInverts(s[..|s| - 1]);
      assert s == s[..|s| - 1] + [s[|s| - 1]];
    }
  }

  lemma {:induction false} LittleEndianInverts(n: nat, width: nat)
    requires n < Space(width)
    ensures |LittleEndian(n, width)| == width && FromLittleEndian(LittleEndian(n, width)) == n
  {
    if width > 0 { LittleEndianInverts(n / 256, width - 1); }
  }

  lemma {:induction false} FromLittleEndianInverts(s: seq<byte>)
    ensures FromLittleEndian(s) < Space(|s|) && LittleEndian(FromLittleEndian(s), |s|) == s
  {
    if s != [] {
      FromLittleEndianInverts(s[1..]);
      assert s == [s[0]] + s[1..];
    }
  }

  /** Before, as byte strings of one length compare: less at the first place they differ. */
  ghost predicate LexLess(a: seq<byte>, b: seq<byte>)
    requires |a| == |b|
  {
    exists i :: 0 <= i < |a| && a[..i] == b[..i] && a[i] < b[i]
  }

  lemma {:induction false} Injective(a: seq<byte>, b: seq<byte>)
    requires |a| == |b| && FromBigEndian(a) == FromBigEndian(b)
    ensures a == b
  {
    FromBigEndianInverts(a);
    FromBigEndianInverts(b);
  }

  /** Keys compare as the numbers they spell. */
  lemma {:induction false} BigEndianIsLexicographic(a: seq<byte>, b: seq<byte>)
    requires |a| == |b|
    ensures LexLess(a, b) <==> FromBigEndian(a) < FromBigEndian(b)
  {
    if a != [] {
      var a', b', last := a[..|a| - 1], b[..|b| - 1], |a| - 1;
      BigEndianIsLexicographic(a', b');
      if FromBigEndian(a) < FromBigEndian(b) {
        if FromBigEndian(a') == FromBigEndian(b') {
          Injective(a', b');
          assert a[..last] == b[..last] && a[last] < b[last];
        } else {
          var i :| 0 <= i < |a'| && a'[..i] == b'[..i] && a'[i] < b'[i];
          assert a[..i] == a'[..i] && b[..i] == b'[..i] && a[i] < b[i];
        }
      }
      if LexLess(a, b) {
        var i :| 0 <= i < |a| && a[..i] == b[..i] && a[i] < b[i];
        if i < last {
          assert a'[..i] == a[..i] && b'[..i] == b[..i] && a'[i] < b'[i];
        }
      }
    }
  }

  /** And a prefix is no further on where the whole is not. */
  lemma {:induction false} PrefixMonotone(a: seq<byte>, b: seq<byte>, n: nat)
    requires |a| == |b| && n <= |a| && FromBigEndian(a) <= FromBigEndian(b)
    ensures FromBigEndian(a[..n]) <= FromBigEndian(b[..n])
  {
    if n < |a| {
      var a', b' := a[..|a| - 1], b[..|b| - 1];
      PrefixMonotone(a', b', n);
      assert a'[..n] == a[..n] && b'[..n] == b[..n];
    } else {
      assert a[..n] == a && b[..n] == b;
    }
  }

  lemma {:induction false} FromConcatenation(a: seq<byte>, b: seq<byte>)
    ensures FromBigEndian(a + b) == FromBigEndian(a) * Space(|b|) + FromBigEndian(b)
  {
    if b == [] {
      assert a + b == a;
    } else {
      var front, last := b[..|b| - 1], b[|b| - 1];
      assert (a + b)[..|a + b| - 1] == a + front;
      FromConcatenation(a, front);
    }
  }
}
