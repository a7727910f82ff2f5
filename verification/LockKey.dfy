/**
 The byte string the inventory lock key hashes: every field behind its length as eight
 big-endian bytes, so that no two lists of fields share it.
 */
module LockKey {

  newtype byte = b: int | 0 <= b < 256

  const WORD: nat := 0x1_0000_0000_0000_0000

  /** The low `width` bytes of `n`, most significant first. */
  function BigEndian(n: nat, width: nat): (r: seq<byte>)
    ensures |r| == width
    decreases width
  {
    if width == 0 then [] else BigEndian(n / 256, width - 1) + [(n % 256) as byte]
  }

  function FromBigEndian(bytes: seq<byte>): nat {
    if bytes == [] then 0 else 256 * FromBigEndian(bytes[..|bytes| - 1]) + bytes[|bytes| - 1] as nat
  }

  function Power(width: nat): nat {
    if width == 0 then 1 else 256 * Power(width - 1)
  }

  lemma {:induction false} BigEndianRoundTrip(n: nat, width: nat)
    requires n < Power(width)
    ensures FromBigEndian(BigEndian(n, width)) == n
    decreases width
  {
    if width > 0 {
      var init := BigEndian(n / 256, width - 1);
      BigEndianRoundTrip(n / 256, width - 1);
      assert (init + [(n % 256) as byte])[..width - 1] == init;
    }
  }

  lemma EightBytesHoldAWord()
    ensures Power(8) == WORD
  {
    assert Power(4) == 0x1_0000_0000;
    assert Power(8) == 256 * 256 * 256 * 256 * Power(4);
  }

  function Field(field: seq<byte>, width: nat): seq<byte> {
    BigEndian(|field|, width) + field
  }

  function Prefixed(fields: seq<seq<byte>>, width: nat): seq<byte>
    decreases fields
  {
    if fields == [] then [] else Prefixed(fields[..|fields| - 1], width) + Field(fields[|fields| - 1], width)
  }

  /** What the lock key hashes: lengths are 64-bit words. */
  function PreImage(fields: seq<seq<byte>>): seq<byte> {
    Prefixed(fields, 8)
  }

  /** The loop that feeds the hash. */
  method Feed(fields: seq<seq<byte>>, width: nat) returns (hashed: seq<byte>)
    ensures hashed == Prefixed(fields, width)
  {
    hashed := [];
    for i := 0 to |fields|
      invariant hashed == Prefixed(fields[..i], width)
    {
      var length := BigEndian(|fields[i]|, width);
      hashed := hashed + length;
      hashed := hashed + fields[i];
      assert fields[..i + 1][..i] == fields[..i];
      assert Prefixed(fields[..i], width) + length + fields[i] ==
          Prefixed(fields[..i], width) + Field(fields[i], width);
    }
    assert fields[..|fields|] == fields;
  }

  lemma {:induction false} PrefixedFromFront(fields: seq<seq<byte>>, width: nat)
    requires fields != []
    ensures Prefixed(fields, width) == Field(fields[0], width) + Prefixed(fields[1..], width)
    decreases fields
  {
    var n := |fields| - 1;
    if n == 0 {
      assert fields[..0] == [] && fields[1..] == [];
      assert [] + Field(fields[0], width) == Field(fields[0], width) == Field(fields[0], width) + [];
    } else {
      PrefixedFromFront(fields[..n], width);
      assert fields[..n][1..] == fields[1..][..n - 1];
      assert fields[1..][n - 1] == fields[n];
      var head, middle, tail := Field(fields[0], width), Prefixed(fields[..n][1..], width), Field(fields[n], width);
      assert head + middle + tail == head + (middle + tail);
    }
  }

  ghost predicate Addressable(fields: seq<seq<byte>>, limit: nat) {
    forall i :: 0 <= i < |fields| ==> |fields[i]| < limit
  }

  lemma EqualParts(p: seq<byte>, a: seq<byte>, x: seq<byte>, q: seq<byte>, b: seq<byte>, y: seq<byte>)
    requires |p| == |q| && p + a + x == q + b + y
    ensures p == q
    ensures |a| == |b| ==> a == b && x == y
  {
    var s, t := p + a + x, q + b + y;
    assert s[..|p|] == p && t[..|q|] == q;
    if |a| == |b| {
      assert s[|p|..|p| + |a|] == a && t[|q|..|q| + |b|] == b;
      assert s[|p| + |a|..] == x && t[|q| + |b|..] == y;
    }
  }

  /** A length prefix says where its field ends. */
  lemma HeadIsDetermined(a: seq<byte>, x: seq<byte>, b: seq<byte>, y: seq<byte>, width: nat)
    requires |a| < Power(width) && |b| < Power(width) && Field(a, width) + x == Field(b, width) + y
    ensures a == b && x == y
  {
    BigEndianRoundTrip(|a|, width);
    BigEndianRoundTrip(|b|, width);
    EqualParts(BigEndian(|a|, width), a, x, BigEndian(|b|, width), b, y);
  }

  lemma {:induction false} PrefixedIsInjective(a: seq<seq<byte>>, b: seq<seq<byte>>, width: nat)
    requires width > 0 && Addressable(a, Power(width)) && Addressable(b, Power(width))
    requires Prefixed(a, width) == Prefixed(b, width)
    ensures a == b
    decreases a
  {
    if a != [] {
      PrefixedFromFront(a, width);
    }
    if b != [] {
      PrefixedFromFront(b, width);
    }
    if a != [] && b != [] {
      HeadIsDetermined(a[0], Prefixed(a[1..], width), b[0], Prefixed(b[1..], width), width);
      PrefixedIsInjective(a[1..], b[1..], width);
      assert a == [a[0]] + a[1..] && b == [b[0]] + b[1..];
    }
  }

  /**
   Distinct lists of fields shorter than 2^64 bytes never share a pre-image, whatever bytes
   they hold, so two inventories meet on one lock only if the hash itself collides.
   */
  lemma PreImageIsInjective(a: seq<seq<byte>>, b: seq<seq<byte>>)
    requires Addressable(a, WORD) && Addressable(b, WORD)
    ensures PreImage(a) == PreImage(b) <==> a == b
  {
    EightBytesHoldAWord();
    if PreImage(a) == PreImage(b) {
      PrefixedIsInjective(a, b, 8);
    }
  }
}
