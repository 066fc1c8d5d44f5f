/** Byte strings and big-endian numbers, as Python's `int.to_bytes` / `from_bytes`. */
module Bytes {

  type Byte = x: int | 0 <= x < 256

  type Bytes = seq<Byte>

  function Pow256(k: nat): (p: nat)
    ensures p > 0
  {
    if k == 0 then 1 else 256 * Pow256(k - 1)
  }

  function BitLength(n: nat): nat {
    if n == 0 then 0 else 1 + BitLength(n / 2)
  }

  /** Octets of the shortest unsigned representation: `(n.bit_length() + 7) // 8`. */
  function OctetLength(n: nat): nat {
    (BitLength(n) + 7) / 8
  }

  function FromBytes(b: Bytes): nat {
    if b == [] then 0 else FromBytes(b[..|b| - 1]) * 256 + b[|b| - 1]
  }

  /** `n.to_bytes(k, "big")`; the source raises OverflowError when `n` needs more than `k` bytes. */
  function ToBytes(n: nat, k: nat): (b: Bytes)
    requires n < Pow256(k)
    ensures |b| == k
  {
    if k == 0 then [] else ToBytes(n / 256, k - 1) + [n % 256]
  }

  lemma {:induction false} BytesRoundTrip(n: nat, k: nat)
    requires n < Pow256(k)
    ensures FromBytes(ToBytes(n, k)) == n
  {
    if k > 0 {
      BytesRoundTrip(n / 256, k - 1);
    }
  }

  lemma {:induction false} FromBytesBound(b: Bytes)
    ensures FromBytes(b) < Pow256(|b|)
  {
    if b != [] {
      FromBytesBound(b[..|b| - 1]);
    }
  }

  lemma {:induction false} FromBytesConcat(a: Bytes, b: Bytes)
    ensures FromBytes(a + b) == FromBytes(a) * Pow256(|b|) + FromBytes(b)
    decreases |b|
  {
    if b == [] {
      assert a + b == a;
    } else {
      var n := |b| - 1;
      FromBytesConcat(a, b[..n]);
      assert (a + b)[..|a + b| - 1] == a + b[..n];
      ShiftByte(FromBytes(a), Pow256(n));
    }
  }

  lemma ShiftByte(a: nat, p: nat)
    ensures a * p * 256 == a * (256 * p)
  {
  }

  /** Different strings of one length are different numbers. */
  lemma {:induction false} FromBytesInjective(a: Bytes, b: Bytes)
    requires |a| == |b| && FromBytes(a) == FromBytes(b)
    ensures a == b
  {
    if a != [] {
      var n := |a| - 1;
      assert a[n] == FromBytes(a) % 256 && b[n] == FromBytes(b) % 256;
      FromBytesInjective(a[..n], b[..n]);
      assert a == a[..n] + [a[n]] && b == b[..n] + [b[n]];
    }
  }

  lemma {:induction false} HalveEight(n: nat)
    ensures n >= 128 ==> BitLength(n) == 8 + BitLength(n / 256)
    ensures 0 < n < 256 ==> 1 <= BitLength(n) <= 8
  {
    var a := n / 2;
    var b := a / 2;
    var c := b / 2;
    var d := c / 2;
    assert d == n / 16;
    HalveFour(n);
    HalveFour(d);
    assert d / 16 == n / 256;
  }

  lemma {:induction false} HalveFour(n: nat)
    ensures n >= 8 ==> BitLength(n) == 4 + BitLength(n / 16)
    ensures 0 < n < 16 ==> 1 <= BitLength(n) <= 4
  {
    assert BitLength(n) == if n == 0 then 0 else 1 + BitLength(n / 2);
    assert BitLength(n / 2) == if n / 2 == 0 then 0 else 1 + BitLength(n / 2 / 2);
    assert BitLength(n / 2 / 2) == if n / 2 / 2 == 0 then 0 else 1 + BitLength(n / 2 / 2 / 2);
    assert BitLength(n / 2 / 2 / 2) == if n / 2 / 2 / 2 == 0 then 0 else 1 + BitLength(n / 2 / 2 / 2 / 2);
    assert n / 2 / 2 / 2 / 2 == n / 16;
  }

  lemma OctetStep(n: nat)
    ensures OctetLength(n) == if n == 0 then 0 else 1 + OctetLength(n / 256)
  {
    HalveEight(n);
  }

  /** `OctetLength` bytes are enough, and one fewer is not. */
  lemma {:induction false} OctetLengthExact(n: nat)
    ensures n < Pow256(OctetLength(n))
    ensures n > 0 ==> OctetLength(n) > 0 && n >= Pow256(OctetLength(n) - 1)
  {
    OctetStep(n);
    if n > 0 {
      OctetLengthExact(n / 256);
      OctetStep(n / 256);
    }
  }

  lemma {:induction false} Pow256Monotone(i: nat, j: nat)
    requires i <= j
    ensures Pow256(i) <= Pow256(j)
  {
    if i < j {
      Pow256Monotone(i, j - 1);
    }
  }

  /** The shortest form: no leading zero octet. */
  function Minimal(n: nat): (b: Bytes)
    ensures |b| == OctetLength(n)
  {
    OctetLengthExact(n);
    ToBytes(n, OctetLength(n))
  }

  lemma {:induction false} LeadingByte(n: nat, k: nat)
    requires k > 0 && n < Pow256(k)
    ensures ToBytes(n, k)[0] == 0 <==> n < Pow256(k - 1)
  {
    if k > 1 {
      LeadingByte(n / 256, k - 1);
    }
  }

  lemma MinimalIsMinimal(n: nat)
    ensures FromBytes(Minimal(n)) == n
    ensures n > 0 ==> Minimal(n) != [] && Minimal(n)[0] != 0
  {
    OctetLengthExact(n);
    BytesRoundTrip(n, OctetLength(n));
    if n > 0 {
      LeadingByte(n, OctetLength(n));
    }
  }

  /** Any other representation of the number is the minimal one behind zero octets. */
  lemma {:induction false} OnlyZerosInFront(b: Bytes)
    ensures OctetLength(FromBytes(b)) <= |b|
    ensures b != [] && b[0] != 0 ==> b == Minimal(FromBytes(b))
  {
    FromBytesBound(b);
    var n := FromBytes(b);
    OctetLengthExact(n);
    if OctetLength(n) > |b| {
      Pow256Monotone(|b|, OctetLength(n) - 1);
    }
    if b != [] && b[0] != 0 {
      FromBytesConcat(b[..1], b[1..]);
      assert b == b[..1] + b[1..];
      assert FromBytes(b[..1]) == b[0] by {
        assert b[..1][..0] == [];
      }
      AtLeastOne(b[0], Pow256(|b| - 1));
      if OctetLength(n) < |b| {
        Pow256Monotone(OctetLength(n), |b| - 1);
      }
      MinimalIsMinimal(n);
      FromBytesInjective(b, Minimal(n));
    }
  }

  lemma AtLeastOne(a: nat, p: nat)
    requires a >= 1
    ensures a * p >= p
  {
  }

  /** `raw.lstrip(b"\x00")`. */
  function LStrip(b: Bytes): (stripped: Bytes)
    ensures stripped == [] || stripped[0] != 0
    ensures |stripped| <= |b|
  {
    if b != [] && b[0] == 0 then LStrip(b[1..]) else b
  }

  lemma {:induction false} LStripKeepsValue(b: Bytes)
    ensures FromBytes(LStrip(b)) == FromBytes(b)
  {
    if b != [] && b[0] == 0 {
      LStripKeepsValue(b[1..]);
      FromBytesConcat(b[..1], b[1..]);
      assert b == b[..1] + b[1..];
      assert FromBytes(b[..1]) == 0 by {
        assert b[..1][..0] == [];
      }
    }
  }

  /** A Python slice: the bounds are clamped, never an error. */
  function Slice(b: Bytes, from: nat, to: nat): Bytes {
    var hi := if to < |b| then to else |b|;
    if from >= hi then [] else b[from..hi]
  }
}
