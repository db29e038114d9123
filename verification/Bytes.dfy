/** Bytes, big-endian numbers, and the bounds-checked reader all decoders share. */
module Bytes {
  import opened Wrappers

  type byte = x: int | 0 <= x < 256

  /** The number whose big-endian digits are `s`. */
  function BeNat(s: seq<byte>): nat {
    if s == [] then 0 else BeNat(s[..|s| - 1]) * 256 + s[|s| - 1]
  }

  /** The low `width` bytes of `n`, most significant first. */
  function PutBe(n: nat, width: nat): (s: seq<byte>)
    ensures |s| == width
  {
    if width == 0 then [] else PutBe(n / 256, width - 1) + [n % 256]
  }

  function Pow256(width: nat): (p: nat)
    ensures p > 0
  {
    if width == 0 then 1 else 256 * Pow256(width - 1)
  }

  lemma {:induction false} BeNatBound(s: seq<byte>)
    ensures BeNat(s) < Pow256(|s|)
  {
    if s != [] {
      BeNatBound(s[..|s| - 1]);
    }
  }

  /** Reading back a written number keeps exactly its low bytes. */
  lemma {:induction false} PutBeRoundTrip(n: nat, width: nat)
    ensures BeNat(PutBe(n, width)) == n % Pow256(width)
  {
    if width > 0 {
      PutBeRoundTrip(n / 256, width - 1);
      var s := PutBe(n, width);
      assert s[..width - 1] == PutBe(n / 256, width - 1);
      ModSplit(n, Pow256(width - 1));
    }
  }

  lemma ModSplit(n: nat, p: nat)
    requires p > 0
    ensures (n / 256) % p * 256 + n % 256 == n % (256 * p)
  {
    var q, r := (n / 256) / p, (n / 256) % p;
    assert n / 256 == q * p + r;
    var low := r * 256 + n % 256;
    assert n == q * (256 * p) + low;
    assert r <= p - 1;
    assert r * 256 <= (p - 1) * 256;
    assert 0 <= low < 256 * p;
    DivModUnique(n, 256 * p, q, low);
  }

  lemma DivModUnique(n: int, d: nat, q: int, r: nat)
    requires d > 0 && r < d && n == q * d + r
    ensures n / d == q && n % d == r
  {
    var q', r' := n / d, n % d;
    assert n == q' * d + r';
    SmallMultiple(q - q', d);
  }

  lemma SmallMultiple(k: int, d: int)
    requires -d < k * d < d
    ensures k == 0
  {
    assert k >= 1 ==> (k - 1) * d >= 0;
    assert k <= -1 ==> (-1 - k) * d >= 0;
  }

  predicate IsU16(n: int) {
    0 <= n < 0x1_0000
  }

  function PutU16(n: nat): (s: seq<byte>)
    requires IsU16(n)
    ensures |s| == 2
  {
    [n / 256, n % 256]
  }

  function U16At(data: seq<byte>, pos: nat): (n: nat)
    requires pos + 2 <= |data|
    ensures IsU16(n)
  {
    256 * data[pos] as int + data[pos + 1]
  }

  /** `enc` stands in `data` at `pos`. */
  predicate At(data: seq<byte>, pos: nat, enc: seq<byte>) {
    pos + |enc| <= |data| && data[pos..pos + |enc|] == enc
  }

  lemma AtSplit(data: seq<byte>, pos: nat, a: seq<byte>, b: seq<byte>)
    requires At(data, pos, a + b)
    ensures At(data, pos, a) && At(data, pos + |a|, b)
  {
    var whole := data[pos..pos + |a + b|];
    assert data[pos..pos + |a|] == whole[..|a|] == a;
    assert data[pos + |a|..pos + |a| + |b|] == whole[|a|..] == b;
  }

  lemma AtU16(data: seq<byte>, pos: nat, n: nat)
    requires IsU16(n) && At(data, pos, PutU16(n))
    ensures U16At(data, pos) == n
  {
    var enc := data[pos..pos + 2];
    assert enc[0] == data[pos] && enc[1] == data[pos + 1];
  }

  lemma AtByte(data: seq<byte>, pos: nat, b: byte)
    requires At(data, pos, [b])
    ensures data[pos] == b
  {
    assert data[pos..pos + 1][0] == b;
  }

  /** Cursor over one frame. A read that does not fit fails and leaves the cursor alone. */
  class BeReader {
    const data: seq<byte>
    var pos: nat

    ghost predicate Valid()
      reads this
    {
      pos <= |data|
    }

    constructor (data: seq<byte>)
      ensures Valid() && this.data == data && pos == 0
    {
      this.data := data;
      pos := 0;
    }

    function Remaining(): nat
      requires Valid()
      reads this
    {
      |data| - pos
    }

    method U8() returns (r: Result<byte>)
      requires Valid()
      modifies `pos
      ensures Valid()
      ensures if old(Remaining()) < 1 then r.Failure? && pos == old(pos)
              else r == Success(data[old(pos)]) && pos == old(pos) + 1
    {
      if Remaining() < 1 {
        return Failure;
      }
      r := Success(data[pos]);
      pos := pos + 1;
    }

    method U16() returns (r: Result<nat>)
      requires Valid()
      modifies `pos
      ensures Valid()
      ensures if old(Remaining()) < 2 then r.Failure? && pos == old(pos)
              else r == Success(U16At(data, old(pos))) && pos == old(pos) + 2
    {
      if Remaining() < 2 {
        return Failure;
      }
      r := Success(256 * data[pos] as int + data[pos + 1]);
      pos := pos + 2;
    }

    /** u32, u48 and u64 of the source are this read with width 4, 6 and 8. */
    method UBe(width: nat) returns (r: Result<nat>)
      requires Valid()
      modifies `pos
      ensures Valid()
      ensures if old(Remaining()) < width then r.Failure? && pos == old(pos)
              else r == Success(BeNat(data[old(pos)..old(pos) + width])) && pos == old(pos) + width
    {
      if Remaining() < width {
        return Failure;
      }
      var v := 0;
      for i := 0 to width
        invariant v == BeNat(data[pos..pos + i])
      {
        var s := data[pos..pos + i + 1];
        assert s[..|s| - 1] == data[pos..pos + i];
        v := v * 256 + data[pos + i] as int;
      }
      pos := pos + width;
      r := Success(v);
    }

    method Take(n: nat) returns (r: Result<seq<byte>>)
      requires Valid()
      modifies `pos
      ensures Valid()
      ensures if old(Remaining()) < n then r.Failure? && pos == old(pos)
              else r == Success(data[old(pos)..old(pos) + n]) && pos == old(pos) + n
    {
      if Remaining() < n {
        return Failure;
      }
      r := Success(data[pos..pos + n]);
      pos := pos + n;
    }

    method Skip(n: nat) returns (r: Result<()>)
      requires Valid()
      modifies `pos
      ensures Valid()
      ensures if old(Remaining()) < n then r.Failure? && pos == old(pos)
              else r.Success? && pos == old(pos) + n
    {
      if Remaining() < n {
        return Failure;
      }
      pos := pos + n;
      r := Success(());
    }
  }
}
