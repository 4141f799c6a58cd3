/** Bytes, `size_t`, and the two byte orders of a fixed-width integer. */
module Bytes {
  type byte = x: int | 0 <= x < 256

  const SIZE_MAX := 0xFFFF_FFFF_FFFF_FFFF
  const U32_MAX := 0xFFFF_FFFF

  /** `std::size_t` and `std::uint64_t`: every value stored in one is a proof that it did not wrap. */
  type Size = x: int | 0 <= x <= SIZE_MAX

  function Pow256(k: nat): (p: nat)
    ensures p >= 1
  {
    if k == 0 then 1 else 256 * Pow256(k - 1)
  }

  /** The unsigned integer stored in the k bytes from `pos`. */
  function Load(bytes: seq<byte>, pos: nat, k: nat, little: bool): (n: nat)
    requires pos + k <= |bytes|
    ensures n < Pow256(k)
    decreases k, bytes
  {
    if k == 0 then 0
    else if little then bytes[pos] + 256 * Load(bytes, pos + 1, k - 1, little)
    else 256 * Load(bytes, pos, k - 1, little) + bytes[pos + k - 1]
  }

  function Store(n: nat, k: nat, little: bool): (bs: seq<byte>)
    ensures |bs| == k
    decreases k, n
  {
    if k == 0 then []
    else if little then [n % 256] + Store(n / 256, k - 1, little)
    else Store(n / 256, k - 1, little) + [n % 256]
  }

  /** `part` is what `bytes` holds from `pos` on. */
  ghost predicate At(bytes: seq<byte>, pos: nat, part: seq<byte>) {
    pos + |part| <= |bytes| && forall i :: 0 <= i < |part| ==> bytes[pos + i] == part[i]
  }

  lemma {:induction false} AtSplit(bytes: seq<byte>, pos: nat, a: seq<byte>, b: seq<byte>)
    requires At(bytes, pos, a + b)
    ensures At(bytes, pos, a) && At(bytes, pos + |a|, b)
  {
    forall i | 0 <= i < |a|
      ensures bytes[pos + i] == a[i]
    {
      assert (a + b)[i] == a[i];
    }
    forall i | 0 <= i < |b|
      ensures bytes[pos + |a| + i] == b[i]
    {
      assert bytes[pos + (|a| + i)] == (a + b)[|a| + i];
    }
  }

  lemma {:induction false} AtSlice(bytes: seq<byte>, pos: nat, part: seq<byte>)
    requires At(bytes, pos, part)
    ensures bytes[pos..pos + |part|] == part
  {
  }

  lemma {:induction false} AtJoin(bytes: seq<byte>, pos: nat, a: seq<byte>, b: seq<byte>)
    requires At(bytes, pos, a) && At(bytes, pos + |a|, b)
    ensures At(bytes, pos, a + b)
  {
    forall i | 0 <= i < |a + b|
      ensures bytes[pos + i] == (a + b)[i]
    {
      assert i >= |a| ==> bytes[pos + |a| + (i - |a|)] == b[i - |a|];
    }
  }

  lemma {:induction false} AtSnoc(bytes: seq<byte>, pos: nat, part: seq<byte>, last: byte)
    requires At(bytes, pos, part + [last])
    ensures At(bytes, pos, part) && pos + |part| < |bytes| && bytes[pos + |part|] == last
  {
    AtSplit(bytes, pos, part, [last]);
    assert bytes[pos + |part| + 0] == [last][0];
  }

  /** Loading what was stored in the same byte order gives back every value of the width. */
  lemma {:induction false} LoadStored(bytes: seq<byte>, pos: nat, n: nat, k: nat, little: bool)
    requires n < Pow256(k) && At(bytes, pos, Store(n, k, little))
    ensures Load(bytes, pos, k, little) == n
    decreases k
  {
    if k > 0 {
      if little {
        AtSplit(bytes, pos, [n % 256], Store(n / 256, k - 1, little));
        assert bytes[pos + 0] == [n % 256][0];
        LoadStored(bytes, pos + 1, n / 256, k - 1, little);
      } else {
        AtSplit(bytes, pos, Store(n / 256, k - 1, little), [n % 256]);
        assert bytes[pos + (k - 1) + 0] == [n % 256][0];
        LoadStored(bytes, pos, n / 256, k - 1, little);
      }
    }
  }

  lemma {:induction false} StoreLoaded(bytes: seq<byte>, pos: nat, k: nat)
    requires pos + k <= |bytes|
    ensures At(bytes, pos, Store(Load(bytes, pos, k, true), k, true))
    decreases k
  {
    if k > 0 {
      var n, rest := Load(bytes, pos, k, true), Load(bytes, pos + 1, k - 1, true);
      StoreLoaded(bytes, pos + 1, k - 1);
      assert n % 256 == bytes[pos] && n / 256 == rest;
      var tail := Store(rest, k - 1, true);
      assert Store(n, k, true) == [bytes[pos]] + tail;
      forall i | 0 <= i < k
        ensures bytes[pos + i] == ([bytes[pos]] + tail)[i]
      {
        assert i > 0 ==> bytes[pos + 1 + (i - 1)] == tail[i - 1];
      }
    }
  }

  lemma {:induction false} LoadLittleSnoc(bytes: seq<byte>, pos: nat, k: nat)
    requires pos + k < |bytes|
    ensures Load(bytes, pos, k + 1, true) == Load(bytes, pos, k, true) + bytes[pos + k] * Pow256(k)
    decreases k
  {
    if k > 0 {
      LoadLittleSnoc(bytes, pos + 1, k - 1);
      ShiftUp(bytes[pos + k], Pow256(k - 1));
    }
  }

  lemma {:induction false} ShiftUp(b: nat, p: nat)
    ensures b * (256 * p) == 256 * (b * p)
  {
  }

  lemma {:induction false} LoadBigCons(bytes: seq<byte>, pos: nat, k: nat)
    requires pos + k < |bytes|
    ensures Load(bytes, pos, k + 1, false) == bytes[pos] * Pow256(k) + Load(bytes, pos + 1, k, false)
    decreases k
  {
    if k > 0 {
      LoadBigCons(bytes, pos, k - 1);
      ShiftUp(bytes[pos], Pow256(k - 1));
    }
  }

  /** The accumulating loop of `load64`: byte i from the low end contributes data[i] * 256^i. */
  method Load64(data: seq<byte>, little: bool) returns (value: nat)
    requires |data| == 8
    ensures value == Load(data, 0, 8, little)
    ensures value <= SIZE_MAX
  {
    value := 0;
    var scale := 1;
    for i := 0 to 8
      invariant scale == Pow256(i)
      invariant value == if little then Load(data, 0, i, true) else Load(data, 8 - i, i, false)
    {
      var next: byte;
      if little {
        next := data[i];
        LoadLittleSnoc(data, 0, i);
      } else {
        next := data[7 - i];
        LoadBigCons(data, 7 - i, i);
      }
      value := value + next * scale;
      scale := scale * 256;
    }
    Pow256At8();
  }

  /** A view's bytes load like the bytes it views. */
  lemma {:induction false} LoadView(bytes: seq<byte>, from: nat, size: nat, pos: nat, k: nat, little: bool)
    requires from + size <= |bytes| && pos + k <= size
    ensures Load(bytes[from..from + size], pos, k, little) == Load(bytes, from + pos, k, little)
    decreases k
  {
    if k > 0 {
      LoadView(bytes, from, size, if little then pos + 1 else pos, k - 1, little);
    }
  }

  lemma {:induction false} Pow256At8()
    ensures Pow256(1) == 0x100 && Pow256(2) == 0x1_0000
    ensures Pow256(4) == 0x1_0000_0000 && Pow256(8) == SIZE_MAX + 1
  {
    assert Pow256(3) == 0x100_0000;
    assert Pow256(5) == 0x100_0000_0000;
    assert Pow256(6) == 0x1_0000_0000_0000;
    assert Pow256(7) == 0x100_0000_0000_0000;
  }

  // ----- loads as sums -----

  function N(b: seq<byte>, i: nat): int
    requires i < |b|
  {
    b[i]
  }

  /** Bytes from `i` on as an integer, the first byte being the least. */
  function Low2(b: seq<byte>, i: nat): nat
    requires i + 2 <= |b|
  {
    N(b, i) + 0x100 * N(b, i + 1)
  }

  function Low4(b: seq<byte>, i: nat): nat
    requires i + 4 <= |b|
  {
    N(b, i) + 0x100 * N(b, i + 1) + 0x1_0000 * N(b, i + 2) + 0x100_0000 * N(b, i + 3)
  }

  function Low8(b: seq<byte>, i: nat): nat
    requires i + 8 <= |b|
  {
    Low4(b, i) + 0x1_0000_0000 * Low4(b, i + 4)
  }

  /** Bytes from `i` on as an integer, the first byte being the greatest. */
  function High2(b: seq<byte>, i: nat): nat
    requires i + 2 <= |b|
  {
    0x100 * N(b, i) + N(b, i + 1)
  }

  function High4(b: seq<byte>, i: nat): nat
    requires i + 4 <= |b|
  {
    0x100_0000 * N(b, i) + 0x1_0000 * N(b, i + 1) + 0x100 * N(b, i + 2) + N(b, i + 3)
  }

  function High8(b: seq<byte>, i: nat): nat
    requires i + 8 <= |b|
  {
    0x1_0000_0000 * High4(b, i) + High4(b, i + 4)
  }

  lemma {:induction false} LoadIsSum(b: seq<byte>, i: nat)
    ensures i + 1 <= |b| ==> Load(b, i, 1, true) == Load(b, i, 1, false) == b[i]
    ensures i + 2 <= |b| ==> Load(b, i, 2, true) == Low2(b, i) && Load(b, i, 2, false) == High2(b, i)
    ensures i + 4 <= |b| ==> Load(b, i, 4, true) == Low4(b, i) && Load(b, i, 4, false) == High4(b, i)
  {
    if i + 4 <= |b| {
      assert Load(b, i + 2, 2, true) == N(b, i + 2) + 0x100 * N(b, i + 3);
      assert Load(b, i, 2, false) == 0x100 * N(b, i) + N(b, i + 1);
      assert Load(b, i, 3, false) == 0x100 * Load(b, i, 2, false) + b[i + 2];
    }
  }

  lemma {:induction false} LoadIsSum8(b: seq<byte>, i: nat)
    requires i + 8 <= |b|
    ensures Load(b, i, 8, true) == Low8(b, i) && Load(b, i, 8, false) == High8(b, i)
  {
    LoadIsSum(b, i);
    LoadIsSum(b, i + 4);
    LowHalves(b, i);
    HighHalves(b, i);
  }

  lemma {:induction false} LowHalves(b: seq<byte>, i: nat)
    requires i + 8 <= |b|
    ensures Load(b, i, 8, true) == Load(b, i, 4, true) + 0x1_0000_0000 * Load(b, i + 4, 4, true)
  {
    assert Load(b, i + 3, 5, true) == b[i + 3] + 0x100 * Load(b, i + 4, 4, true);
    assert Load(b, i + 2, 6, true) == b[i + 2] + 0x100 * Load(b, i + 3, 5, true);
    assert Load(b, i + 1, 7, true) == b[i + 1] + 0x100 * Load(b, i + 2, 6, true);
    LoadIsSum(b, i);
  }

  lemma {:induction false} HighHalves(b: seq<byte>, i: nat)
    requires i + 8 <= |b|
    ensures Load(b, i, 8, false) == 0x1_0000_0000 * Load(b, i, 4, false) + Load(b, i + 4, 4, false)
  {
    assert Load(b, i, 5, false) == 0x100 * Load(b, i, 4, false) + b[i + 4];
    assert Load(b, i, 6, false) == 0x100 * Load(b, i, 5, false) + b[i + 5];
    assert Load(b, i, 7, false) == 0x100 * Load(b, i, 6, false) + b[i + 6];
    LoadIsSum(b, i + 4);
  }
}
