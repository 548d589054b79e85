/** The size classes of the kernel heap: log2_64 and the dispatch of __alloc and default_delete
    (os/mm/allocator.cc).  A 64-bit value is its sequence of bits, lowest first, so that shifts and
    `|` are stated bit by bit; the difference and the product of log2_64 are taken on the number. */
module SizeClass {
  type Bits = s: seq<bool> | |s| == 64 witness seq(64, i => false)

  function Shr(w: Bits, n: nat): (r: Bits) { seq(64, i => i + n < 64 && i >= 0 && w[i + n]) }

  function Or(a: Bits, b: Bits): (r: Bits) { seq(64, i requires 0 <= i < 64 => a[i] || b[i]) }

  function Pow2(k: nat): (p: nat)
    ensures p > 0
  {
    if k == 0 then 1 else 2 * Pow2(k - 1)
  }

  /** The number whose lowest n bits are those of w. */
  function Value(w: Bits, n: nat): (v: nat)
    requires n <= 64
  {
    if n == 0 then 0 else Value(w, n - 1) + (if w[n - 1] then Pow2(n - 1) else 0)
  }

  function Number(w: Bits): (v: nat) { Value(w, 64) }

  function BitsOf(v: nat): (w: Bits) { seq(64, i requires 0 <= i < 64 => v / Pow2(i) % 2 == 1) }

  /** tab64. */
  function Tab64(i: nat): (k: nat)
  {
    match i
    case 0 => 63 case 1 => 0 case 2 => 58 case 3 => 1
    case 4 => 59 case 5 => 47 case 6 => 53 case 7 => 2
    case 8 => 60 case 9 => 39 case 10 => 48 case 11 => 27
    case 12 => 54 case 13 => 33 case 14 => 42 case 15 => 3
    case 16 => 61 case 17 => 51 case 18 => 37 case 19 => 40
    case 20 => 49 case 21 => 18 case 22 => 28 case 23 => 20
    case 24 => 55 case 25 => 30 case 26 => 34 case 27 => 11
    case 28 => 43 case 29 => 14 case 30 => 22 case 31 => 4
    case 32 => 62 case 33 => 57 case 34 => 46 case 35 => 52
    case 36 => 38 case 37 => 26 case 38 => 32 case 39 => 41
    case 40 => 50 case 41 => 36 case 42 => 17 case 43 => 19
    case 44 => 29 case 45 => 10 case 46 => 13 case 47 => 21
    case 48 => 56 case 49 => 45 case 50 => 25 case 51 => 31
    case 52 => 35 case 53 => 16 case 54 => 9 case 55 => 12
    case 56 => 44 case 57 => 24 case 58 => 15 case 59 => 8
    case 60 => 23 case 61 => 7 case 62 => 6 case 63 => 5
    case _ => 0
  }

  /** Every bit below the highest one set. */
  function Smear(w: Bits): (r: Bits)
  {
    var v1 := Or(w, Shr(w, 1));
    var v2 := Or(v1, Shr(v1, 2));
    var v4 := Or(v2, Shr(v2, 4));
    var v8 := Or(v4, Shr(v4, 8));
    var v16 := Or(v8, Shr(v8, 16));
    Or(v16, Shr(v16, 32))
  }

  /** The de Bruijn multiplication modulo 2^64. */
  function Scale(v: nat): (r: nat) { v * 0x07ED_D5E5_9A4E_28C2 % 0x1_0000_0000_0000_0000 }

  /** log2_64. */
  function Log2(w: Bits): (l: nat)
  {
    var v := Smear(w);
    var top := Number(v) - Number(Shr(v, 1));
    if top < 0 then 0 else Tab64(Scale(top) / 0x400_0000_0000_0000)
  }

  predicate Highest(w: Bits, k: nat) { k < 64 && w[k] && forall i :: k < i < 64 ==> !w[i] }

  /** After a step the bits set are those with a set bit at most n above them. */
  predicate Covers(w: Bits, v: Bits, n: nat)
  {
    forall i :: 0 <= i < 64 ==> (v[i] <==> exists j :: i <= j < 64 && j < i + n && w[j])
  }

  lemma SmearStep(w: Bits, v: Bits, n: nat)
    requires Covers(w, v, n) && n > 0
    ensures Covers(w, Or(v, Shr(v, n)), 2 * n)
  {
    var r := Or(v, Shr(v, n));
    forall i | 0 <= i < 64 ensures r[i] <==> exists j :: i <= j < 64 && j < i + 2 * n && w[j] {
      assert r[i] <==> v[i] || (i + n < 64 && v[i + n]);
      if exists j :: i <= j < 64 && j < i + 2 * n && w[j] {
        var j :| i <= j < 64 && j < i + 2 * n && w[j];
        assert j < i + n || (i + n < 64 && i + n <= j < i + n + n);
      }
    }
  }

  lemma SmearCovers(w: Bits)
    ensures Covers(w, Smear(w), 64)
  {
    hide Covers, Or, Shr;
    CoversSelf(w);
    var v1 := Or(w, Shr(w, 1));
    SmearStep(w, w, 1);
    var v2 := Or(v1, Shr(v1, 2));
    SmearStep(w, v1, 2);
    var v4 := Or(v2, Shr(v2, 4));
    SmearStep(w, v2, 4);
    var v8 := Or(v4, Shr(v4, 8));
    SmearStep(w, v4, 8);
    var v16 := Or(v8, Shr(v8, 16));
    SmearStep(w, v8, 16);
    SmearStep(w, v16, 32);
  }

  lemma CoversSelf(w: Bits)
    ensures Covers(w, w, 1)
  {
    forall i | 0 <= i < 64 ensures w[i] <==> exists j :: i <= j < 64 && j < i + 1 && w[j] {
      if w[i] { assert i <= i < i + 1; }
    }
  }

  lemma SmearOnes(w: Bits, k: nat)
    requires Highest(w, k)
    ensures forall i :: 0 <= i < 64 ==> (Smear(w)[i] <==> i <= k)
  {
    hide Smear;
    SmearCovers(w);
  }

  lemma {:induction false} OnesValue(v: Bits, k: nat, n: nat)
    requires n <= 64 && k <= 64 && forall i :: 0 <= i < 64 ==> (v[i] <==> i < k)
    ensures Value(v, n) == Pow2(if n <= k then n else k) - 1
  {
    if n > 0 { OnesValue(v, k, n - 1); }
  }

  /** The smeared value minus its half is the highest bit alone. */
  lemma TopBit(w: Bits, k: nat)
    requires Highest(w, k)
    ensures Number(Smear(w)) - Number(Shr(Smear(w), 1)) == Pow2(k)
  {
    hide Smear;
    SmearOnes(w, k);
    var v := Smear(w);
    OnesValue(v, k + 1, 64);
    forall i | 0 <= i < 64 ensures Shr(v, 1)[i] <==> i < k { }
    OnesValue(Shr(v, 1), k, 64);
  }

  lemma {:induction false} ValueBound(w: Bits, n: nat)
    requires n <= 64
    ensures Value(w, n) < Pow2(n)
  {
    if n > 0 { ValueBound(w, n - 1); }
  }

  lemma {:induction false} ValueTop(w: Bits, k: nat, n: nat)
    requires k < n <= 64 && Highest(w, k)
    ensures Value(w, n) == Value(w, k) + Pow2(k)
  {
    if n > k + 1 { ValueTop(w, k, n - 1); }
  }

  lemma HighestExists(w: Bits)
    requires Number(w) > 0
    ensures exists k :: Highest(w, k)
  {
    SomeBit(w, 64);
  }

  lemma {:induction false} SomeBit(w: Bits, n: nat)
    requires n <= 64 && Value(w, n) > 0 && forall i :: n <= i < 64 ==> !w[i]
    ensures exists k :: Highest(w, k)
  {
    if n > 0 {
      if w[n - 1] { assert Highest(w, n - 1); } else { SomeBit(w, n - 1); }
    }
  }

  lemma {:induction false} BitsValue(v: nat, n: nat)
    requires n <= 64
    ensures Value(BitsOf(v), n) == v % Pow2(n)
  {
    if n > 0 {
      BitsValue(v, n - 1);
      ModStep(v, Pow2(n - 1));
    }
  }

  lemma ModStep(v: nat, p: nat)
    requires p > 0
    ensures v % (2 * p) == v % p + (if v / p % 2 == 1 then p else 0)
  {
    var q, r := v / p, v % p;
    assert v == q * p + r;
    var h, b := q / 2, q % 2;
    assert q == 2 * h + b;
    assert v == h * (2 * p) + (b * p + r) by {
      assert (2 * h + b) * p == h * (2 * p) + b * p;
    }
    DivUnique(v, 2 * p, h, b * p + r);
  }

  lemma DivUnique(v: nat, m: nat, h: nat, r: nat)
    requires m > 0 && v == h * m + r && r < m
    ensures v % m == r && v / m == h
  {
    var d := v / m - h;
    assert v == (v / m) * m + v % m;
    assert d * m == r - v % m;
    Multiple(d, m);
  }

  lemma Multiple(d: int, m: int)
    requires m > 0
    ensures d >= 1 ==> d * m >= m
    ensures d <= -1 ==> d * m <= -m
  {
  }

  // ------------------------------------------------------------ the table

  /** Twice a residue modulo 2^64. */
  function Twice(r: nat): (t: nat)
  {
    if 2 * r >= 0x1_0000_0000_0000_0000 then 2 * r - 0x1_0000_0000_0000_0000 else 2 * r
  }

  function Product(k: nat): (r: nat)
    ensures r < 0x1_0000_0000_0000_0000
  {
    if k == 0 then 0x07ED_D5E5_9A4E_28C2 else Twice(Product(k - 1))
  }

  lemma {:induction false} ProductIsScale(k: nat)
    ensures Scale(Pow2(k)) == Product(k)
  {
    if k > 0 {
      ProductIsScale(k - 1);
      var x := Pow2(k - 1) * 0x07ED_D5E5_9A4E_28C2;
      assert Pow2(k) * 0x07ED_D5E5_9A4E_28C2 == 2 * x;
      TwiceMod(x, 0x1_0000_0000_0000_0000);
    }
  }

  lemma TwiceMod(x: nat, m: nat)
    requires m > 0
    ensures 2 * x % m == (if 2 * (x % m) >= m then 2 * (x % m) - m else 2 * (x % m))
  {
    var q, r := x / m, x % m;
    assert x == q * m + r;
    if 2 * r >= m {
      assert 2 * x == (2 * q + 1) * m + (2 * r - m) by { assert (2 * q + 1) * m == 2 * (q * m) + m; }
      DivUnique(2 * x, m, 2 * q + 1, 2 * r - m);
    } else {
      assert 2 * x == (2 * q) * m + 2 * r by { assert (2 * q) * m == 2 * (q * m); }
      DivUnique(2 * x, m, 2 * q, 2 * r);
    }
  }

  predicate Found(r: nat, k: nat) { Tab64(r / 0x400_0000_0000_0000) == k }

  /** Good(k) says that the table inverts the multiplication at the k-th power of two. */
  predicate Good(k: nat) { Found(Product(k), k) }

  lemma Next(k: nat)
    ensures Product(k + 1) == Twice(Product(k))
  {
  }

  function Twice2(r: nat): (t: nat) { Twice(Twice(r)) }
  function Twice4(r: nat): (t: nat) { Twice2(Twice2(r)) }

  predicate Found2(r: nat, k: nat) { Found(r, k) && Found(Twice(r), k + 1) }

  /** Four entries of the table, from the k-th power of two on. */
  predicate Found4(r: nat, k: nat) { Found2(r, k) && Found2(Twice2(r), k + 2) }

  lemma Four(k: nat)
    requires Found4(Product(k), k)
    ensures Good(k) && Good(k + 1) && Good(k + 2) && Good(k + 3) && Product(k + 4) == Twice4(Product(k))
  {
    hide Product, Found, Twice;
    Next(k);
    Next(k + 1);
    Next(k + 2);
    Next(k + 3);
  }

  lemma Row0()
    ensures Found4(0x07ED_D5E5_9A4E_28C2, 0) && Twice4(0x07ED_D5E5_9A4E_28C2) == 0x7EDD_5E59_A4E2_8C20
  {
    assert Twice(0x07ED_D5E5_9A4E_28C2) == 0x0FDB_ABCB_349C_5184;
    assert Twice(0x0FDB_ABCB_349C_5184) == 0x1FB7_5796_6938_A308;
    assert Twice(0x1FB7_5796_6938_A308) == 0x3F6E_AF2C_D271_4610;
    assert Twice(0x3F6E_AF2C_D271_4610) == 0x7EDD_5E59_A4E2_8C20;
  }

  lemma Row1()
    ensures Found4(0x7EDD_5E59_A4E2_8C20, 4) && Twice4(0x7EDD_5E59_A4E2_8C20) == 0xEDD5_E59A_4E28_C200
  {
    assert Twice(0x7EDD_5E59_A4E2_8C20) == 0xFDBA_BCB3_49C5_1840;
    assert Twice(0xFDBA_BCB3_49C5_1840) == 0xFB75_7966_938A_3080;
    assert Twice(0xFB75_7966_938A_3080) == 0xF6EA_F2CD_2714_6100;
    assert Twice(0xF6EA_F2CD_2714_6100) == 0xEDD5_E59A_4E28_C200;
  }

  lemma Row2()
    ensures Found4(0xEDD5_E59A_4E28_C200, 8) && Twice4(0xEDD5_E59A_4E28_C200) == 0xDD5E_59A4_E28C_2000
  {
    assert Twice(0xEDD5_E59A_4E28_C200) == 0xDBAB_CB34_9C51_8400;
    assert Twice(0xDBAB_CB34_9C51_8400) == 0xB757_9669_38A3_0800;
    assert Twice(0xB757_9669_38A3_0800) == 0x6EAF_2CD2_7146_1000;
    assert Twice(0x6EAF_2CD2_7146_1000) == 0xDD5E_59A4_E28C_2000;
  }

  lemma Row3()
    ensures Found4(0xDD5E_59A4_E28C_2000, 12) && Twice4(0xDD5E_59A4_E28C_2000) == 0xD5E5_9A4E_28C2_0000
  {
    assert Twice(0xDD5E_59A4_E28C_2000) == 0xBABC_B349_C518_4000;
    assert Twice(0xBABC_B349_C518_4000) == 0x7579_6693_8A30_8000;
    assert Twice(0x7579_6693_8A30_8000) == 0xEAF2_CD27_1461_0000;
    assert Twice(0xEAF2_CD27_1461_0000) == 0xD5E5_9A4E_28C2_0000;
  }

  lemma Row4()
    ensures Found4(0xD5E5_9A4E_28C2_0000, 16) && Twice4(0xD5E5_9A4E_28C2_0000) == 0x5E59_A4E2_8C20_0000
  {
    assert Twice(0xD5E5_9A4E_28C2_0000) == 0xABCB_349C_5184_0000;
    assert Twice(0xABCB_349C_5184_0000) == 0x5796_6938_A308_0000;
    assert Twice(0x5796_6938_A308_0000) == 0xAF2C_D271_4610_0000;
    assert Twice(0xAF2C_D271_4610_0000) == 0x5E59_A4E2_8C20_0000;
  }

  lemma Row5()
    ensures Found4(0x5E59_A4E2_8C20_0000, 20) && Twice4(0x5E59_A4E2_8C20_0000) == 0xE59A_4E28_C200_0000
  {
    assert Twice(0x5E59_A4E2_8C20_0000) == 0xBCB3_49C5_1840_0000;
    assert Twice(0xBCB3_49C5_1840_0000) == 0x7966_938A_3080_0000;
    assert Twice(0x7966_938A_3080_0000) == 0xF2CD_2714_6100_0000;
    assert Twice(0xF2CD_2714_6100_0000) == 0xE59A_4E28_C200_0000;
  }

  lemma Row6()
    ensures Found4(0xE59A_4E28_C200_0000, 24) && Twice4(0xE59A_4E28_C200_0000) == 0x59A4_E28C_2000_0000
  {
    assert Twice(0xE59A_4E28_C200_0000) == 0xCB34_9C51_8400_0000;
    assert Twice(0xCB34_9C51_8400_0000) == 0x9669_38A3_0800_0000;
    assert Twice(0x9669_38A3_0800_0000) == 0x2CD2_7146_1000_0000;
    assert Twice(0x2CD2_7146_1000_0000) == 0x59A4_E28C_2000_0000;
  }

  lemma Row7()
    ensures Found4(0x59A4_E28C_2000_0000, 28) && Twice4(0x59A4_E28C_2000_0000) == 0x9A4E_28C2_0000_0000
  {
    assert Twice(0x59A4_E28C_2000_0000) == 0xB349_C518_4000_0000;
    assert Twice(0xB349_C518_4000_0000) == 0x6693_8A30_8000_0000;
    assert Twice(0x6693_8A30_8000_0000) == 0xCD27_1461_0000_0000;
    assert Twice(0xCD27_1461_0000_0000) == 0x9A4E_28C2_0000_0000;
  }

  lemma Row8()
    ensures Found4(0x9A4E_28C2_0000_0000, 32) && Twice4(0x9A4E_28C2_0000_0000) == 0xA4E2_8C20_0000_0000
  {
    assert Twice(0x9A4E_28C2_0000_0000) == 0x349C_5184_0000_0000;
    assert Twice(0x349C_5184_0000_0000) == 0x6938_A308_0000_0000;
    assert Twice(0x6938_A308_0000_0000) == 0xD271_4610_0000_0000;
    assert Twice(0xD271_4610_0000_0000) == 0xA4E2_8C20_0000_0000;
  }

  lemma Row9()
    ensures Found4(0xA4E2_8C20_0000_0000, 36) && Twice4(0xA4E2_8C20_0000_0000) == 0x4E28_C200_0000_0000
  {
    assert Twice(0xA4E2_8C20_0000_0000) == 0x49C5_1840_0000_0000;
    assert Twice(0x49C5_1840_0000_0000) == 0x938A_3080_0000_0000;
    assert Twice(0x938A_3080_0000_0000) == 0x2714_6100_0000_0000;
    assert Twice(0x2714_6100_0000_0000) == 0x4E28_C200_0000_0000;
  }

  lemma Row10()
    ensures Found4(0x4E28_C200_0000_0000, 40) && Twice4(0x4E28_C200_0000_0000) == 0xE28C_2000_0000_0000
  {
    assert Twice(0x4E28_C200_0000_0000) == 0x9C51_8400_0000_0000;
    assert Twice(0x9C51_8400_0000_0000) == 0x38A3_0800_0000_0000;
    assert Twice(0x38A3_0800_0000_0000) == 0x7146_1000_0000_0000;
    assert Twice(0x7146_1000_0000_0000) == 0xE28C_2000_0000_0000;
  }

  lemma Row11()
    ensures Found4(0xE28C_2000_0000_0000, 44) && Twice4(0xE28C_2000_0000_0000) == 0x28C2_0000_0000_0000
  {
    assert Twice(0xE28C_2000_0000_0000) == 0xC518_4000_0000_0000;
    assert Twice(0xC518_4000_0000_0000) == 0x8A30_8000_0000_0000;
    assert Twice(0x8A30_8000_0000_0000) == 0x1461_0000_0000_0000;
    assert Twice(0x1461_0000_0000_0000) == 0x28C2_0000_0000_0000;
  }

  lemma Row12()
    ensures Found4(0x28C2_0000_0000_0000, 48) && Twice4(0x28C2_0000_0000_0000) == 0x8C20_0000_0000_0000
  {
    assert Twice(0x28C2_0000_0000_0000) == 0x5184_0000_0000_0000;
    assert Twice(0x5184_0000_0000_0000) == 0xA308_0000_0000_0000;
    assert Twice(0xA308_0000_0000_0000) == 0x4610_0000_0000_0000;
    assert Twice(0x4610_0000_0000_0000) == 0x8C20_0000_0000_0000;
  }

  lemma Row13()
    ensures Found4(0x8C20_0000_0000_0000, 52) && Twice4(0x8C20_0000_0000_0000) == 0xC200_0000_0000_0000
  {
    assert Twice(0x8C20_0000_0000_0000) == 0x1840_0000_0000_0000;
    assert Twice(0x1840_0000_0000_0000) == 0x3080_0000_0000_0000;
    assert Twice(0x3080_0000_0000_0000) == 0x6100_0000_0000_0000;
    assert Twice(0x6100_0000_0000_0000) == 0xC200_0000_0000_0000;
  }

  lemma Row14()
    ensures Found4(0xC200_0000_0000_0000, 56) && Twice4(0xC200_0000_0000_0000) == 0x2000_0000_0000_0000
  {
    assert Twice(0xC200_0000_0000_0000) == 0x8400_0000_0000_0000;
    assert Twice(0x8400_0000_0000_0000) == 0x0800_0000_0000_0000;
    assert Twice(0x0800_0000_0000_0000) == 0x1000_0000_0000_0000;
    assert Twice(0x1000_0000_0000_0000) == 0x2000_0000_0000_0000;
  }

  lemma Row15()
    ensures Found4(0x2000_0000_0000_0000, 60) && Twice4(0x2000_0000_0000_0000) == 0x0000_0000_0000_0000
  {
    assert Twice(0x2000_0000_0000_0000) == 0x4000_0000_0000_0000;
    assert Twice(0x4000_0000_0000_0000) == 0x8000_0000_0000_0000;
    assert Twice(0x8000_0000_0000_0000) == 0x0000_0000_0000_0000;
    assert Twice(0x0000_0000_0000_0000) == 0x0000_0000_0000_0000;
  }

  lemma Table(k: nat)
    requires k < 64
    ensures Good(k)
  {
    hide Good, Product, Found4, Twice4;
    Start();
    Row0(); Four(0);
    Row1(); Four(4);
    Row2(); Four(8);
    Row3(); Four(12);
    Row4(); Four(16);
    Row5(); Four(20);
    Row6(); Four(24);
    Row7(); Four(28);
    Row8(); Four(32);
    Row9(); Four(36);
    Row10(); Four(40);
    Row11(); Four(44);
    Row12(); Four(48);
    Row13(); Four(52);
    Row14(); Four(56);
    Row15(); Four(60);
  }

  lemma Start()
    ensures Product(0) == 0x07ED_D5E5_9A4E_28C2
  {
  }

  /** log2_64 finds the highest bit, that is, the floor of the logarithm. */
  lemma Log2IsFloor(w: Bits)
    requires Number(w) > 0
    ensures Log2(w) < 64 && Pow2(Log2(w)) <= Number(w) < 2 * Pow2(Log2(w))
  {
    hide Smear, Tab64, Scale, Product, Value, Shr;
    HighestExists(w);
    var k: nat :| Highest(w, k);
    TopBit(w, k);
    ProductIsScale(k);
    Table(k);
    ValueTop(w, k, 64);
    ValueBound(w, k);
  }

  // ------------------------------------------------------------ the dispatch

  datatype Dispatch = Large | Class(c: nat) | Halt

  predicate IsClass(c: nat) { c == 8 || c == 16 || c == 32 || c == 64 || c == 128 || c == 256 || c == 512 || c == 1024 }

  /** __alloc: which allocator serves a request; size - 1 wraps around for 0. */
  function ClassOf(size: nat): (d: Dispatch)
  {
    if size > 1024 then Large
    else if size == 1 then Class(8)
    else
      match Log2(BitsOf(if size == 0 then 0xFFFF_FFFF_FFFF_FFFF else size - 1))
      case 0 => Class(8) case 1 => Class(8) case 2 => Class(8)
      case 3 => Class(16) case 4 => Class(32) case 5 => Class(64) case 6 => Class(128)
      case 7 => Class(256) case 8 => Class(512) case 9 => Class(1024)
      case _ => Halt
  }

  /** default_delete: which allocator takes an object back, from the header of its page. */
  function HeaderClass(h: nat): (d: Dispatch)
  {
    match h / 8
    case 1 => Class(8) case 2 => Class(16) case 4 => Class(32) case 8 => Class(64)
    case 16 => Class(128) case 32 => Class(256) case 64 => Class(512) case 128 => Class(1024)
    case _ => Halt
  }

  lemma {:induction false} Pow2Grows(a: nat, b: nat)
    requires a <= b
    ensures Pow2(a) <= Pow2(b)
  {
    if a < b { Pow2Grows(a, b - 1); }
  }

  lemma SmallPowers()
    ensures Pow2(0) == 1 && Pow2(1) == 2 && Pow2(2) == 4 && Pow2(3) == 8 && Pow2(4) == 16 && Pow2(5) == 32
    ensures Pow2(6) == 64 && Pow2(7) == 128 && Pow2(8) == 256 && Pow2(9) == 512 && Pow2(10) == 1024
  {
  }

  lemma Sixteen()
    ensures Pow2(16) == 0x1_0000
  {
    SmallPowers();
    assert Pow2(11) == 2048 && Pow2(12) == 4096 && Pow2(13) == 8192;
    assert Pow2(14) == 2 * Pow2(13) && Pow2(15) == 2 * Pow2(14);
  }

  lemma {:induction false} WordSize(n: nat)
    requires n <= 48
    ensures Pow2(n + 16) == Pow2(n) * 0x1_0000
  {
    if n > 0 { WordSize(n - 1); } else { Sixteen(); }
  }

  lemma NumberOf(v: nat)
    requires v < 0x1_0000_0000_0000_0000
    ensures Number(BitsOf(v)) == v
  {
    hide BitsOf, Value;
    BitsValue(v, 64);
    SmallPowers();
    WordSize(0);
    WordSize(16);
    WordSize(32);
    WordSize(48);
    SmallMod(v, Pow2(64));
  }

  lemma SmallMod(v: nat, m: nat)
    requires v < m
    ensures v % m == v
  {
  }

  /** The logarithm of a number below 2^64. */
  lemma Log2Of(v: nat)
    requires 0 < v < 0x1_0000_0000_0000_0000
    ensures var l := Log2(BitsOf(v)); Pow2(l) <= v < 2 * Pow2(l)
  {
    hide Log2, BitsOf;
    NumberOf(v);
    Log2IsFloor(BitsOf(v));
  }

  /** A request of 1 to 1024 bytes gets the smallest class that holds it; a request for nothing halts. */
  lemma ClassFits(size: nat)
    requires size <= 1024
    ensures size == 0 ==> ClassOf(size) == Halt
    ensures size > 0 ==> ClassOf(size).Class? && IsClass(ClassOf(size).c) && size <= ClassOf(size).c
    ensures size > 0 ==> (ClassOf(size).c == 8 || ClassOf(size).c < 2 * size)
  {
    hide Log2, BitsOf, Pow2;
    SmallPowers();
    var v := if size == 0 then 0xFFFF_FFFF_FFFF_FFFF else size - 1;
    if v > 0 {
      Log2Of(v);
      var l := Log2(BitsOf(v));
      if l <= 9 { Pow2Grows(l, 9); }
      if l >= 10 { Pow2Grows(10, l); }
    }
  }

  /** delete finds the class that new used. */
  lemma DeleteFindsClass(c: nat)
    requires IsClass(c)
    ensures HeaderClass(c) == Class(c)
  {
  }
}
