/** Powers, and why the buffers of the Base58 codec are large enough. */
module Powers {

  function Pow(x: nat, k: nat): nat { if k == 0 then 1 else x * Pow(x, k - 1) }

  lemma {:induction false} PowAdd(x: nat, a: nat, b: nat)
    ensures Pow(x, a + b) == Pow(x, a) * Pow(x, b)
  {
    if a > 0 {
      PowAdd(x, a - 1, b);
      Assoc(x, Pow(x, a - 1), Pow(x, b));
    }
  }

  lemma {:induction false} Assoc(x: nat, y: nat, z: nat)
    ensures x * (y * z) == (x * y) * z
  {}

  lemma {:induction false} PowMul(x: nat, a: nat, b: nat)
    ensures Pow(x, a * b) == Pow(Pow(x, a), b)
  {
    if b == 0 {
      assert a * b == 0;
    } else {
      PowMul(x, a, b - 1);
      assert a * b == a + a * (b - 1);
      PowAdd(x, a, a * (b - 1));
    }
  }

  lemma {:induction false} PowPositive(x: nat, k: nat)
    requires x > 0
    ensures Pow(x, k) > 0
  {
    if k > 0 {
      PowPositive(x, k - 1);
    }
  }

  lemma {:induction false} MulLess(a: nat, b: nat, c: nat, d: nat)
    requires a <= b && c <= d
    ensures a * c <= b * d
    ensures a < b && 0 < d ==> a * c < b * d
  {
    assert a * c <= b * c <= b * d;
    if a < b && 0 < d {
      assert a * d < b * d;
      assert a * c <= a * d;
    }
  }

  lemma {:induction false} PowBase(x: nat, y: nat, k: nat)
    requires x <= y && y > 0
    ensures Pow(x, k) <= Pow(y, k)
    ensures x < y && k > 0 ==> Pow(x, k) < Pow(y, k)
  {
    if k > 0 {
      PowBase(x, y, k - 1);
      PowPositive(y, k - 1);
      MulLess(x, y, Pow(x, k - 1), Pow(y, k - 1));
    }
  }

  lemma {:induction false} PowExponent(x: nat, a: nat, b: nat)
    requires x > 0 && a <= b
    ensures Pow(x, a) <= Pow(x, b)
  {
    if a < b {
      PowExponent(x, a, b - 1);
      PowPositive(x, b - 1);
      MulLess(1, x, Pow(x, b - 1), Pow(x, b - 1));
    }
  }

  /** If x^p <= y^q, then x^b <= y^n as soon as p n >= q b. */
  lemma {:induction false} RatioBound(x: nat, y: nat, p: nat, q: nat, b: nat, n: nat)
    requires x > 0 && y > 0 && p > 0 && Pow(x, p) <= Pow(y, q) && Mul(p, n) >= Mul(q, b)
    ensures Pow(x, b) <= Pow(y, n)
  {
    hide Pow, Mul;
    PowPow(y, n, p);
    PowPow(x, b, p);
    PowPow(y, q, b);
    PowPow(x, p, b);
    PowPositive(y, q);
    PowExponent(y, Mul(q, b), Mul(p, n));
    PowBase(Pow(x, p), Pow(y, q), b);
    PowRoot(Pow(x, b), Pow(y, n), p);
  }

  /** Products as such, kept away from arithmetic. */
  function Mul(a: nat, b: nat): nat { a * b }

  lemma {:induction false} PowPow(x: nat, a: nat, b: nat)
    ensures Mul(a, b) == Mul(b, a) && Pow(x, Mul(a, b)) == Pow(Pow(x, a), b)
  {
    hide Pow;
    PowMul(x, a, b);
  }

  lemma {:induction false} PowRoot(u: nat, v: nat, p: nat)
    requires p > 0 && Pow(u, p) <= Pow(v, p)
    ensures u <= v
  {
    hide Pow;
    if v < u {
      PowBase(v, u, p);
    }
  }

  /** log 58 / log 256 < 52 / 71 < 733 / 1000 */
  lemma {:induction false} Key58()
    ensures Pow(58, 71) <= Pow(256, 52)
  {
    hide Pow;
    PowFirst(58);
    PowFirst(256);
    assert Pow(58, 1) == 58;
    PowAdd(58, 1, 1);
    assert Pow(58, 2) == 3364;
    PowAdd(58, 2, 2);
    assert Pow(58, 4) == 11316496;
    PowAdd(58, 4, 4);
    assert Pow(58, 8) == 128063081718016;
    PowAdd(58, 8, 8);
    assert Pow(58, 16) == 16400152899115243850138976256;
    PowAdd(58, 16, 16);
    assert Pow(58, 32) == 268965015114358137726910587140455987105619365599731777536;
    PowAdd(58, 32, 32);
    assert Pow(58, 64) == 72342179355466901471258927612150153907721848234316445933056526044582001260898145151856420451025374266490194231296;
    PowAdd(58, 64, 4);
    assert Pow(58, 68) == 818659983307423768631895769287186768096118664656249123135650444757408038940948816018402574608346843785239217057684258816;
    PowAdd(58, 68, 2);
    assert Pow(58, 70) == 2753972183846173557677697367882096287875343187903622050228328096163920642997351817085906260982478782493544726182049846657024;
    PowAdd(58, 70, 1);
    assert Pow(58, 71) == 159730386663078066345306447337161584696769904898410078913243029577507397293846405390982563136983769384625594118558891106107392;
    assert Pow(256, 1) == 256;
    PowAdd(256, 1, 1);
    assert Pow(256, 2) == 65536;
    PowAdd(256, 2, 2);
    assert Pow(256, 4) == 4294967296;
    PowAdd(256, 4, 4);
    assert Pow(256, 8) == 18446744073709551616;
    PowAdd(256, 8, 8);
    assert Pow(256, 16) == 340282366920938463463374607431768211456;
    PowAdd(256, 16, 16);
    assert Pow(256, 32) == 115792089237316195423570985008687907853269984665640564039457584007913129639936;
    PowAdd(256, 32, 16);
    assert Pow(256, 48) == 39402006196394479212279040100143613805079739270465446667948293404245721771497210611414266254884915640806627990306816;
    PowAdd(256, 48, 4);
    assert Pow(256, 52) == 169230328010303641331690318856389386196071598838855992136870091590247882556495704531248437872567112920983350278405979725889536;
  }

  /** log 256 / log 58 < 69 / 50 = 138 / 100 */
  lemma {:induction false} Key256()
    ensures Pow(256, 50) <= Pow(58, 69)
  {
    hide Pow;
    PowFirst(58);
    PowFirst(256);
    assert Pow(256, 1) == 256;
    PowAdd(256, 1, 1);
    assert Pow(256, 2) == 65536;
    PowAdd(256, 2, 2);
    assert Pow(256, 4) == 4294967296;
    PowAdd(256, 4, 4);
    assert Pow(256, 8) == 18446744073709551616;
    PowAdd(256, 8, 8);
    assert Pow(256, 16) == 340282366920938463463374607431768211456;
    PowAdd(256, 16, 16);
    assert Pow(256, 32) == 115792089237316195423570985008687907853269984665640564039457584007913129639936;
    PowAdd(256, 32, 16);
    assert Pow(256, 48) == 39402006196394479212279040100143613805079739270465446667948293404245721771497210611414266254884915640806627990306816;
    PowAdd(256, 48, 2);
    assert Pow(256, 50) == 2582249878086908589655919172003011874329705792829223512830659356540647622016841194629645353280137831435903171972747493376;
    assert Pow(58, 1) == 58;
    PowAdd(58, 1, 1);
    assert Pow(58, 2) == 3364;
    PowAdd(58, 2, 2);
    assert Pow(58, 4) == 11316496;
    PowAdd(58, 4, 4);
    assert Pow(58, 8) == 128063081718016;
    PowAdd(58, 8, 8);
    assert Pow(58, 16) == 16400152899115243850138976256;
    PowAdd(58, 16, 16);
    assert Pow(58, 32) == 268965015114358137726910587140455987105619365599731777536;
    PowAdd(58, 32, 32);
    assert Pow(58, 64) == 72342179355466901471258927612150153907721848234316445933056526044582001260898145151856420451025374266490194231296;
    PowAdd(58, 64, 4);
    assert Pow(58, 68) == 818659983307423768631895769287186768096118664656249123135650444757408038940948816018402574608346843785239217057684258816;
    PowAdd(58, 68, 1);
    assert Pow(58, 69) == 47482279031830578580649954618656832549574882550062449141867725795929666258575031329067349327284116939543874589345687011328;
  }

  lemma {:induction false} PowFirst(x: nat)
    ensures Pow(x, 1) == x
  {
    assert Pow(x, 0) == 1;
  }

  /** The 256-ary buffer of DecodeBase58 holds any number of len base-58 digits. */
  lemma {:induction false} DecodeRoom(len: nat)
    ensures Pow(58, len) <= Pow(256, len * 733 / 1000 + 1)
  {
    hide Pow;
    Key58();
    RatioBound(58, 256, 71, 52, len, len * 733 / 1000 + 1);
  }

  /** The 58-ary buffer of EncodeBase58 holds any number of len bytes. */
  lemma {:induction false} EncodeRoom(len: nat)
    ensures Pow(256, len) <= Pow(58, len * 138 / 100 + 1)
  {
    hide Pow;
    Key256();
    RatioBound(256, 58, 50, 69, len, len * 138 / 100 + 1);
  }
}
