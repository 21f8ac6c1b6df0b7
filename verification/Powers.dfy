/** Powers of two. */
module Powers {

  function Power2(n: nat): (p: nat)
    ensures p > 0
  {
    if n == 0 then 1 else 2 * Power2(n - 1)
  }

  lemma {:induction false} Power2Grows(a: nat, b: nat)
    requires a <= b
    ensures Power2(a) <= Power2(b)
  {
    if a < b {
      Power2Grows(a, b - 1);
    }
  }

  lemma Double(x: nat, y: nat)
    ensures 2 * (x * y) == x * (2 * y)
  {}

  lemma {:induction false} Power2Sum(a: nat, b: nat)
    ensures Power2(a + b) == Power2(a) * Power2(b)
  {
    if b > 0 {
      Power2Sum(a, b - 1);
      Double(Power2(a), Power2(b - 1));
    }
  }

  lemma Power2Of8()
    ensures Power2(8) == 256
  {
    assert Power2(4) == 16;
    Power2Sum(4, 4);
  }

  lemma Power2Of16()
    ensures Power2(16) == 0x1_0000
  {
    Power2Of8();
    Power2Sum(8, 8);
  }

  lemma Power2Of31()
    ensures Power2(31) == 0x8000_0000
  {
    Power2Of8();
    Power2Of16();
    Power2Sum(16, 8);
    assert Power2(24) == 0x100_0000;
    assert Power2(7) == 128 by {
      assert Power2(3) == 8;
      assert Power2(4) == 16;
      Power2Sum(4, 3);
    }
    Power2Sum(24, 7);
  }

  lemma Power2Of64()
    ensures Power2(64) == 0x1_0000_0000_0000_0000
  {
    Power2Of16();
    Power2Sum(16, 16);
    Power2Sum(32, 32);
  }
}
