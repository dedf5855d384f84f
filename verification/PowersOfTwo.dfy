module PowersOfTwo {

  function PowerOf2(k: nat): (p: nat)
    ensures p >= 1
  {
    if k == 0 then 1 else 2 * PowerOf2(k - 1)
  }

  lemma {:induction false} PowerOf2Adds(j: nat, k: nat)
    ensures PowerOf2(j + k) == PowerOf2(j) * PowerOf2(k)
  {
    if j == 0 {
    } else {
      PowerOf2Adds(j - 1, k);
    }
  }

  lemma SomePowers()
    ensures PowerOf2(39) == 0x80_0000_0000 && PowerOf2(43) == 0x800_0000_0000
    ensures PowerOf2(64) == 0x1_0000_0000_0000_0000
  {
    assert PowerOf2(3) == 8 && PowerOf2(4) == 16;
    PowerOf2Adds(3, 4);
    PowerOf2Adds(4, 4);
    PowerOf2Adds(8, 8);
    assert PowerOf2(16) == 0x1_0000;
    PowerOf2Adds(16, 16);
    assert PowerOf2(32) == 0x1_0000_0000;
    PowerOf2Adds(32, 7);
    PowerOf2Adds(39, 4);
    PowerOf2Adds(32, 32);
  }
}
