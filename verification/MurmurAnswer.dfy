/** One value of murmur_hash64, worked out step by step: nine bytes, one block and a
    tail of one.  The block is chosen so that it mixes to 1, which keeps the exclusive
    ors short; every multiplication, every fold and both ways of reading the key occur
    in it. */
module MurmurAnswer {
  import opened Common
  import opened Bits
  import opened Murmur

  const KEY: Bytes := [229, 161, 115, 77, 226, 151, 17, 148, 5]

  lemma LoadUnfolds(b: byte, rest: Bytes)
    ensures Load([b] + rest) == b as int + 256 * Load(rest)
  {
    assert ([b] + rest)[1..] == rest;
  }

  lemma Fold47(x: Word, low: nat, rest: nat)
    requires x == low * 0x8000_0000_0000 + rest && rest < 0x8000_0000_0000
    ensures FoldHigh(x) == Xor(x, low)
  {
    hide Xor;
    Pow2Of47();
    ShrIs(x, R);
    hide Shr;
    QuotientIs(x, 0x8000_0000_0000, low, rest);
  }

  lemma MulIs(x: Word, product: Word, wraps: nat)
    requires x * M == product + TWO64 * wraps
    ensures Mul(x) == product
  {
    ModIs(x * M, product, wraps);
  }

  lemma Pow2Of47()
    ensures Pow2(47) == 0x8000_0000_0000
  {
    Pow2Bytes();
    Pow2Adds(16, 16);
    Pow2Adds(32, 8);
    Pow2Adds(40, 4);
    Pow2Adds(2, 2);
    Pow2Adds(44, 2);
    Pow2Adds(46, 1);
    assert Pow2(0) == 1 && Pow2(1) == 2 && Pow2(2) == 4;
    hide Pow2;
  }

  lemma HighHalf()
    ensures Load([226, 151, 17, 148]) == 2484180962
  {
    hide Load;
    LoadNothing();
    LoadUnfolds(148, []);
    assert [148] + [] == [148];
    LoadUnfolds(17, [148]);
    assert [17] + [148] == [17, 148];
    LoadUnfolds(151, [17, 148]);
    assert [151] + [17, 148] == [151, 17, 148];
    LoadUnfolds(226, [151, 17, 148]);
    assert [226] + [151, 17, 148] == [226, 151, 17, 148];
  }

  lemma LoadNothing()
    ensures Load([]) == 0
  {
  }

  lemma KeyBlock()
    ensures Load([229, 161, 115, 77, 226, 151, 17, 148]) == 10669475990435242469
  {
    HighHalf();
    hide Load;
    LoadUnfolds(77, [226, 151, 17, 148]);
    assert [77] + [226, 151, 17, 148] == [77, 226, 151, 17, 148];
    LoadUnfolds(115, [77, 226, 151, 17, 148]);
    assert [115] + [77, 226, 151, 17, 148] == [115, 77, 226, 151, 17, 148];
    LoadUnfolds(161, [115, 77, 226, 151, 17, 148]);
    assert [161] + [115, 77, 226, 151, 17, 148] == [161, 115, 77, 226, 151, 17, 148];
    LoadUnfolds(229, [161, 115, 77, 226, 151, 17, 148]);
    assert [229] + [161, 115, 77, 226, 151, 17, 148] == [229, 161, 115, 77, 226, 151, 17, 148];
  }

  lemma KeyTail()
    ensures Load([5]) == 5
  {
    LoadNothing();
    LoadUnfolds(5, []);
    hide Load;
    assert [5 as byte] + [] == [5];
  }

  lemma XorInMix()
    ensures Xor(6879827495036364617, 48884) == 6879827495036328381
  {
    XorZero(6561114783321);
    hide Xor;
    XorNibble(6561114783321, 0, 1, 0, 1, 1, 0, 0, 0, 0, 104977836533147, 0, 104977836533147);
    XorNibble(104977836533147, 0, 1, 0, 1, 0, 1, 0, 1, 1, 1679645384530362, 11, 1679645384530353);
    XorNibble(1679645384530362, 11, 0, 1, 1, 1, 1, 1, 1, 0, 26874326152485799, 190, 26874326152485657);
    XorNibble(26874326152485799, 190, 0, 1, 0, 0, 1, 1, 1, 1, 429989218439772788, 3055, 429989218439770523);
    XorNibble(429989218439772788, 3055, 1, 0, 0, 1, 0, 1, 0, 0, 6879827495036364617, 48884, 6879827495036328381);
  }

  lemma XorInFinish()
    ensures Xor(18138845954074490013, 128884) == 18138845954074592233
  {
    XorZero(17298551515650);
    hide Xor;
    XorNibble(17298551515650, 0, 0, 1, 0, 0, 0, 0, 0, 1, 276776824250404, 1, 276776824250405);
    XorNibble(276776824250404, 1, 0, 0, 1, 1, 1, 1, 1, 1, 4428429188006467, 31, 4428429188006492);
    XorNibble(4428429188006467, 31, 0, 1, 0, 0, 0, 1, 1, 1, 70854867008103476, 503, 70854867008103875);
    XorNibble(70854867008103476, 503, 1, 0, 0, 1, 0, 1, 1, 1, 1133677872129655625, 8055, 1133677872129662014);
    XorNibble(1133677872129655625, 8055, 1, 1, 0, 1, 0, 1, 0, 0, 18138845954074490013, 128884, 18138845954074592233);
  }

  lemma XorAtEnd()
    ensures Xor(2185196301334026141, 15526) == 2185196301334031163
  {
    XorZero(2083965588888);
    hide Xor;
    XorNibble(2083965588888, 0, 0, 0, 1, 1, 0, 0, 0, 0, 33343449422211, 0, 33343449422211);
    XorNibble(33343449422211, 0, 0, 0, 0, 1, 0, 0, 1, 1, 533495190755377, 3, 533495190755378);
    XorNibble(533495190755377, 3, 0, 1, 1, 1, 1, 1, 0, 0, 8535923052086039, 60, 8535923052086059);
    XorNibble(8535923052086039, 60, 1, 0, 0, 1, 1, 0, 1, 0, 136574768833376633, 970, 136574768833376947);
    XorNibble(136574768833376633, 970, 1, 1, 0, 1, 0, 1, 1, 0, 2185196301334026141, 15526, 2185196301334031163);
  }

  lemma XorBlock()
    ensures Xor(18143283461037831741, 1) == 18143283461037831740
  {
    XorZero(1133955216314864483);
    hide Xor;
    XorNibble(1133955216314864483, 0, 1, 1, 0, 1, 0, 0, 0, 1, 18143283461037831741, 1, 18143283461037831740);
  }

  lemma XorTail()
    ensures Xor(2040520008906124524, 5) == 2040520008906124521
  {
    XorZero(127532500556632782);
    hide Xor;
    XorNibble(127532500556632782, 0, 1, 1, 0, 0, 0, 1, 0, 1, 2040520008906124524, 5, 2040520008906124521);
  }

  lemma MixOfBlock()
    ensures Mix(10669475990435242469) == 1
  {
    Fold47(6879827495036364617, 48884, 16114274510665);
    XorInMix();
    hide FoldHigh, Xor, Mul;
    MulIs(10669475990435242469, 6879827495036364617, 8278979144623820600);
    MulIs(6879827495036328381, 1, 5338401661063375727);
  }

  lemma FinishIs()
    ensures Finish(18138845954074490013) == 2185196301334031163
  {
    Fold47(18138845954074490013, 128884, 35504886396061);
    XorInFinish();
    Fold47(2185196301334026141, 15526, 106057129203613);
    XorAtEnd();
    hide FoldHigh, Xor, Mul;
    MulIs(18138845954074592233, 2185196301334026141, 14074836242749888808);
  }

  lemma StartIs()
    ensures Start(KEY, 0) == 18143283461037831741
  {
    XorZero(18143283461037831741);
    XorCommutes(0, 18143283461037831741);
    hide Xor, Mul;
    MulIs(9, 18143283461037831741, 6);
  }

  lemma StepIs()
    ensures Block(KEY, 0) == 10669475990435242469 && Step(18143283461037831741, 10669475990435242469) == 2040520008906124524
  {
    KeyBlock();
    MixOfBlock();
    XorBlock();
    hide Xor, Load, Mix, Mul;
    assert KEY[0..8] == [229, 161, 115, 77, 226, 151, 17, 148];
    MulIs(18143283461037831740, 2040520008906124524, 14078279525966020231);
  }

  lemma TailIs()
    ensures Tail(KEY) == [5] && TailStep(2040520008906124524, [5]) == 18138845954074490013
  {
    KeyTail();
    XorTail();
    hide Xor, Load, Mul;
    MulIs(2040520008906124521, 18138845954074490013, 1583341357444891740);
  }

  /** One value of the hash, with a block and a tail: nine bytes, seed 0. */
  lemma KnownAnswer()
    ensures Hash(KEY, 0) == 2185196301334031163
  {
    StartIs();
    StepIs();
    TailIs();
    FinishIs();
    hide Start, Step, Block, TailStep, Tail, Finish;
    assert Blocks(18143283461037831741, KEY, 0) == 18143283461037831741;
    assert Blocks(18143283461037831741, KEY, 1) == 2040520008906124524;
  }
}
